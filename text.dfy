/**
 * The string operations the CORS code relies on: `sep.join(parts)`,
 * `s.split(c)` for a one-character separator (used by callers to read a
 * joined header back), `s.split()` on runs of whitespace, and `str(n)` for
 * an integer. Header values are Python 2 byte strings, so whitespace is the
 * six ASCII characters space, tab, line feed, vertical tab, form feed and
 * carriage return.
 */
module Text {
  import opened Optional

  predicate IsSpace(c: char) {
    c == ' ' || '\t' <= c <= '\r'
  }

  predicate NoSpace(s: string) {
    forall k :: 0 <= k < |s| ==> !IsSpace(s[k])
  }

  // ---------------------------------------------------------------- join

  /** The lengths of the parts, added up. */
  function TotalLength(parts: seq<string>): nat {
    if parts == [] then 0 else |parts[0]| + TotalLength(parts[1..])
  }

  /** `sep.join(parts)`: the parts in order, one separator between each two
      neighbours, and nothing else. */
  function Join(sep: string, parts: seq<string>): (s: string)
    ensures |parts| == 0 ==> s == ""
    ensures |parts| >= 1 ==> |s| == TotalLength(parts) + (|parts| - 1) * |sep|
    ensures |parts| >= 1 ==> s[..|parts[0]|] == parts[0]
    ensures |parts| >= 2 ==> s[|parts[0]|..|parts[0]| + |sep|] == sep
  {
    if |parts| == 0 then ""
    else if |parts| == 1 then parts[0]
    else
      var rest := Join(sep, parts[1..]);
      assert (|parts| - 1) * |sep| == |sep| + (|parts| - 2) * |sep|;
      parts[0] + sep + rest
  }

  // ----------------------------------------------- split on one character

  /** The index of the first `c` in `s`, or `|s|` when there is none. */
  function IndexOf(c: char, s: string): (i: nat)
    ensures i <= |s|
    ensures forall k :: 0 <= k < i ==> s[k] != c
    ensures i < |s| ==> s[i] == c
  {
    if s == [] then 0
    else if s[0] == c then 0
    else 1 + IndexOf(c, s[1..])
  }

  /** `s.split(sep)` for a one-character separator: never empty, and no part
      holds the separator. */
  function SplitOn(sep: char, s: string): (parts: seq<string>)
    ensures |parts| >= 1
    ensures forall k :: 0 <= k < |parts| ==> sep !in parts[k]
    decreases |s|
  {
    var i := IndexOf(sep, s);
    if i == |s| then [s] else [s[..i]] + SplitOn(sep, s[i + 1..])
  }

  /** Joining the parts of a split gives back the string. */
  lemma {:induction false} JoinSplitOn(sep: char, s: string)
    ensures Join([sep], SplitOn(sep, s)) == s
    decreases |s|
  {
    var i := IndexOf(sep, s);
    if i < |s| {
      var rest := SplitOn(sep, s[i + 1..]);
      var parts := [s[..i]] + rest;
      JoinSplitOn(sep, s[i + 1..]);
      assert SplitOn(sep, s) == parts;
      assert |parts| >= 2 && parts[0] == s[..i] && parts[1..] == rest;
      assert Join([sep], parts) == s[..i] + [sep] + Join([sep], rest);
      assert s == s[..i] + [s[i]] + s[i + 1..];
    }
  }

  /** Splitting a join gives back the parts, as long as there is at least one
      part and none of them holds the separator. */
  lemma {:induction false} SplitOnJoin(sep: char, parts: seq<string>)
    requires |parts| >= 1
    requires forall k :: 0 <= k < |parts| ==> sep !in parts[k]
    ensures SplitOn(sep, Join([sep], parts)) == parts
  {
    var s := Join([sep], parts);
    if |parts| == 1 {
    } else {
      var head := parts[0];
      var tail := Join([sep], parts[1..]);
      assert s == head + [sep] + tail;
      var i := IndexOf(sep, s);
      assert s[|head|] == sep;
      assert i == |head|;
      assert s[..i] == head;
      assert s[i + 1..] == tail;
      SplitOnJoin(sep, parts[1..]);
    }
  }

  // --------------------------------------------------- split on whitespace

  /** The length of the leading run of non-whitespace characters of `s`. */
  function TokenEnd(s: string): (n: nat)
    ensures n <= |s|
    ensures NoSpace(s[..n])
    ensures n < |s| ==> IsSpace(s[n])
  {
    if s == [] || IsSpace(s[0]) then 0
    else
      var m := TokenEnd(s[1..]);
      assert s[..1 + m] == [s[0]] + s[1..][..m];
      1 + m
  }

  /** A token followed by whitespace, or by nothing, ends where the token does. */
  lemma {:induction false} TokenEndAfter(a: string, rest: string)
    requires NoSpace(a)
    requires rest == [] || IsSpace(rest[0])
    ensures TokenEnd(a + rest) == |a|
  {
    if a != [] {
      assert (a + rest)[1..] == a[1..] + rest;
      TokenEndAfter(a[1..], rest);
    } else {
      assert a + rest == rest;
    }
  }

  /** A whitespace character separates: the split of `a`, the whitespace,
      and `b` is the split of `a` followed by the split of `b`. */
  lemma {:induction false} SplitWhitespaceAtSpace(a: string, c: char, b: string)
    requires IsSpace(c)
    ensures SplitWhitespace(a + [c] + b) == SplitWhitespace(a) + SplitWhitespace(b)
    decreases |a|
  {
    if a == [] {
      assert (a + [c] + b)[1..] == b;
    } else if IsSpace(a[0]) {
      SplitWhitespaceAtSpace(a[1..], c, b);
      LeadingSpaceStep(a, c, b);
    } else {
      SplitWhitespaceAtSpace(a[TokenEnd(a)..], c, b);
      LeadingTokenStep(a, c, b);
    }
  }

  /** The induction step for `a` starting with whitespace. */
  lemma LeadingSpaceStep(a: string, c: char, b: string)
    requires a != [] && IsSpace(a[0])
    requires SplitWhitespace(a[1..] + [c] + b) == SplitWhitespace(a[1..]) + SplitWhitespace(b)
    ensures SplitWhitespace(a + [c] + b) == SplitWhitespace(a) + SplitWhitespace(b)
  {
    var s := a + [c] + b;
    assert s[0] == a[0] && s[1..] == a[1..] + [c] + b;
  }

  /** The induction step for `a` starting with a token. */
  lemma LeadingTokenStep(a: string, c: char, b: string)
    requires IsSpace(c) && a != [] && !IsSpace(a[0])
    requires SplitWhitespace(a[TokenEnd(a)..] + [c] + b)
          == SplitWhitespace(a[TokenEnd(a)..]) + SplitWhitespace(b)
    ensures SplitWhitespace(a + [c] + b) == SplitWhitespace(a) + SplitWhitespace(b)
  {
    var s := a + [c] + b;
    var m := TokenEnd(a);
    var token, rest := a[..m], a[m..] + [c] + b;
    assert s == token + rest;
    TokenEndAfter(token, rest);
    assert s[0] == a[0] && s[..m] == token && s[m..] == rest;
    assert SplitWhitespace(s) == [token] + SplitWhitespace(rest);
    assert SplitWhitespace(a) == [token] + SplitWhitespace(a[m..]);
    assert [token] + (SplitWhitespace(a[m..]) + SplitWhitespace(b))
        == ([token] + SplitWhitespace(a[m..])) + SplitWhitespace(b);
  }

  /** A whitespace-free, non-empty string is a single token. */
  lemma SplitWhitespaceOfToken(t: string)
    requires t != [] && NoSpace(t)
    ensures SplitWhitespace(t) == [t]
  {
    TokenEndAfter(t, []);
    assert t + [] == t;
    assert t[..|t|] == t && t[|t|..] == [];
  }

  /** `s.split()`: the maximal runs of non-whitespace characters, in order;
      every token is non-empty and holds no whitespace. */
  function SplitWhitespace(s: string): (tokens: seq<string>)
    ensures forall k :: 0 <= k < |tokens| ==> tokens[k] != [] && NoSpace(tokens[k])
    decreases |s|
  {
    if s == [] then []
    else if IsSpace(s[0]) then SplitWhitespace(s[1..])
    else
      var n := TokenEnd(s);
      [s[..n]] + SplitWhitespace(s[n..])
  }

  /** The characters of `s` that are not whitespace, in order. */
  function RemoveSpaces(s: string): string {
    if s == [] then []
    else if IsSpace(s[0]) then RemoveSpaces(s[1..])
    else [s[0]] + RemoveSpaces(s[1..])
  }

  /** The parts laid end to end. */
  function Concat(parts: seq<string>): string {
    if parts == [] then [] else parts[0] + Concat(parts[1..])
  }

  lemma {:induction false} RemoveSpacesAppend(a: string, b: string)
    ensures RemoveSpaces(a + b) == RemoveSpaces(a) + RemoveSpaces(b)
  {
    if a != [] {
      assert (a + b)[1..] == a[1..] + b;
      RemoveSpacesAppend(a[1..], b);
    } else {
      assert a + b == b;
    }
  }

  lemma {:induction false} RemoveSpacesOfToken(a: string)
    requires NoSpace(a)
    ensures RemoveSpaces(a) == a
  {
    if a != [] {
      RemoveSpacesOfToken(a[1..]);
    }
  }

  /** Splitting on whitespace drops exactly the whitespace: the tokens laid
      end to end are the input without its whitespace characters. */
  lemma {:induction false} SplitWhitespaceKeepsText(s: string)
    ensures Concat(SplitWhitespace(s)) == RemoveSpaces(s)
    decreases |s|
  {
    if s == [] {
    } else if IsSpace(s[0]) {
      SplitWhitespaceKeepsText(s[1..]);
    } else {
      var n := TokenEnd(s);
      SplitWhitespaceKeepsText(s[n..]);
      assert s == s[..n] + s[n..];
      RemoveSpacesAppend(s[..n], s[n..]);
      RemoveSpacesOfToken(s[..n]);
      assert ([s[..n]] + SplitWhitespace(s[n..]))[1..] == SplitWhitespace(s[n..]);
    }
  }

  /** Splitting a space-joined list of tokens gives back the tokens. */
  lemma {:induction false} SplitWhitespaceJoin(tokens: seq<string>)
    requires forall k :: 0 <= k < |tokens| ==> tokens[k] != [] && NoSpace(tokens[k])
    ensures SplitWhitespace(Join(" ", tokens)) == tokens
  {
    if |tokens| == 0 {
    } else {
      var head := tokens[0];
      var s := Join(" ", tokens);
      var n := TokenEnd(s);
      if |tokens| == 1 {
        assert s == head + [];
        TokenEndAfter(head, []);
        assert s[..n] == head;
        assert s[n..] == [];
      } else {
        var tail := Join(" ", tokens[1..]);
        assert s == head + (" " + tail);
        TokenEndAfter(head, " " + tail);
        assert s[..n] == head;
        assert s[n..] == " " + tail;
        assert (" " + tail)[1..] == tail;
        SplitWhitespaceJoin(tokens[1..]);
      }
    }
  }

  // -------------------------------------------------------------- str(n)

  predicate IsDigit(c: char) {
    '0' <= c <= '9'
  }

  predicate AllDigits(s: string) {
    forall k :: 0 <= k < |s| ==> IsDigit(s[k])
  }

  function DigitChar(d: nat): (c: char)
    requires d < 10
    ensures IsDigit(c) && c as int - '0' as int == d
  {
    (d + '0' as int) as char
  }

  /** The decimal digits of `n`, most significant first, with no leading zero. */
  function NatToDecimal(n: nat): (s: string)
    ensures |s| >= 1 && AllDigits(s)
    ensures (s[0] == '0') == (n == 0)
    ensures n == 0 ==> s == "0"
  {
    if n < 10 then [DigitChar(n)] else NatToDecimal(n / 10) + [DigitChar(n % 10)]
  }

  /** `str(n)` for a Python integer: a minus sign exactly for a negative
      number, then its digits. */
  function IntToDecimal(n: int): (s: string)
    ensures |s| >= 1
    ensures (s[0] == '-') == (n < 0)
    ensures n < 0 ==> |s| >= 2 && AllDigits(s[1..])
    ensures n >= 0 ==> AllDigits(s)
  {
    if n < 0 then
      var digits := NatToDecimal(-n);
      assert ("-" + digits)[1..] == digits;
      "-" + digits
    else NatToDecimal(n)
  }

  /** The value of a string of decimal digits (0 for the empty string). */
  function DecimalValue(s: string): nat
    requires AllDigits(s)
  {
    if s == [] then 0
    else 10 * DecimalValue(s[..|s| - 1]) + (s[|s| - 1] as int - '0' as int)
  }

  /** `int(s)` restricted to an optional minus sign followed by digits. */
  function ParseInt(s: string): Option<int> {
    if |s| >= 2 && s[0] == '-' && AllDigits(s[1..]) then Some(0 - DecimalValue(s[1..]) as int)
    else if |s| >= 1 && AllDigits(s) then Some(DecimalValue(s))
    else None
  }

  lemma {:induction false} DecimalValueOfNat(n: nat)
    ensures DecimalValue(NatToDecimal(n)) == n
  {
    if n >= 10 {
      var front := NatToDecimal(n / 10);
      var s := front + [DigitChar(n % 10)];
      assert s[..|s| - 1] == front;
      DecimalValueOfNat(n / 10);
    }
  }

  /** The decimal string of an integer reads back as that integer. */
  lemma ParseIntDecimal(n: int)
    ensures ParseInt(IntToDecimal(n)) == Some(n)
  {
    if n < 0 {
      var digits := NatToDecimal(-n);
      var s := "-" + digits;
      assert s[0] == '-' && s[1..] == digits;
      DecimalValueOfNat(-n);
      assert ParseInt(s) == Some(0 - DecimalValue(digits) as int);
    } else {
      var s := NatToDecimal(n);
      assert IsDigit(s[0]);
      DecimalValueOfNat(n);
      assert ParseInt(s) == Some(DecimalValue(s));
    }
  }
}
