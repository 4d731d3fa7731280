/**
 * Shell-style pattern matching as `fnmatch.fnmatchcase` does it: the pattern
 * is first translated into a list of tokens (Python 2.7's
 * `fnmatch.translate` followed by the regular-expression parser's reading of
 * a character set), then the name is matched against the whole token list.
 * `*` matches any run of characters, `?` any one character, `[...]` one
 * character of a set (`[!...]` one character outside it); a `[` with no
 * closing `]` is an ordinary character. Matching is case-sensitive.
 */
module Glob {

  datatype ClassItem = Single(c: char) | Range(lo: char, hi: char)

  datatype Token =
    | Literal(c: char)
    | AnyChar
    | AnyString
    | CharClass(negated: bool, items: seq<ClassItem>)

  predicate IsMeta(c: char) {
    c == '*' || c == '?' || c == '['
  }

  /** A pattern with no wildcard characters at all. */
  predicate IsPlain(p: string) {
    forall k :: 0 <= k < |p| ==> !IsMeta(p[k])
  }

  // ----------------------------------------------------------- translation

  /** The first index at or after `j` that holds `]`, or `|p|` if none does. */
  function CloseBracket(p: string, j: nat): (k: nat)
    requires j <= |p|
    ensures j <= k <= |p|
    ensures k < |p| ==> p[k] == ']'
    ensures forall m :: j <= m < k ==> p[m] != ']'
    decreases |p| - j
  {
    if j == |p| || p[j] == ']' then j else CloseBracket(p, j + 1)
  }

  /** The scan stops at the first `]` from `j` on. */
  lemma {:induction false} CloseBracketAt(p: string, j: nat, k: nat)
    requires j <= k < |p| && p[k] == ']'
    requires forall m :: j <= m < k ==> p[m] != ']'
    ensures CloseBracket(p, j) == k
    decreases k - j
  {
    if j < k {
      CloseBracketAt(p, j + 1, k);
    }
  }

  /** The members of a character set, read left to right: `a-z` is a range,
      and a `-` that has no character after it stands for itself. */
  function ClassItems(s: string): (items: seq<ClassItem>)
    ensures |items| <= |s|
    ensures items == [] <==> s == []
    decreases |s|
  {
    if s == [] then []
    else if |s| >= 3 && s[1] == '-' then [Range(s[0], s[2])] + ClassItems(s[3..])
    else [Single(s[0])] + ClassItems(s[1..])
  }

  /** A set body without `-` lists single characters, one per character. */
  lemma {:induction false} ClassItemsWithoutDash(s: string)
    requires '-' !in s
    ensures ClassItems(s) == seq(|s|, k requires 0 <= k < |s| => Single(s[k]))
    decreases |s|
  {
    if s != [] {
      assert '-' !in s[1..] by {
        forall k | 0 <= k < |s[1..]| ensures s[1..][k] != '-' {
          assert s[1..][k] == s[k + 1];
        }
      }
      ClassItemsWithoutDash(s[1..]);
    }
  }

  /** The tokens of `p[i..]`. A `]` right after `[` or `[!` belongs to the set. */
  function Translate(p: string, i: nat): (tokens: seq<Token>)
    requires i <= |p|
    ensures |tokens| <= |p| - i
    ensures tokens == [] <==> i == |p|
    decreases |p| - i
  {
    if i == |p| then []
    else if p[i] == '*' then [AnyString] + Translate(p, i + 1)
    else if p[i] == '?' then [AnyChar] + Translate(p, i + 1)
    else if p[i] == '[' then
      var j0 := i + 1;
      var j1 := if j0 < |p| && p[j0] == '!' then j0 + 1 else j0;
      var j2 := if j1 < |p| && p[j1] == ']' then j1 + 1 else j1;
      var j := CloseBracket(p, j2);
      if j == |p| then [Literal('[')] + Translate(p, i + 1)
      else
        var stuff := p[i + 1..j];
        var charSet := if stuff[0] == '!' then CharClass(true, ClassItems(stuff[1..]))
                   else CharClass(false, ClassItems(stuff));
        [charSet] + Translate(p, j + 1)
    else [Literal(p[i])] + Translate(p, i + 1)
  }

  // -------------------------------------------------------------- matching

  predicate Covers(item: ClassItem, c: char) {
    match item
    case Single(x) => c == x
    case Range(lo, hi) => lo <= c <= hi
  }

  predicate InClass(c: char, items: seq<ClassItem>) {
    exists k :: 0 <= k < |items| && Covers(items[k], c)
  }

  /** Whether a token other than `*` accepts the character `c`. */
  predicate MatchOne(t: Token, c: char) {
    match t
    case Literal(x) => c == x
    case AnyChar => true
    case AnyString => false
    case CharClass(negated, items) => InClass(c, items) != negated
  }

  /** Whether the whole of `s` matches the whole token list. Without a `*`
      token, each token consumes exactly one character. */
  predicate Match(tokens: seq<Token>, s: string)
    ensures Match(tokens, s) && AnyString !in tokens ==> |s| == |tokens|
    decreases |tokens|, |s|
  {
    if tokens == [] then s == []
    else if tokens[0].AnyString? then
      Match(tokens[1..], s) || (s != [] && Match(tokens, s[1..]))
    else
      s != [] && MatchOne(tokens[0], s[0]) && Match(tokens[1..], s[1..])
  }

  /** `fnmatch.fnmatchcase(name, pattern)`. A pattern without wildcards
      matches exactly the name equal to it. */
  function FnMatchCase(name: string, pattern: string): (r: bool)
    ensures IsPlain(pattern) ==> (r <==> name == pattern)
  {
    PlainTranslationMatches(name, pattern);
    Match(Translate(pattern, 0), name)
  }

  /** A plain pattern translates into its own literals, which match only
      the equal name. */
  lemma PlainTranslationMatches(name: string, pattern: string)
    ensures IsPlain(pattern) ==> (Match(Translate(pattern, 0), name) <==> name == pattern)
  {
    if IsPlain(pattern) {
      TranslatePlain(pattern, 0);
      assert pattern[0..] == pattern;
      MatchLiterals(pattern, name);
    }
  }

  // ---------------------------------------------------------------- lemmas

  /** One literal token per character. */
  function Literals(s: string): (tokens: seq<Token>)
    ensures |tokens| == |s|
    ensures forall k :: 0 <= k < |s| ==> tokens[k] == Literal(s[k])
  {
    seq(|s|, k requires 0 <= k < |s| => Literal(s[k]))
  }

  /** A plain tail of a pattern translates character by character. */
  lemma {:induction false} TranslatePlain(p: string, i: nat)
    requires i <= |p|
    requires forall k :: i <= k < |p| ==> !IsMeta(p[k])
    ensures Translate(p, i) == Literals(p[i..])
    decreases |p| - i
  {
    if i < |p| {
      TranslatePlain(p, i + 1);
      assert Literals(p[i..]) == [Literal(p[i])] + Literals(p[i + 1..]);
    }
  }

  /** A list of literal tokens matches exactly the string it spells. */
  lemma {:induction false} MatchLiterals(t: string, s: string)
    ensures Match(Literals(t), s) <==> s == t
  {
    if t != [] {
      assert Literals(t)[1..] == Literals(t[1..]);
      if s != [] {
        MatchLiterals(t[1..], s[1..]);
        if s[0] == t[0] && s[1..] == t[1..] {
          assert s == [s[0]] + s[1..] && t == [t[0]] + t[1..];
        }
      }
    }
  }

  predicate EndsWith(s: string, t: string) {
    |t| <= |s| && s[|s| - |t|..] == t
  }

  lemma {:induction false} MatchStarLiterals(t: string, s: string)
    ensures Match([AnyString] + Literals(t), s) <==> EndsWith(s, t)
    decreases |s|
  {
    var tokens := [AnyString] + Literals(t);
    assert tokens[1..] == Literals(t);
    MatchLiterals(t, s);
    if s != [] {
      MatchStarLiterals(t, s[1..]);
      if |t| < |s| {
        assert s[|s| - |t|..] == s[1..][|s| - 1 - |t|..];
      }
    }
  }

  /** `*` followed by plain text matches exactly the names ending in that
      text, so `*.example.com` matches every subdomain but not the bare domain. */
  lemma StarPrefixMatchesSuffixes(name: string, suffix: string)
    requires IsPlain(suffix)
    ensures FnMatchCase(name, "*" + suffix) <==> EndsWith(name, suffix)
  {
    var p := "*" + suffix;
    TranslatePlain(p, 1);
    assert p[1..] == suffix;
    MatchStarLiterals(suffix, name);
  }

  lemma {:induction false} StarMatchesAll(s: string)
    ensures Match([AnyString], s)
  {
    assert [AnyString][1..] == [];
    if s != [] {
      StarMatchesAll(s[1..]);
    }
  }

  /** The pattern `*` matches every name. */
  lemma StarPatternMatchesEverything(name: string)
    ensures FnMatchCase(name, "*")
  {
    assert Translate("*", 1) == [];
    assert Translate("*", 0) == [AnyString];
    StarMatchesAll(name);
  }

  /** `?` followed by plain text matches exactly the names one character
      longer than that text that end with it. */
  lemma QuestionPrefixMatches(name: string, t: string)
    requires IsPlain(t)
    ensures FnMatchCase(name, "?" + t) <==> |name| == 1 + |t| && EndsWith(name, t)
  {
    var p := "?" + t;
    assert p[0] == '?' && p[1..] == t;
    TranslatePlain(p, 1);
    assert Translate(p, 0) == [AnyChar] + Literals(t);
    assert ([AnyChar] + Literals(t))[1..] == Literals(t);
    if name != [] {
      MatchLiterals(t, name[1..]);
      if |name| == 1 + |t| {
        assert name[|name| - |t|..] == name[1..];
      }
    }
  }

  /** A set `[b]` read by one character: `b` must not open with `!`, and may
      hold `]` only as its first character. */
  predicate SetBody(b: string) {
    b != [] && forall k :: 1 <= k < |b| ==> b[k] != ']'
  }

  /** A set body placed at `off` in a pattern holds no `]` from its
      `from`-th character on. */
  lemma BodyHasNoClose(p: string, b: string, off: nat, from: nat)
    requires off + |b| <= |p| && p[off..off + |b|] == b
    requires from <= 1 <= |b| && (from == 0 ==> b[0] != ']')
    requires forall k :: 1 <= k < |b| ==> b[k] != ']'
    ensures forall m :: off + from <= m < off + |b| ==> p[m] != ']'
  {
    forall m | off + from <= m < off + |b|
      ensures p[m] != ']'
    {
      assert p[m] == p[off..off + |b|][m - off];
    }
  }

  /** `[b]` translates into the one set `b` describes. */
  lemma ClassPatternTranslates(b: string)
    requires SetBody(b) && b[0] != '!'
    ensures Translate("[" + b + "]", 0) == [CharClass(false, ClassItems(b))]
  {
    var p := "[" + b + "]";
    assert |p| == |b| + 2 && p[0] == '[' && p[1] == b[0] && p[|b| + 1] == ']';
    assert p[1..|b| + 1] == b;
    var from := if b[0] == ']' then 1 else 0;
    BodyHasNoClose(p, b, 1, from);
    CloseBracketAt(p, 1 + from, |b| + 1);
    assert Translate(p, |b| + 2) == [];
    var t := CharClass(false, ClassItems(b));
    assert p[1] != '!' && p[1..|b| + 1][0] == b[0];
    assert Translate(p, 0) == [t] + Translate(p, |b| + 2);
    assert [t] + [] == [t];
  }

  /** `[!b]` translates into the complement of the set `b` describes. */
  lemma NegatedClassPatternTranslates(b: string)
    requires SetBody(b)
    ensures Translate("[!" + b + "]", 0) == [CharClass(true, ClassItems(b))]
  {
    var p := "[!" + b + "]";
    assert |p| == |b| + 3 && p[0] == '[' && p[1] == '!' && p[|b| + 2] == ']';
    assert p[2..|b| + 2] == b;
    var from := if b[0] == ']' then 1 else 0;
    BodyHasNoClose(p, b, 2, from);
    CloseBracketAt(p, 2 + from, |b| + 2);
    assert p[1..|b| + 2] == "!" + b && ("!" + b)[1..] == b;
    assert Translate(p, |b| + 3) == [];
  }

  /** A one-character name matches a pattern that translates into a single
      set token exactly when that set accepts the character. */
  lemma SingleSetMatches(c: char, p: string, t: Token)
    requires p != [] && p[0] == '[' && t.CharClass? && Translate(p, 0) == [t]
    ensures FnMatchCase([c], p) <==> MatchOne(t, c)
  {
    assert !IsPlain(p) by {
      assert IsMeta(p[0]);
    }
    assert FnMatchCase([c], p) == Match([t], [c]);
    assert Match([t], [c]) <==> MatchOne(t, c) by {
      assert [t][0] == t && [c][0] == c;
      assert [t][1..] == [] && [c][1..] == [];
      assert Match([], []);
    }
  }

  /** A one-character name matches `[b]` exactly when the character is in
      the set `b` describes. */
  lemma ClassPatternMatches(c: char, b: string)
    requires SetBody(b) && b[0] != '!'
    ensures FnMatchCase([c], "[" + b + "]") <==> InClass(c, ClassItems(b))
  {
    ClassPatternTranslates(b);
    SingleSetMatches(c, "[" + b + "]", CharClass(false, ClassItems(b)));
  }

  /** A one-character name matches `[!b]` exactly when the character is not
      in the set `b` describes. */
  lemma NegatedClassPatternMatches(c: char, b: string)
    requires SetBody(b)
    ensures FnMatchCase([c], "[!" + b + "]") <==> !InClass(c, ClassItems(b))
  {
    NegatedClassPatternTranslates(b);
    SingleSetMatches(c, "[!" + b + "]", CharClass(true, ClassItems(b)));
  }

  /** The wildcard-subdomain example. */
  lemma SubdomainExample()
    ensures FnMatchCase("a.example.com", "*.example.com")
    ensures !FnMatchCase("example.com", "*.example.com")
  {
    var suffix := ".example.com";
    assert IsPlain(suffix);
    assert "*.example.com" == "*" + suffix;
    assert "a.example.com"[1..] == suffix;
    assert EndsWith("a.example.com", suffix);
    assert !EndsWith("example.com", suffix);
    StarPrefixMatchesSuffixes("a.example.com", suffix);
    StarPrefixMatchesSuffixes("example.com", suffix);
  }

  /** A character set with a range matches the characters in the range. */
  lemma CharClassExample()
    ensures FnMatchCase("b", "[a-c]")
    ensures !FnMatchCase("d", "[a-c]")
  {
    var p := "[a-c]";
    assert CloseBracket(p, 3) == 4 && CloseBracket(p, 2) == 4 && CloseBracket(p, 1) == 4;
    assert p[1..4] == "a-c" && ClassItems("a-c") == [Range('a', 'c')];
    assert Translate(p, 5) == [];
    assert Translate(p, 0) == [CharClass(false, [Range('a', 'c')])];
    assert InClass('b', [Range('a', 'c')]) by {
      assert Covers([Range('a', 'c')][0], 'b');
    }
    assert "b"[1..] == [] && "d"[1..] == [];
  }

  /** A set opened with `[!` matches the characters outside the range. */
  lemma NegatedClassExample()
    ensures FnMatchCase("d", "[!a-c]")
    ensures !FnMatchCase("b", "[!a-c]")
  {
    var q := "[!a-c]";
    assert CloseBracket(q, 4) == 5 && CloseBracket(q, 3) == 5 && CloseBracket(q, 2) == 5;
    assert q[1..5] == "!a-c" && q[1..5][1..] == "a-c" && ClassItems("a-c") == [Range('a', 'c')];
    assert Translate(q, 6) == [];
    assert Translate(q, 0) == [CharClass(true, [Range('a', 'c')])];
    assert InClass('b', [Range('a', 'c')]) by {
      assert Covers([Range('a', 'c')][0], 'b');
    }
    assert "b"[1..] == [] && "d"[1..] == [];
  }
}
