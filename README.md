# Cornice CORS decision engine, modelled in Dafny

This project models the CORS (Cross-Origin Resource Sharing) logic of the
Cornice web-service library for Pyramid, and the part of its fallback view
that chooses an error response.

- **Preflight view** (`_preflight_view` in cornice/cors.py). It answers an
  `OPTIONS` request by following the resource processing model of section
  6.2 of the W3C CORS Recommendation. It checks `Origin`,
  `Access-Control-Request-Method` and `Access-Control-Request-Headers`, and
  records one error per failed check instead of stopping at the first.
  There is one early return, taken when a mandatory header is missing.
  Past it, the view writes `Access-Control-Allow-Headers`,
  `Access-Control-Allow-Methods` and, when the service configures one,
  `Access-Control-Max-Age`.
- **Effective method** (`_get_method`). For `OPTIONS` it is the announced
  method when `Access-Control-Request-Method` is present, and `OPTIONS`
  itself when it is absent; for any other verb it is the verb itself.
- **Validator** (`_cors_validator`). It matches `Origin` against the
  service's shell-style patterns for the effective method. A match echoes
  the origin in `Access-Control-Allow-Origin`; a miss records one error.
- **Filter** (`_cors_filter`). It adds `Access-Control-Allow-Credentials`
  only when that header is absent and credentials are supported, and adds
  `Access-Control-Expose-Headers` for verbs other than `OPTIONS` when the
  service supports at least one header.
- **Older preflight view** (`_options_view` in cornice/pyramidhook.py).
  It runs the same checks, with the origin check inline against the
  service's supported origins, both allow-lists joined with a bare `","`,
  errors recorded under the location `"headers"`, and no
  `Access-Control-Max-Age`.
- **Fallback view** (the decision part of `_fallback_view` in
  cornice/pyramidhook.py):
  - 405 with the defined methods for a method that has no definition;
  - 406 with the gathered list of acceptable content types, with the types
    of `request.info['acceptable']` appended when missing, when content
    negotiation fails;
  - a predicate mismatch otherwise.

Modules:

- `Optional`: the `Option` type.
- `Text`:
  - `sep.join`;
  - `s.split(c)`, which a client uses to read the allow-lists back;
  - `s.split()`;
  - `str(n)`, and a decimal reader to read it back.
- `Glob`: `fnmatch.fnmatchcase`, as the translation of a pattern into
  tokens (`*`, `?`, `[...]`, `[!...]`, literals) plus a matcher.
- `Http`:
  - the header map;
  - `request.errors`, a class whose `Add` appends an error;
  - the response, whose header map is assigned in place;
  - the request.
- `Policy`: the read-only service policy.
- `Cors`: cornice/cors.py.
- `PyramidHook`: cornice/pyramidhook.py.

Each view is a method. Its postconditions tie the new error list and the new
response headers to pure specification functions: `PreflightErrors`,
`PreflightHeaders`, `OptionsErrors`, `OptionsHeaders`, `FilterHeaders` and
`Fallback`. The lemmas state the promised properties of these functions.

## Notes on the code as modelled

- **Empty headers count as missing.** The mandatory-header checks use
  Python truthiness (`if not origin`), so an empty `Origin` or
  `Access-Control-Request-Method` counts as missing, not only an absent
  one. `Http.Truthy` models this.
- **`_get_method` does no truthiness test.** It uses
  `headers.get(name, default)`, so an empty announced method is returned
  as the empty string.
- **Header names are compared exactly.** Both views test requested header
  names and the requested method for exact, case-sensitive membership in
  the service's lists.
- **Whitespace splitting.** `str.split()` runs on Python 2 byte strings, so
  whitespace is space, tab, line feed, vertical tab, form feed and
  carriage return.
- **Only the older view checks the origin.** The preflight view of
  cornice/cors.py never checks the origin itself; that is left to the
  validator. The older view of cornice/pyramidhook.py does check it, which
  is the behaviour cornice/tests/test_cors.py:62-68 expects from a
  preflight with a foreign origin. `PyramidHook.OptionsViewMirrorsPreflight`
  states exactly how the two views' error lists relate.
- **`fnmatch.fnmatch`.** The older view uses it where cornice/cors.py uses
  `fnmatch.fnmatchcase`. On POSIX the two agree (`normcase` is the
  identity there), so both views use `Glob.FnMatchCase`.

## Model

| member | source | states |
|---|---|---|
| Text.SplitOn | cornice/tests/test_cors.py:80-81 | `s.split(c)` yields at least one part, and no part contains the separator |
| Text.JoinSplitOn | cornice/tests/test_cors.py:80-81 | joining the parts of a split on one character with that character gives the original string back |
| Text.SplitOnJoin | cornice/cors.py:51-52 | splitting a comma-joined list of one or more comma-free items gives the items back |
| Text.Join | cornice/cors.py:48-52 | `sep.join(parts)` is empty for no parts; otherwise its length is the parts' total plus one separator between each two, it starts with the first part, and the separator follows it when there is a second |
| Text.SplitWhitespace | cornice/cors.py:36-37 | every token of `s.split()` is non-empty and holds no whitespace; with `SplitWhitespaceAtSpace` and `SplitWhitespaceOfToken` this pins the tokens to the maximal whitespace-free runs |
| Text.SplitWhitespaceAtSpace | cornice/cors.py:36-37 | a whitespace character splits: `(a + c + b).split()` is `a.split()` followed by `b.split()` |
| Text.SplitWhitespaceOfToken | cornice/cors.py:36-37 | a non-empty string without whitespace splits into itself alone |
| Text.SplitWhitespaceKeepsText | cornice/cors.py:36-37 | the tokens, concatenated, are the input with its whitespace removed: splitting loses nothing but whitespace |
| Text.SplitWhitespaceJoin | cornice/cors.py:36-37 | splitting a space-joined list of whitespace-free, non-empty names gives the names back |
| Text.IntToDecimal | cornice/cors.py:56 | `str(n)` is non-empty, starts with `-` exactly when `n` is negative, and is otherwise made of digits |
| Text.NatToDecimal | cornice/cors.py:56 | `str(n)` for a natural number is a non-empty string of digits, with a leading zero only for 0 |
| Text.ParseIntDecimal | cornice/cors.py:56 | `str(n)` of any integer, negative ones included, reads back as `n` |
| Glob.ClassItems | cornice/pyramidhook.py:102 | a set body is read left to right into single characters and `x-y` ranges, a `-` with nothing after it standing for itself; there are at most as many items as characters, and none exactly for the empty body |
| Glob.ClassItemsWithoutDash | cornice/cors.py:90-91 | a set body without `-` lists exactly its characters, one single item each, in order |
| Glob.Translate | cornice/cors.py:90-91 | the translation of `p[i..]` has at most one token per character, and none exactly for the empty rest |
| Glob.CloseBracket | cornice/cors.py:90-91 | the search for the `]` closing a set stops at the first `]` from its start on, or at the end of the pattern when there is none |
| Glob.Match | cornice/cors.py:90-91 | the whole-name match of a translated pattern (`*` any run, `?` any character, a set or its complement one character, a literal itself); without a `*` token every token consumes exactly one character. `MatchLiterals`, `MatchStarLiterals` and `StarMatchesAll` pin it down on literals, on `*` followed by literals and on `*` alone |
| Glob.ClassPatternTranslates | cornice/pyramidhook.py:102 | `[b]` translates into the single set token of `b`, a leading `]` included |
| Glob.NegatedClassPatternTranslates | cornice/pyramidhook.py:102 | `[!b]` translates into the single complemented set token of `b` |
| Glob.FnMatchCase | cornice/cors.py:90-91 | a pattern without `*`, `?` or `[` matches a name exactly when the name equals it |
| Glob.QuestionPrefixMatches | cornice/cors.py:90-91 | `?` followed by plain text matches exactly the names one character longer than the text that end with it |
| Glob.ClassPatternMatches | cornice/pyramidhook.py:102-103 | a one-character name matches `[b]` exactly when the character is in the set `b` describes, for a set body not starting with `!`, a leading `]` included |
| Glob.NegatedClassPatternMatches | cornice/pyramidhook.py:102-103 | a one-character name matches `[!b]` exactly when the character is not in the set `b` describes |
| Glob.StarPrefixMatchesSuffixes | cornice/cors.py:90-91 | `*` followed by plain text matches exactly the names that end with that text |
| Glob.StarPatternMatchesEverything | cornice/cors.py:90-91 | the pattern `*` matches every origin |
| Glob.SubdomainExample | cornice/cors.py:90-91 | `*.example.com` matches `a.example.com` but not the bare `example.com` |
| Glob.CharClassExample | cornice/pyramidhook.py:102-103 | the set `[a-c]` matches a character inside the range and rejects one outside it |
| Glob.NegatedClassExample | cornice/pyramidhook.py:102-103 | the set `[!a-c]` matches a character outside the range and rejects one inside it |
| Http.Get | cornice/cors.py:18-25 | `headers.get(name)` gives the stored value exactly when the name is present, and `None` otherwise |
| Http.Truthy | cornice/cors.py:21-30 | a looked-up header value is true exactly when it is present and non-empty |
| Http.Errors.Add | cornice/cors.py:22-23 | `request.errors.add` appends exactly one (location, name, description) entry and keeps the earlier ones |
| Cors.MissingHeaderErrors | cornice/cors.py:21-28 | no error exactly when both mandatory headers are present and non-empty; at most two, each "this header is mandatory" under the view's location; one names `Origin` exactly when it is missing, one names the request method header exactly when that is missing |
| Cors.RequestedHeaders | cornice/cors.py:33-37 | the requested header names are non-empty and hold no whitespace; there are none when the header is absent or empty, and otherwise together they are its text minus whitespace |
| Cors.MethodErrors | cornice/cors.py:39-41 | one error for the request method header exactly when the method is not supported, none otherwise |
| Cors.HeaderErrors | cornice/cors.py:43-46 | no error exactly when every requested name is supported; never more errors than requested names; each names the request headers header under the view's location |
| Cors.OriginErrors | cornice/pyramidhook.py:102-104 | one `Origin` error exactly when no supported pattern glob-matches the origin, none otherwise |
| Cors.PreflightErrors | cornice/cors.py:21-46 | every error is located `"header"`; one or two when a mandatory header is missing; otherwise at most one for the method and one per requested header |
| Cors.UnsupportedCount | cornice/cors.py:43-46 | a name is reported as often as it was requested when unsupported, and never when supported |
| Cors.UnsupportedMembers | cornice/cors.py:43-46 | every reported name was requested and is not supported |
| Cors.UnsupportedEmptyIff | cornice/cors.py:43-46 | nothing is reported exactly when every requested name is supported |
| Cors.UnsupportedCounts | cornice/cors.py:43-46 | the offending header names are exactly the requested names the service does not support, each as many times as it was requested, and no supported name is among them |
| Cors.RecordHeaderErrors | cornice/cors.py:43-46 | the loop over requested headers appends one "not allowed" error per unsupported name, in request order, after the existing errors |
| Cors.MatchesAny | cornice/cors.py:90-91 | the `any(...)` over patterns holds exactly when some pattern glob-matches the name |
| Cors.EffectiveMethod | cornice/cors.py:62-72 | any verb other than `OPTIONS` is returned unchanged; for `OPTIONS`, the result is the announced method when that header is present and `OPTIONS` when it is absent |
| Cors.PreflightHeaders | cornice/cors.py:48-56 | past the early return: Allow-Headers is the `", "`-join of the supported headers; Allow-Methods is the `","`-join of the methods; Max-Age is `str` of the configured age when there is one and untouched otherwise; every other header is unchanged |
| Cors.RecordMissingHeaders | cornice/cors.py:18-28 | one "this header is mandatory" error for each absent or empty mandatory header, `Origin` first, and the two looked-up values |
| Cors.PreflightErrorsAtEarlyReturn | cornice/cors.py:21-31 | when a mandatory header is missing, the preflight records only the missing-header errors |
| Cors.PreflightErrorsPastHeaders | cornice/cors.py:30-46 | past the early return, the recorded errors are the method error, if any, followed by the header errors |
| Cors.WritePreflightHeaders | cornice/cors.py:48-56 | the header writes produce exactly the headers `PreflightHeaders` describes |
| Cors.RecordPreflightErrors | cornice/cors.py:18-46 | every check's errors are appended in source order, and the method reports whether the view goes past the early return |
| Cors.PreflightView | cornice/cors.py:16-58 | errors grow by exactly the preflight errors. With both mandatory headers the result is `"ok"` and the response headers are the preflight headers; otherwise the result is `None` and no header is written |
| Cors.PreflightWithoutBothHeaders | cornice/cors.py:21-31 | with neither mandatory header, exactly two errors are recorded, `Origin` then `Access-Control-Request-Method`, and the view stops |
| Cors.PreflightWithoutOneHeader | cornice/cors.py:21-31 | with exactly one mandatory header missing, exactly one error, naming the missing header, and the view stops |
| Cors.PreflightErrorsPastEarlyReturn | cornice/cors.py:33-46 | past the early return: at most one method error, placed first; then one error per unsupported requested header, in request order; the error count is their total |
| Cors.PreflightCleanIff | cornice/cors.py:21-46 | the preflight records no error exactly when both mandatory headers are present, the method is supported and every requested header is supported |
| Cors.PreflightMaxAgeReadsBack | cornice/cors.py:54-56 | the written Max-Age parses back to the configured number of seconds |
| Cors.AllowMethodsReadsBack | cornice/cors.py:51-52 | splitting the written Allow-Methods on commas gives back the supported methods |
| Cors.CorsValidator | cornice/cors.py:82-95 | for an absent or empty `Origin`, nothing is recorded or written. Otherwise a match with a pattern for the effective method echoes the origin in Allow-Origin and records nothing; a miss records one "not allowed" error and writes nothing |
| Cors.FilterHeaders | cornice/cors.py:107-119 | an existing Allow-Credentials is never overwritten; an absent one becomes `"true"` exactly when credentials are supported for the effective method; Expose-Headers is set for non-`OPTIONS` verbs with supported headers and untouched otherwise; nothing else changes |
| Cors.FilterIdempotent | cornice/cors.py:110-112 | filtering an already filtered response changes nothing |
| Cors.CorsFilter | cornice/cors.py:107-121 | the filter returns the same response, whose headers become those `FilterHeaders` describes |
| PyramidHook.OptionsErrors | cornice/pyramidhook.py:83-116 | every error is located `"headers"`; one or two when a mandatory header is missing; otherwise at most one for the origin, one for the method and one per requested header |
| PyramidHook.OptionsHeaders | cornice/pyramidhook.py:102-121 | past the early return: Allow-Origin is the origin exactly when it matches a supported pattern, otherwise untouched; both allow-lists are `","`-joined; every other header is unchanged |
| PyramidHook.OptionsKeepsMaxAge | cornice/pyramidhook.py:118-122 | unlike the newer view, the older view never writes `Access-Control-Max-Age`: whatever the response held stays |
| PyramidHook.OptionsErrorsAtEarlyReturn | cornice/pyramidhook.py:83-94 | when a mandatory header is missing, the older view records only the missing-header errors |
| PyramidHook.OptionsErrorsPastHeaders | cornice/pyramidhook.py:96-116 | past the early return, the origin error, the method error and the header errors come in that order |
| PyramidHook.RecordOptionsErrors | cornice/pyramidhook.py:83-116 | every check's errors are appended in source order, and the method reports whether the view goes past the early return |
| PyramidHook.OptionsView | cornice/pyramidhook.py:82-122 | errors grow by exactly the older view's errors. With both mandatory headers the result is `"ok"` and the headers are `OptionsHeaders`; otherwise the result is `None` and no header is written |
| PyramidHook.OptionsViewMirrorsPreflight | cornice/pyramidhook.py:82-116 | the older view records the newer view's errors under location `"headers"`, with the origin check's error, if any, just before the method and header errors |
| PyramidHook.OptionsCleanIff | cornice/pyramidhook.py:83-116 | the older view records no error exactly when both mandatory headers are present, the origin matches, and the method and every requested header are supported |
| PyramidHook.OptionsWrongOriginOnly | cornice/pyramidhook.py:102-104 | a foreign origin with an otherwise acceptable request yields exactly one error, `"<origin> not allowed"` |
| PyramidHook.OptionsAllowListsReadBack | cornice/pyramidhook.py:118-121 | splitting either written allow-list on commas gives back the supported methods or headers |
| PyramidHook.AppendMissing | cornice/pyramidhook.py:57-60 | the merged list starts with the previous list and is at most as much longer as there are offered types |
| PyramidHook.AppendMissingSpec | cornice/pyramidhook.py:57-60 | merging keeps the previous list as a prefix; it appends only offered types that were not already there, never the same one twice; every offered type ends up in the list |
| PyramidHook.AppendMissingPresent | cornice/pyramidhook.py:57-60 | merging types that are all present already leaves the list unchanged |
| PyramidHook.AppendMissingIdempotent | cornice/pyramidhook.py:57-60 | merging the same types a second time changes nothing |
| PyramidHook.MergeAcceptable | cornice/pyramidhook.py:57-60 | the append-if-absent loop computes the merge above |
| PyramidHook.FallbackView | cornice/pyramidhook.py:41-71 | the loop over definitions raises exactly what `Fallback` specifies |
| PyramidHook.ScanDefinitions | cornice/pyramidhook.py:50-71 | the scan over definitions never answers 405; a 406 carries a list content negotiation rejects; a predicate mismatch names the service |
| PyramidHook.Fallback | cornice/pyramidhook.py:41-71 | the answer is 405 exactly for a method with no definition, and its `allow` list is the defined methods; a 406 carries a list content negotiation rejects; a predicate mismatch names the service |
| PyramidHook.ScanNotAcceptable | cornice/pyramidhook.py:51-67 | a 406 is raised only for a list that content negotiation rejects, and only after a definition of the request's method that declares `accept` |
| PyramidHook.ScanWithoutAccept | cornice/pyramidhook.py:51-71 | without a definition of the request's method that declares `accept`, the fallback ends in a predicate mismatch for the service |

## Left out

- `tween_factory`, `wrap_request`, `register_service_views` and `make_route_factory`: Pyramid plumbing (WSGI tween chaining, attribute injection, view and route registration), not part of the CORS decisions.
- `match_accept_header` and `request.accept.best_match`: WebOb content negotiation is a library call. It is the uninterpreted predicate `Request.bestMatch`.
- `json.dumps` and the raised `HTTPMethodNotAllowed`, `HTTPNotAcceptable` and `PredicateMismatch`. `FallbackView` returns the response it would raise; the JSON body and content type are not modelled.
- The policy accessors of cornice/service.py (`cors_origins_for`, `cors_max_age_for`, `cors_support_credentials`, `get_acceptable` and the policy lists) are given inputs in `Policy.Service`. cornice/service.py is not part of this model, and neither is the unknown-method case of those accessors.
- Case-insensitive header lookup of WebOb header dictionaries: header names are map keys in their canonical spelling.
- Glob.ClassItems: a reversed range such as `[z-a]` raises an error in Python 2.7's regular-expression compiler. The model instead reads it as a range that matches nothing.
- Text.SplitWhitespace: only the six ASCII whitespace characters of Python 2 byte strings separate tokens, not Python 3's Unicode whitespace.
- PyramidHook.MergeAcceptable: it returns the merged list instead of extending the caller's list in place.
- PyramidHook.OptionsView: it records all its errors before writing any response header, while the source writes `Access-Control-Allow-Origin` between the origin check and the method check. The errors and the headers live in different objects, so the order cannot be observed.
- Cors.FilterHeaders: `request.method is not 'OPTIONS'` is an identity test in the source. It is modelled as string inequality. `request.method` is built at run time, so whether the identity test agrees with `!=` depends on whether that string is interned.
