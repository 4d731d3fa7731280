/**
 * The decision logic of cornice/pyramidhook.py: the older preflight view
 * `_options_view` (the same checks as the preflight view of
 * cornice/cors.py, with the origin check done inline against the service's
 * supported origins, both allow-lists joined with a bare comma and no
 * `Access-Control-Max-Age` written), and the
 * part of the fallback view that picks the error response: 405 for a method
 * with no definition, 406 with the list of acceptable content types when
 * content negotiation fails, and a predicate mismatch otherwise.
 */
module PyramidHook {
  import opened Optional
  import opened Text
  import opened Http
  import opened Policy
  import opened Cors

  // --------------------------------------------------------- options view

  /** The errors `_options_view` records, in order: all located
      `"headers"`; one or two when a mandatory header is missing, otherwise
      at most one per check (the origin, the method, then each requested
      header). */
  function OptionsErrors(service: Service, headers: Headers): (errs: seq<Error>)
    ensures forall k :: 0 <= k < |errs| ==> errs[k].location == "headers"
    ensures !HasPreflightHeaders(headers) ==> 1 <= |errs| <= 2
    ensures HasPreflightHeaders(headers) ==> |errs| <= 2 + |RequestedHeaders(headers)|
  {
    MissingHeaderErrors("headers", headers)
    + if HasPreflightHeaders(headers) then
        OriginErrors("headers", headers[ORIGIN], service.corsSupportedOrigins)
        + MethodErrors("headers", headers[REQUEST_METHOD], service.corsSupportedMethods)
        + HeaderErrors("headers", RequestedHeaders(headers), service.corsSupportedHeaders)
      else []
  }

  /** The response headers once `_options_view` is past its early return:
      the origin is echoed exactly when it matches a supported pattern, the
      two allow-lists are always written, nothing else changes. */
  function OptionsHeaders(service: Service, origin: string, before: Headers): (after: Headers)
    ensures MatchesAny(origin, service.corsSupportedOrigins) ==> Get(after, ALLOW_ORIGIN) == Some(origin)
    ensures !MatchesAny(origin, service.corsSupportedOrigins) ==> Get(after, ALLOW_ORIGIN) == Get(before, ALLOW_ORIGIN)
    ensures Get(after, ALLOW_METHODS) == Some(Join(",", service.corsSupportedMethods))
    ensures Get(after, ALLOW_HEADERS) == Some(Join(",", service.corsSupportedHeaders))
    ensures forall name :: name != ALLOW_ORIGIN && name != ALLOW_METHODS && name != ALLOW_HEADERS ==>
              Get(after, name) == Get(before, name)
  {
    var withOrigin :=
      if MatchesAny(origin, service.corsSupportedOrigins) then before[ALLOW_ORIGIN := origin] else before;
    withOrigin[ALLOW_METHODS := Join(",", service.corsSupportedMethods)]
              [ALLOW_HEADERS := Join(",", service.corsSupportedHeaders)]
  }

  /** The checks of `_options_view`: records every failed one in `errors`,
      stopping after the mandatory headers when one of them is missing, and
      says whether the view goes past that early return. */
  method RecordOptionsErrors(service: Service, errors: Errors, headers: Headers) returns (passed: bool)
    modifies errors
    ensures passed == HasPreflightHeaders(headers)
    ensures errors.entries == old(errors.entries) + OptionsErrors(service, headers)
  {
    var origin, requestedMethod := RecordMissingHeaders(errors, "headers", headers);
    if !(Truthy(requestedMethod) && Truthy(origin)) {
      OptionsErrorsAtEarlyReturn(service, headers);
      return false;
    }
    ghost var checked := errors.entries;
    assert MissingHeaderErrors("headers", headers) == [];
    assert checked == old(errors.entries);
    OptionsErrorsPastHeaders(service, headers);

    var requestedHeaders: seq<string> := [];
    var raw := Get(headers, REQUEST_HEADERS);
    if Truthy(raw) {
      requestedHeaders := SplitWhitespace(raw.value);
    }

    var originErrors := OriginErrors("headers", origin.value, service.corsSupportedOrigins);
    if !MatchesAny(origin.value, service.corsSupportedOrigins) {
      errors.Add("headers", ORIGIN, origin.value + " not allowed");
    }
    assert errors.entries == checked + originErrors;

    var methodErrors := MethodErrors("headers", requestedMethod.value, service.corsSupportedMethods);
    if requestedMethod.value !in service.corsSupportedMethods {
      errors.Add("headers", REQUEST_METHOD, METHOD_NOT_ALLOWED);
    }
    assert errors.entries == checked + originErrors + methodErrors;

    RecordHeaderErrors(errors, "headers", requestedHeaders, service.corsSupportedHeaders);
    AppendAssoc(checked, originErrors, methodErrors);
    AppendAssoc(checked, originErrors + methodErrors,
                HeaderErrors("headers", requestedHeaders, service.corsSupportedHeaders));
    return true;
  }

  /** `_options_view`: the same algorithm as the newer preflight view, with
      the origin check inline and no maximum age. The errors and the
      response headers live in different objects, so recording all errors
      before writing the headers is indistinguishable from the source's
      interleaving. */
  method OptionsView(service: Service, request: Request) returns (result: Option<string>)
    modifies request.errors, request.response
    ensures request.errors.entries == old(request.errors.entries) + OptionsErrors(service, request.headers)
    ensures HasPreflightHeaders(request.headers) ==>
              result == Some("ok")
              && request.response.headers
                 == OptionsHeaders(service, request.headers[ORIGIN], old(request.response.headers))
    ensures !HasPreflightHeaders(request.headers) ==>
              result == None && request.response.headers == old(request.response.headers)
  {
    var passed := RecordOptionsErrors(service, request.errors, request.headers);
    if !passed {
      return None;
    }
    var origin := request.headers[ORIGIN];
    if MatchesAny(origin, service.corsSupportedOrigins) {
      request.response.headers := request.response.headers[ALLOW_ORIGIN := origin];
    }
    request.response.headers := request.response.headers[ALLOW_METHODS := Join(",", service.corsSupportedMethods)];
    request.response.headers := request.response.headers[ALLOW_HEADERS := Join(",", service.corsSupportedHeaders)];
    return Some("ok");
  }

  /** Unlike the newer view, the older one never writes a maximum age. */
  lemma OptionsKeepsMaxAge(service: Service, origin: string, before: Headers)
    ensures Get(OptionsHeaders(service, origin, before), MAX_AGE) == Get(before, MAX_AGE)
  {
  }

  /** Before the early return only the missing-header errors are recorded. */
  lemma OptionsErrorsAtEarlyReturn(service: Service, headers: Headers)
    requires !HasPreflightHeaders(headers)
    ensures OptionsErrors(service, headers) == MissingHeaderErrors("headers", headers)
  {
  }

  /** Once past the early return, the origin, method and header checks add
      their errors, in that order. */
  lemma OptionsErrorsPastHeaders(service: Service, headers: Headers)
    requires HasPreflightHeaders(headers)
    ensures OptionsErrors(service, headers)
         == OriginErrors("headers", headers[ORIGIN], service.corsSupportedOrigins)
            + MethodErrors("headers", headers[REQUEST_METHOD], service.corsSupportedMethods)
            + HeaderErrors("headers", RequestedHeaders(headers), service.corsSupportedHeaders)
  {
    assert MissingHeaderErrors("headers", headers) == [];
  }

  /** The same errors reported under another location. */
  function Relocated(location: string, errors: seq<Error>): (moved: seq<Error>)
    ensures |moved| == |errors|
    ensures forall k :: 0 <= k < |errors| ==>
              moved[k].location == location && moved[k].name == errors[k].name
              && moved[k].description == errors[k].description
  {
    seq(|errors|, k requires 0 <= k < |errors| => errors[k].(location := location))
  }

  lemma RelocatedAppend(location: string, a: seq<Error>, b: seq<Error>)
    ensures Relocated(location, a + b) == Relocated(location, a) + Relocated(location, b)
  {
  }

  /** The older view records what the newer one does, under the location
      "headers" instead of "header", with the origin check's error, if any,
      placed before the method and header errors. */
  lemma OptionsViewMirrorsPreflight(service: Service, headers: Headers)
    ensures OptionsErrors(service, headers)
         == Relocated("headers",
              (if HasPreflightHeaders(headers)
               then OriginErrors("header", headers[ORIGIN], service.corsSupportedOrigins) else [])
              + PreflightErrors(service, headers))
  {
    var missing := MissingHeaderErrors("header", headers);
    assert Relocated("headers", missing) == MissingHeaderErrors("headers", headers);
    if HasPreflightHeaders(headers) {
      var origin := OriginErrors("header", headers[ORIGIN], service.corsSupportedOrigins);
      var methodErrs := MethodErrors("header", headers[REQUEST_METHOD], service.corsSupportedMethods);
      var bad := HeaderErrors("header", RequestedHeaders(headers), service.corsSupportedHeaders);
      PreflightErrorsPastHeaders(service, headers);
      OptionsErrorsPastHeaders(service, headers);
      RelocatedAppend("headers", origin, methodErrs + bad);
      RelocatedAppend("headers", methodErrs, bad);
      assert Relocated("headers", origin)
          == OriginErrors("headers", headers[ORIGIN], service.corsSupportedOrigins);
      assert Relocated("headers", methodErrs)
          == MethodErrors("headers", headers[REQUEST_METHOD], service.corsSupportedMethods);
      assert Relocated("headers", bad)
          == HeaderErrors("headers", RequestedHeaders(headers), service.corsSupportedHeaders);
      AppendAssoc(Relocated("headers", origin), Relocated("headers", methodErrs), Relocated("headers", bad));
    } else {
      PreflightErrorsAtEarlyReturn(service, headers);
      OptionsErrorsAtEarlyReturn(service, headers);
      assert [] + missing == missing;
    }
  }

  /** The older view records nothing exactly when both mandatory headers
      are there, the origin matches a supported pattern, and the method and
      every requested header are supported. */
  lemma OptionsCleanIff(service: Service, headers: Headers)
    ensures OptionsErrors(service, headers) == [] <==>
              && HasPreflightHeaders(headers)
              && MatchesAny(headers[ORIGIN], service.corsSupportedOrigins)
              && headers[REQUEST_METHOD] in service.corsSupportedMethods
              && forall name :: name in RequestedHeaders(headers) ==> name in service.corsSupportedHeaders
  {
    OptionsViewMirrorsPreflight(service, headers);
    PreflightCleanIff(service, headers);
  }

  /** An origin matching no supported pattern, with the method and every
      requested header supported, costs exactly one error naming it. */
  lemma OptionsWrongOriginOnly(service: Service, headers: Headers)
    requires HasPreflightHeaders(headers)
    requires !MatchesAny(headers[ORIGIN], service.corsSupportedOrigins)
    requires headers[REQUEST_METHOD] in service.corsSupportedMethods
    requires forall name :: name in RequestedHeaders(headers) ==> name in service.corsSupportedHeaders
    ensures OptionsErrors(service, headers) == [Error("headers", ORIGIN, headers[ORIGIN] + " not allowed")]
  {
    var requested := RequestedHeaders(headers);
    UnsupportedCounts(requested, service.corsSupportedHeaders);
    assert Unsupported(requested, service.corsSupportedHeaders) == [];
    OptionsErrorsPastHeaders(service, headers);
  }

  /** Splitting the written allow-lists on commas, as a client does, gives
      back the supported methods and headers. */
  lemma OptionsAllowListsReadBack(service: Service, origin: string, before: Headers)
    requires |service.corsSupportedMethods| >= 1 && |service.corsSupportedHeaders| >= 1
    requires forall k :: 0 <= k < |service.corsSupportedMethods| ==> ',' !in service.corsSupportedMethods[k]
    requires forall k :: 0 <= k < |service.corsSupportedHeaders| ==> ',' !in service.corsSupportedHeaders[k]
    ensures var after := OptionsHeaders(service, origin, before);
            && SplitOn(',', after[ALLOW_METHODS]) == service.corsSupportedMethods
            && SplitOn(',', after[ALLOW_HEADERS]) == service.corsSupportedHeaders
  {
    SplitOnJoin(',', service.corsSupportedMethods);
    SplitOnJoin(',', service.corsSupportedHeaders);
  }

  // -------------------------------------------------------- fallback view

  /** The error response `_fallback_view` raises. */
  datatype FallbackResult =
    | MethodNotAllowed(allow: seq<string>)
    | NotAcceptable(acceptable: seq<string>)
    | PredicateMismatch(serviceName: string)

  /** `acceptable` with each of `contentTypes` appended, in order, unless it
      is already there. */
  function AppendMissing(acceptable: seq<string>, contentTypes: seq<string>): (merged: seq<string>)
    ensures |acceptable| <= |merged| <= |acceptable| + |contentTypes|
    ensures merged[..|acceptable|] == acceptable
    decreases |contentTypes|
  {
    if contentTypes == [] then acceptable
    else
      var next := if contentTypes[0] in acceptable then acceptable else acceptable + [contentTypes[0]];
      var merged := AppendMissing(next, contentTypes[1..]);
      assert merged[..|acceptable|] == merged[..|next|][..|acceptable|];
      merged
  }

  /** Merging keeps the old list as a prefix, appends only content types that
      were missing, never the same one twice, and leaves every offered
      content type in the list. */
  lemma {:induction false} AppendMissingSpec(acceptable: seq<string>, contentTypes: seq<string>)
    ensures var merged := AppendMissing(acceptable, contentTypes);
            && |acceptable| <= |merged| && merged[..|acceptable|] == acceptable
            && (forall k :: |acceptable| <= k < |merged| ==> merged[k] in contentTypes && merged[k] !in acceptable)
            && (forall i, j :: |acceptable| <= i < j < |merged| ==> merged[i] != merged[j])
            && (forall c :: c in contentTypes ==> c in merged)
    decreases |contentTypes|
  {
    if contentTypes != [] {
      var c := contentTypes[0];
      var next := if c in acceptable then acceptable else acceptable + [c];
      var merged := AppendMissing(next, contentTypes[1..]);
      AppendMissingSpec(next, contentTypes[1..]);
      assert c in merged by {
        if c in acceptable {
          var k :| 0 <= k < |acceptable| && acceptable[k] == c;
          assert merged[k] == c;
        } else {
          assert merged[|acceptable|] == next[|acceptable|] == c;
        }
      }
    }
  }

  /** Merging content types that are all there already changes nothing. */
  lemma {:induction false} AppendMissingPresent(acceptable: seq<string>, contentTypes: seq<string>)
    requires forall c :: c in contentTypes ==> c in acceptable
    ensures AppendMissing(acceptable, contentTypes) == acceptable
    decreases |contentTypes|
  {
    if contentTypes != [] {
      assert contentTypes[0] in contentTypes;
      AppendMissingPresent(acceptable, contentTypes[1..]);
    }
  }

  /** Merging the same content types a second time changes nothing. */
  lemma AppendMissingIdempotent(acceptable: seq<string>, contentTypes: seq<string>)
    ensures AppendMissing(AppendMissing(acceptable, contentTypes), contentTypes)
         == AppendMissing(acceptable, contentTypes)
  {
    AppendMissingSpec(acceptable, contentTypes);
    AppendMissingPresent(AppendMissing(acceptable, contentTypes), contentTypes);
  }

  /** The inner loop of `_fallback_view` that merges
      `request.info['acceptable']` into `acceptable`. */
  method MergeAcceptable(acceptable: seq<string>, contentTypes: seq<string>) returns (merged: seq<string>)
    ensures merged == AppendMissing(acceptable, contentTypes)
  {
    merged := acceptable;
    for i := 0 to |contentTypes|
      invariant AppendMissing(merged, contentTypes[i..]) == AppendMissing(acceptable, contentTypes)
    {
      var contentType := contentTypes[i];
      assert contentTypes[i..][0] == contentType && contentTypes[i..][1..] == contentTypes[i + 1..];
      if contentType !in merged {
        merged := merged + [contentType];
      }
    }
  }

  /** What the scan over `service.definitions` raises, given the content
      types gathered so far: never a 405, a 406 only with a list the client
      accepts nothing of, and otherwise the service's predicate mismatch. */
  function ScanDefinitions(service: Service, verb: string, info: Option<seq<string>>,
                           bestMatch: seq<string> -> bool,
                           definitions: seq<Definition>, acceptable: seq<string>): (result: FallbackResult)
    ensures !result.MethodNotAllowed?
    ensures result.NotAcceptable? ==> !bestMatch(result.acceptable)
    ensures result.PredicateMismatch? ==> result.serviceName == service.name
    decreases |definitions|
  {
    if definitions == [] then PredicateMismatch(service.name)
    else
      var d := definitions[0];
      if d.verb != verb || !d.hasAccept then
        ScanDefinitions(service, verb, info, bestMatch, definitions[1..], acceptable)
      else
        var extended := acceptable + service.acceptableFor(d.verb);
        var merged := if info.Some? then AppendMissing(extended, info.value) else extended;
        if !bestMatch(merged) then NotAcceptable(merged)
        else ScanDefinitions(service, verb, info, bestMatch, definitions[1..], merged)
  }

  /** What `_fallback_view` raises for a request with method `verb`,
      `request.info['acceptable']` equal to `info`, and content negotiation
      `bestMatch`: a 405 allowing the defined methods exactly when `verb` is
      not one of them, a 406 only with a list the client accepts nothing of,
      and otherwise the service's predicate mismatch. */
  function Fallback(service: Service, verb: string, info: Option<seq<string>>,
                    bestMatch: seq<string> -> bool): (result: FallbackResult)
    ensures result.MethodNotAllowed? <==> verb !in service.definedMethods
    ensures result.MethodNotAllowed? ==> result.allow == service.definedMethods
    ensures result.NotAcceptable? ==> !bestMatch(result.acceptable)
    ensures result.PredicateMismatch? ==> result.serviceName == service.name
  {
    if verb !in service.definedMethods then MethodNotAllowed(service.definedMethods)
    else ScanDefinitions(service, verb, info, bestMatch, service.definitions, [])
  }

  /** `_fallback_view`, up to raising the response it builds. */
  method FallbackView(service: Service, request: Request) returns (result: FallbackResult)
    ensures result == Fallback(service, request.verb, request.acceptable, request.bestMatch)
  {
    if request.verb !in service.definedMethods {
      return MethodNotAllowed(service.definedMethods);
    }
    var acceptable: seq<string> := [];
    var definitions := service.definitions;
    for i := 0 to |definitions|
      invariant ScanDefinitions(service, request.verb, request.acceptable, request.bestMatch, definitions[i..], acceptable)
             == Fallback(service, request.verb, request.acceptable, request.bestMatch)
    {
      var d := definitions[i];
      assert definitions[i..][0] == d && definitions[i..][1..] == definitions[i + 1..];
      if d.verb == request.verb && d.hasAccept {
        acceptable := acceptable + service.acceptableFor(d.verb);
        if request.acceptable.Some? {
          acceptable := MergeAcceptable(acceptable, request.acceptable.value);
        }
        if !request.bestMatch(acceptable) {
          return NotAcceptable(acceptable);
        }
      }
    }
    return PredicateMismatch(service.name);
  }

  /** A 406 is raised only for a list the client accepts nothing of, after a
      definition of the request's method that declares `accept`. */
  lemma {:induction false} ScanNotAcceptable(service: Service, verb: string, info: Option<seq<string>>,
                                             bestMatch: seq<string> -> bool,
                                             definitions: seq<Definition>, acceptable: seq<string>)
    ensures var result := ScanDefinitions(service, verb, info, bestMatch, definitions, acceptable);
            result.NotAcceptable? ==>
              && !bestMatch(result.acceptable)
              && exists k :: 0 <= k < |definitions| && definitions[k].verb == verb && definitions[k].hasAccept
    decreases |definitions|
  {
    if definitions != [] {
      var d := definitions[0];
      var extended := acceptable + service.acceptableFor(d.verb);
      var merged := if info.Some? then AppendMissing(extended, info.value) else extended;
      var next := if d.verb != verb || !d.hasAccept then acceptable else merged;
      ScanNotAcceptable(service, verb, info, bestMatch, definitions[1..], next);
      var result := ScanDefinitions(service, verb, info, bestMatch, definitions, acceptable);
      if result.NotAcceptable? && (d.verb != verb || !d.hasAccept || bestMatch(merged)) {
        var k :| 0 <= k < |definitions[1..]| && definitions[1..][k].verb == verb && definitions[1..][k].hasAccept;
        assert definitions[k + 1] == definitions[1..][k];
      }
    }
  }

  /** Without a definition of the request's method that declares `accept`,
      a defined method falls through to the predicate mismatch. */
  lemma {:induction false} ScanWithoutAccept(service: Service, verb: string, info: Option<seq<string>>,
                                             bestMatch: seq<string> -> bool,
                                             definitions: seq<Definition>, acceptable: seq<string>)
    requires forall k :: 0 <= k < |definitions| ==> definitions[k].verb != verb || !definitions[k].hasAccept
    ensures ScanDefinitions(service, verb, info, bestMatch, definitions, acceptable) == PredicateMismatch(service.name)
    decreases |definitions|
  {
    if definitions != [] {
      assert definitions[0].verb != verb || !definitions[0].hasAccept;
      ScanWithoutAccept(service, verb, info, bestMatch, definitions[1..], acceptable);
    }
  }
}
