/**
 * The CORS decision engine of cornice/cors.py: the preflight view answering
 * `OPTIONS` (the resource processing model of section 6.2 of the W3C CORS
 * Recommendation), the effective-method rule, the validator that checks
 * `Origin` before a view runs, and the filter that adds credential and
 * exposed-header response headers after it has run. The checks shared with
 * the older preflight view of cornice/pyramidhook.py are defined here too,
 * parameterised by the error location each view reports.
 */
module Cors {
  import opened Optional
  import opened Text
  import opened Glob
  import opened Http
  import opened Policy

  const OPTIONS := "OPTIONS"
  const ORIGIN := "Origin"
  const REQUEST_METHOD := "Access-Control-Request-Method"
  const REQUEST_HEADERS := "Access-Control-Request-Headers"
  const ALLOW_ORIGIN := "Access-Control-Allow-Origin"
  const ALLOW_METHODS := "Access-Control-Allow-Methods"
  const ALLOW_HEADERS := "Access-Control-Allow-Headers"
  const MAX_AGE := "Access-Control-Max-Age"
  const ALLOW_CREDENTIALS := "Access-Control-Allow-Credentials"
  const EXPOSE_HEADERS := "Access-Control-Expose-Headers"

  const MANDATORY := "this header is mandatory"
  const METHOD_NOT_ALLOWED := "Method not allowed"

  // ------------------------------------------------------- shared checks

  /** Both mandatory preflight headers are present and non-empty, so a
      preflight view goes past its early return. */
  predicate HasPreflightHeaders(headers: Headers) {
    Truthy(Get(headers, ORIGIN)) && Truthy(Get(headers, REQUEST_METHOD))
  }

  /** One error per absent or empty mandatory header, `Origin` first: none
      exactly when the view goes past its early return. */
  function MissingHeaderErrors(location: string, headers: Headers): (errs: seq<Error>)
    ensures errs == [] <==> HasPreflightHeaders(headers)
    ensures |errs| <= 2
    ensures Error(location, ORIGIN, MANDATORY) in errs <==> !Truthy(Get(headers, ORIGIN))
    ensures Error(location, REQUEST_METHOD, MANDATORY) in errs <==> !Truthy(Get(headers, REQUEST_METHOD))
    ensures forall k :: 0 <= k < |errs| ==> errs[k].location == location && errs[k].description == MANDATORY
  {
    (if Truthy(Get(headers, ORIGIN)) then [] else [Error(location, ORIGIN, MANDATORY)])
    + (if Truthy(Get(headers, REQUEST_METHOD)) then [] else [Error(location, REQUEST_METHOD, MANDATORY)])
  }

  /** The names listed in `Access-Control-Request-Headers`; none when that
      header is absent or empty. The names are non-empty and hold no
      whitespace, and together they are the header's non-whitespace text. */
  function RequestedHeaders(headers: Headers): (names: seq<string>)
    ensures forall k :: 0 <= k < |names| ==> names[k] != [] && NoSpace(names[k])
    ensures !Truthy(Get(headers, REQUEST_HEADERS)) ==> names == []
    ensures Truthy(Get(headers, REQUEST_HEADERS)) ==> Concat(names) == RemoveSpaces(headers[REQUEST_HEADERS])
  {
    var raw := Get(headers, REQUEST_HEADERS);
    if Truthy(raw) then
      SplitWhitespaceKeepsText(raw.value);
      SplitWhitespace(raw.value)
    else []
  }

  /** The method check: one error exactly when the method is not supported. */
  function MethodErrors(location: string, requestedMethod: string, supported: seq<string>): (errs: seq<Error>)
    ensures errs == [] <==> requestedMethod in supported
    ensures |errs| <= 1
    ensures forall k :: 0 <= k < |errs| ==> errs[k].location == location && errs[k].name == REQUEST_METHOD
  {
    if requestedMethod in supported then [] else [Error(location, REQUEST_METHOD, METHOD_NOT_ALLOWED)]
  }

  function HeaderNotAllowed(location: string, name: string): Error {
    Error(location, REQUEST_HEADERS, "Header \"" + name + "\" not allowed")
  }

  /** The requested names the service does not support, in request order. */
  function Unsupported(requested: seq<string>, supported: seq<string>): (bad: seq<string>)
    ensures |bad| <= |requested|
  {
    if requested == [] then []
    else (if requested[0] in supported then [] else [requested[0]]) + Unsupported(requested[1..], supported)
  }

  /** How often one name is reported: as often as it was requested when it
      is unsupported, never when it is supported. */
  lemma {:induction false} UnsupportedCount(requested: seq<string>, supported: seq<string>, name: string)
    ensures multiset(Unsupported(requested, supported))[name]
         == if name in supported then 0 else multiset(requested)[name]
  {
    if requested != [] {
      var head := if requested[0] in supported then [] else [requested[0]];
      var rest := Unsupported(requested[1..], supported);
      UnsupportedCount(requested[1..], supported, name);
      assert Unsupported(requested, supported) == head + rest;
      assert requested == [requested[0]] + requested[1..];
      assert multiset(requested)[name] == multiset([requested[0]])[name] + multiset(requested[1..])[name];
    }
  }

  /** Every reported name was requested and is unsupported. */
  lemma {:induction false} UnsupportedMembers(requested: seq<string>, supported: seq<string>)
    ensures forall name :: name in Unsupported(requested, supported) ==> name in requested && name !in supported
  {
    if requested != [] {
      var head := if requested[0] in supported then [] else [requested[0]];
      var rest := Unsupported(requested[1..], supported);
      UnsupportedMembers(requested[1..], supported);
      assert Unsupported(requested, supported) == head + rest;
      forall name | name in rest
        ensures name in requested
      {
        assert name in requested[1..];
      }
    }
  }

  /** Each unsupported name appears as often as it was requested, no
      supported name appears, and nothing else does. */
  lemma UnsupportedCounts(requested: seq<string>, supported: seq<string>)
    ensures var bad := Unsupported(requested, supported);
            && (forall k :: 0 <= k < |bad| ==> bad[k] in requested && bad[k] !in supported)
            && (forall name :: name !in supported ==> multiset(bad)[name] == multiset(requested)[name])
            && (forall name :: name in supported ==> multiset(bad)[name] == 0)
  {
    UnsupportedMembers(requested, supported);
    var bad := Unsupported(requested, supported);
    assert forall k :: 0 <= k < |bad| ==> bad[k] in bad;
    forall name
      ensures multiset(Unsupported(requested, supported))[name]
           == if name in supported then 0 else multiset(requested)[name]
    {
      UnsupportedCount(requested, supported, name);
    }
  }

  lemma {:induction false} UnsupportedAppend(a: seq<string>, b: seq<string>, supported: seq<string>)
    ensures Unsupported(a + b, supported) == Unsupported(a, supported) + Unsupported(b, supported)
  {
    if a == [] {
      assert a + b == b;
    } else {
      assert (a + b)[0] == a[0] && (a + b)[1..] == a[1..] + b;
      UnsupportedAppend(a[1..], b, supported);
    }
  }

  /** No requested name is unsupported exactly when every requested name is
      supported. */
  lemma UnsupportedEmptyIff(requested: seq<string>, supported: seq<string>)
    ensures Unsupported(requested, supported) == []
        <==> forall name :: name in requested ==> name in supported
  {
    var bad := Unsupported(requested, supported);
    UnsupportedCounts(requested, supported);
    if bad != [] {
      assert bad[0] in requested && bad[0] !in supported;
    } else {
      forall name | name in requested
        ensures name in supported
      {
        assert multiset(requested)[name] > 0;
      }
    }
  }

  /** One error per unsupported requested name, in request order: none
      exactly when every requested name is supported, and never more than
      there are requested names. */
  function HeaderErrors(location: string, requested: seq<string>, supported: seq<string>): (errs: seq<Error>)
    ensures errs == [] <==> forall name :: name in requested ==> name in supported
    ensures |errs| <= |requested|
    ensures forall k :: 0 <= k < |errs| ==> errs[k].location == location && errs[k].name == REQUEST_HEADERS
  {
    var bad := Unsupported(requested, supported);
    UnsupportedEmptyIff(requested, supported);
    seq(|bad|, k requires 0 <= k < |bad| => HeaderNotAllowed(location, bad[k]))
  }

  /** Checking one more requested name adds at most its own error, at the end. */
  lemma HeaderErrorsSnoc(location: string, requested: seq<string>, name: string, supported: seq<string>)
    ensures HeaderErrors(location, requested + [name], supported)
         == HeaderErrors(location, requested, supported)
            + (if name in supported then [] else [HeaderNotAllowed(location, name)])
  {
    UnsupportedAppend(requested, [name], supported);
    assert Unsupported([name], supported) == (if name in supported then [] else [name]) + Unsupported([], supported);
  }

  /** The loop over the requested header names that both preflight views
      run: one error per name the service does not support, in order. */
  method RecordHeaderErrors(errors: Errors, location: string, requested: seq<string>, supported: seq<string>)
    modifies errors
    ensures errors.entries == old(errors.entries) + HeaderErrors(location, requested, supported)
  {
    for i := 0 to |requested|
      invariant errors.entries == old(errors.entries) + HeaderErrors(location, requested[..i], supported)
    {
      var h := requested[i];
      assert requested[..i + 1] == requested[..i] + [h];
      HeaderErrorsSnoc(location, requested[..i], h, supported);
      if h !in supported {
        errors.Add(location, REQUEST_HEADERS, "Header \"" + h + "\" not allowed");
      }
    }
    assert requested[..|requested|] == requested;
  }

  /** `any(fnmatch(name, p) for p in patterns)`. */
  function MatchesAny(name: string, patterns: seq<string>): (r: bool)
    ensures r <==> exists k :: 0 <= k < |patterns| && FnMatchCase(name, patterns[k])
  {
    if patterns == [] then false
    else FnMatchCase(name, patterns[0]) || MatchesAny(name, patterns[1..])
  }

  /** The origin check: one error exactly when no pattern glob-matches the
      origin. */
  function OriginErrors(location: string, origin: string, patterns: seq<string>): (errs: seq<Error>)
    ensures errs == [] <==> exists k :: 0 <= k < |patterns| && FnMatchCase(origin, patterns[k])
    ensures |errs| <= 1
    ensures forall k :: 0 <= k < |errs| ==> errs[k].location == location && errs[k].name == ORIGIN
  {
    if MatchesAny(origin, patterns) then [] else [Error(location, ORIGIN, origin + " not allowed")]
  }

  // ----------------------------------------------------- effective method

  /** `_get_method`: the announced method of a preflight, or else the verb. */
  function EffectiveMethod(verb: string, headers: Headers): (m: string)
    ensures verb != OPTIONS ==> m == verb
    ensures verb == OPTIONS && REQUEST_METHOD in headers ==> Get(headers, REQUEST_METHOD) == Some(m)
    ensures verb == OPTIONS && REQUEST_METHOD !in headers ==> m == OPTIONS
  {
    if verb == OPTIONS then
      (if REQUEST_METHOD in headers then headers[REQUEST_METHOD] else verb)
    else verb
  }

  // ------------------------------------------------------- preflight view

  /** Errors recorded in stages add up to the errors of all stages. */
  lemma AppendAssoc<T>(a: seq<T>, b: seq<T>, c: seq<T>)
    ensures (a + b) + c == a + (b + c)
  {
  }

  /** The errors `_preflight_view` records, in order: all located
      `"header"`; one or two when a mandatory header is missing, otherwise
      at most one per check (the method, then each requested header). */
  function PreflightErrors(service: Service, headers: Headers): (errs: seq<Error>)
    ensures forall k :: 0 <= k < |errs| ==> errs[k].location == "header"
    ensures !HasPreflightHeaders(headers) ==> 1 <= |errs| <= 2
    ensures HasPreflightHeaders(headers) ==> |errs| <= 1 + |RequestedHeaders(headers)|
  {
    MissingHeaderErrors("header", headers)
    + if HasPreflightHeaders(headers) then
        MethodErrors("header", headers[REQUEST_METHOD], service.corsSupportedMethods)
        + HeaderErrors("header", RequestedHeaders(headers), service.corsSupportedHeaders)
      else []
  }

  /** The response headers once `_preflight_view` is past its early return:
      the allowed headers and methods always, the maximum age when the
      service configures one for the requested method, nothing else. */
  function PreflightHeaders(service: Service, requestedMethod: string, before: Headers): (after: Headers)
    ensures Get(after, ALLOW_HEADERS) == Some(Join(", ", service.corsSupportedHeaders))
    ensures Get(after, ALLOW_METHODS) == Some(Join(",", service.corsSupportedMethods))
    ensures service.corsMaxAgeFor(requestedMethod).Some? ==>
              Get(after, MAX_AGE) == Some(IntToDecimal(service.corsMaxAgeFor(requestedMethod).value))
    ensures service.corsMaxAgeFor(requestedMethod).None? ==> Get(after, MAX_AGE) == Get(before, MAX_AGE)
    ensures forall name :: name != ALLOW_HEADERS && name != ALLOW_METHODS && name != MAX_AGE ==>
              Get(after, name) == Get(before, name)
  {
    var h := before[ALLOW_HEADERS := Join(", ", service.corsSupportedHeaders)]
                   [ALLOW_METHODS := Join(",", service.corsSupportedMethods)];
    match service.corsMaxAgeFor(requestedMethod)
    case None => h
    case Some(age) => h[MAX_AGE := IntToDecimal(age)]
  }

  /** Once past the early return, only the method and header checks add errors. */
  lemma PreflightErrorsPastHeaders(service: Service, headers: Headers)
    requires HasPreflightHeaders(headers)
    ensures PreflightErrors(service, headers)
         == MethodErrors("header", headers[REQUEST_METHOD], service.corsSupportedMethods)
            + HeaderErrors("header", RequestedHeaders(headers), service.corsSupportedHeaders)
  {
    assert MissingHeaderErrors("header", headers) == [];
  }

  /** Before the early return only the missing-header errors are recorded. */
  lemma PreflightErrorsAtEarlyReturn(service: Service, headers: Headers)
    requires !HasPreflightHeaders(headers)
    ensures PreflightErrors(service, headers) == MissingHeaderErrors("header", headers)
  {
  }

  /** The two mandatory-header checks both preflight views open with: an
      error for each of `Origin` and `Access-Control-Request-Method` that is
      absent or empty, and the two looked-up values. */
  method RecordMissingHeaders(errors: Errors, location: string, headers: Headers)
    returns (origin: Option<string>, requestedMethod: Option<string>)
    modifies errors
    ensures origin == Get(headers, ORIGIN) && requestedMethod == Get(headers, REQUEST_METHOD)
    ensures errors.entries == old(errors.entries) + MissingHeaderErrors(location, headers)
  {
    origin := Get(headers, ORIGIN);
    if !Truthy(origin) {
      errors.Add(location, ORIGIN, MANDATORY);
    }
    requestedMethod := Get(headers, REQUEST_METHOD);
    if !Truthy(requestedMethod) {
      errors.Add(location, REQUEST_METHOD, MANDATORY);
    }
  }

  /** The header writes at the end of `_preflight_view`. */
  method WritePreflightHeaders(service: Service, requestedMethod: string, response: Response)
    modifies response
    ensures response.headers == PreflightHeaders(service, requestedMethod, old(response.headers))
  {
    response.headers := response.headers[ALLOW_HEADERS := Join(", ", service.corsSupportedHeaders)];
    response.headers := response.headers[ALLOW_METHODS := Join(",", service.corsSupportedMethods)];
    var maxAge := service.corsMaxAgeFor(requestedMethod);
    if maxAge.Some? {
      response.headers := response.headers[MAX_AGE := IntToDecimal(maxAge.value)];
    }
  }

  /** The checks of `_preflight_view`: records every failed one in
      `errors`, stopping after the mandatory headers when one of them is
      missing, and says whether the view goes past that early return. */
  method RecordPreflightErrors(service: Service, errors: Errors, headers: Headers) returns (passed: bool)
    modifies errors
    ensures passed == HasPreflightHeaders(headers)
    ensures errors.entries == old(errors.entries) + PreflightErrors(service, headers)
  {
    var origin, requestedMethod := RecordMissingHeaders(errors, "header", headers);
    if !(Truthy(requestedMethod) && Truthy(origin)) {
      PreflightErrorsAtEarlyReturn(service, headers);
      return false;
    }
    ghost var checked := errors.entries;
    assert MissingHeaderErrors("header", headers) == [];
    assert checked == old(errors.entries);
    PreflightErrorsPastHeaders(service, headers);

    var requestedHeaders: seq<string> := [];
    var raw := Get(headers, REQUEST_HEADERS);
    if Truthy(raw) {
      requestedHeaders := SplitWhitespace(raw.value);
    }

    var methodErrors := MethodErrors("header", requestedMethod.value, service.corsSupportedMethods);
    if requestedMethod.value !in service.corsSupportedMethods {
      errors.Add("header", REQUEST_METHOD, METHOD_NOT_ALLOWED);
    }
    assert errors.entries == checked + methodErrors;

    RecordHeaderErrors(errors, "header", requestedHeaders, service.corsSupportedHeaders);
    AppendAssoc(checked, methodErrors, HeaderErrors("header", requestedHeaders, service.corsSupportedHeaders));
    return true;
  }

  /** `_preflight_view`: records every failed check in `request.errors`,
      returning early (and writing no header) only when a mandatory header
      is missing; otherwise writes the preflight response headers whatever
      was recorded and returns "ok". */
  method PreflightView(service: Service, request: Request) returns (result: Option<string>)
    modifies request.errors, request.response
    ensures request.errors.entries == old(request.errors.entries) + PreflightErrors(service, request.headers)
    ensures HasPreflightHeaders(request.headers) ==>
              result == Some("ok")
              && request.response.headers
                 == PreflightHeaders(service, request.headers[REQUEST_METHOD], old(request.response.headers))
    ensures !HasPreflightHeaders(request.headers) ==>
              result == None && request.response.headers == old(request.response.headers)
  {
    var passed := RecordPreflightErrors(service, request.errors, request.headers);
    if !passed {
      return None;
    }
    WritePreflightHeaders(service, request.headers[REQUEST_METHOD], request.response);
    return Some("ok");
  }

  // --------------------------------------------------- preflight properties

  /** With neither mandatory header, exactly the two mandatory-header errors. */
  lemma PreflightWithoutBothHeaders(service: Service, headers: Headers)
    requires !Truthy(Get(headers, ORIGIN)) && !Truthy(Get(headers, REQUEST_METHOD))
    ensures !HasPreflightHeaders(headers)
    ensures PreflightErrors(service, headers)
         == [Error("header", ORIGIN, MANDATORY), Error("header", REQUEST_METHOD, MANDATORY)]
  {
  }

  /** With exactly one mandatory header, exactly one error, naming the other. */
  lemma PreflightWithoutOneHeader(service: Service, headers: Headers)
    requires Truthy(Get(headers, ORIGIN)) != Truthy(Get(headers, REQUEST_METHOD))
    ensures !HasPreflightHeaders(headers)
    ensures PreflightErrors(service, headers)
         == [Error("header", if Truthy(Get(headers, ORIGIN)) then REQUEST_METHOD else ORIGIN, MANDATORY)]
  {
  }

  /** Past the early return: at most one method error, first, then one error
      per unsupported requested header, in request order. */
  lemma PreflightErrorsPastEarlyReturn(service: Service, headers: Headers)
    requires HasPreflightHeaders(headers)
    ensures var errors := PreflightErrors(service, headers);
            var methodOk := headers[REQUEST_METHOD] in service.corsSupportedMethods;
            var bad := Unsupported(RequestedHeaders(headers), service.corsSupportedHeaders);
            var offset := if methodOk then 0 else 1;
            && |errors| == offset + |bad|
            && (!methodOk ==> errors[0] == Error("header", REQUEST_METHOD, METHOD_NOT_ALLOWED))
            && forall k :: 0 <= k < |bad| ==> errors[offset + k] == HeaderNotAllowed("header", bad[k])
  {
  }

  /** Preflight records nothing exactly when both mandatory headers are
      there, the method is supported and every requested header is too. */
  lemma PreflightCleanIff(service: Service, headers: Headers)
    ensures PreflightErrors(service, headers) == [] <==>
              && HasPreflightHeaders(headers)
              && headers[REQUEST_METHOD] in service.corsSupportedMethods
              && forall name :: name in RequestedHeaders(headers) ==> name in service.corsSupportedHeaders
  {
    if HasPreflightHeaders(headers) {
      var requested := RequestedHeaders(headers);
      var bad := Unsupported(requested, service.corsSupportedHeaders);
      UnsupportedCounts(requested, service.corsSupportedHeaders);
      if bad != [] {
        assert bad[0] in requested && bad[0] !in service.corsSupportedHeaders;
      } else {
        forall name | name in requested
          ensures name in service.corsSupportedHeaders
        {
          assert multiset(requested)[name] > 0;
        }
      }
    }
  }

  /** The maximum age written by the preflight view reads back as the
      configured number of seconds. */
  lemma PreflightMaxAgeReadsBack(service: Service, requestedMethod: string, before: Headers)
    requires service.corsMaxAgeFor(requestedMethod).Some?
    ensures ParseInt(PreflightHeaders(service, requestedMethod, before)[MAX_AGE])
         == service.corsMaxAgeFor(requestedMethod)
  {
    ParseIntDecimal(service.corsMaxAgeFor(requestedMethod).value);
  }

  /** A client splitting `Access-Control-Allow-Methods` on commas gets the
      supported methods back. */
  lemma AllowMethodsReadsBack(service: Service, requestedMethod: string, before: Headers)
    requires |service.corsSupportedMethods| >= 1
    requires forall k :: 0 <= k < |service.corsSupportedMethods| ==> ',' !in service.corsSupportedMethods[k]
    ensures SplitOn(',', PreflightHeaders(service, requestedMethod, before)[ALLOW_METHODS])
         == service.corsSupportedMethods
  {
    SplitOnJoin(',', service.corsSupportedMethods);
  }

  // ------------------------------------------------------------ validator

  /** `_cors_validator`: when `Origin` is present, checks it against the
      patterns for the effective method; a match echoes the origin in
      `Access-Control-Allow-Origin`, a miss records one error. */
  method CorsValidator(service: Service, request: Request)
    modifies request.errors, request.response
    ensures var origin := Get(request.headers, ORIGIN);
            var patterns := service.corsOriginsFor(EffectiveMethod(request.verb, request.headers));
            && request.errors.entries
               == old(request.errors.entries)
                  + (if Truthy(origin) then OriginErrors("header", origin.value, patterns) else [])
            && request.response.headers
               == if Truthy(origin) && MatchesAny(origin.value, patterns)
                  then old(request.response.headers)[ALLOW_ORIGIN := origin.value]
                  else old(request.response.headers)
  {
    var response := request.response;
    var corsMethod := EffectiveMethod(request.verb, request.headers);
    var origin := Get(request.headers, ORIGIN);
    if Truthy(origin) {
      if !MatchesAny(origin.value, service.corsOriginsFor(corsMethod)) {
        request.errors.Add("header", ORIGIN, origin.value + " not allowed");
      } else {
        response.headers := response.headers[ALLOW_ORIGIN := origin.value];
      }
    }
  }

  // --------------------------------------------------------------- filter

  /** The response headers after `_cors_filter`. */
  function FilterHeaders(service: Service, verb: string, requestHeaders: Headers, before: Headers): (after: Headers)
    ensures ALLOW_CREDENTIALS in before ==> Get(after, ALLOW_CREDENTIALS) == Get(before, ALLOW_CREDENTIALS)
    ensures ALLOW_CREDENTIALS !in before ==>
              Get(after, ALLOW_CREDENTIALS)
              == if service.corsSupportCredentials(EffectiveMethod(verb, requestHeaders)) then Some("true") else None
    ensures verb != OPTIONS && service.corsSupportedHeaders != [] ==>
              Get(after, EXPOSE_HEADERS) == Some(Join(", ", service.corsSupportedHeaders))
    ensures !(verb != OPTIONS && service.corsSupportedHeaders != []) ==>
              Get(after, EXPOSE_HEADERS) == Get(before, EXPOSE_HEADERS)
    ensures forall name :: name != ALLOW_CREDENTIALS && name != EXPOSE_HEADERS ==>
              Get(after, name) == Get(before, name)
  {
    var corsMethod := EffectiveMethod(verb, requestHeaders);
    var withCredentials :=
      if service.corsSupportCredentials(corsMethod) && ALLOW_CREDENTIALS !in before
      then before[ALLOW_CREDENTIALS := "true"] else before;
    if verb != OPTIONS && service.corsSupportedHeaders != []
    then withCredentials[EXPOSE_HEADERS := Join(", ", service.corsSupportedHeaders)]
    else withCredentials
  }

  /** Filtering a filtered response changes nothing more. */
  lemma FilterIdempotent(service: Service, verb: string, requestHeaders: Headers, before: Headers)
    ensures var once := FilterHeaders(service, verb, requestHeaders, before);
            FilterHeaders(service, verb, requestHeaders, once) == once
  {
    var once := FilterHeaders(service, verb, requestHeaders, before);
    var twice := FilterHeaders(service, verb, requestHeaders, once);
    forall name
      ensures Get(twice, name) == Get(once, name)
    {
    }
    assert twice.Keys == once.Keys by {
      forall name ensures name in twice <==> name in once {
        assert Get(twice, name) == Get(once, name);
      }
    }
    forall name | name in once
      ensures twice[name] == once[name]
    {
      assert Get(twice, name) == Get(once, name);
    }
  }

  /** `_cors_filter`: adds the credentials and exposed-headers response
      headers and hands back the same response. */
  method CorsFilter(service: Service, response: Response, request: Request) returns (r: Response)
    modifies response
    ensures r == response
    ensures response.headers == FilterHeaders(service, request.verb, request.headers, old(response.headers))
  {
    var corsMethod := EffectiveMethod(request.verb, request.headers);
    if service.corsSupportCredentials(corsMethod) && ALLOW_CREDENTIALS !in response.headers {
      response.headers := response.headers[ALLOW_CREDENTIALS := "true"];
    }
    if request.verb != OPTIONS {
      var supportedHeaders := service.corsSupportedHeaders;
      if supportedHeaders != [] {
        response.headers := response.headers[EXPOSE_HEADERS := Join(", ", supportedHeaders)];
      }
    }
    return response;
  }
}
