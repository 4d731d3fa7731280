/**
 * The pieces of a Pyramid request and response the CORS code touches: header
 * maps, the request's error list (`request.errors.add(location, name,
 * description)`), the outgoing response whose headers are assigned in place,
 * `request.info['acceptable']`, and `request.accept.best_match`.
 */
module Http {
  import opened Optional

  /** Header names to values; names are taken in their canonical spelling. */
  type Headers = map<string, string>

  /** `headers.get(name)`: the value stored under `name`, or `None` when
      there is none. */
  function Get(headers: Headers, name: string): (value: Option<string>)
    ensures value.Some? <==> name in headers
    ensures name in headers ==> value.value == headers[name]
  {
    if name in headers then Some(headers[name]) else None
  }

  /** Python truthiness of a looked-up header: `None` and the empty string
      are false, every other string is true. */
  function Truthy(value: Option<string>): (r: bool)
    ensures r <==> value != None && value != Some("")
  {
    value.Some? && value.value != ""
  }

  /** One entry of `request.errors`. */
  datatype Error = Error(location: string, name: string, description: string)

  /** The request's error list, which only ever grows. */
  class Errors {
    var entries: seq<Error>

    constructor ()
      ensures entries == []
    {
      entries := [];
    }

    method Add(location: string, name: string, description: string)
      modifies this
      ensures entries == old(entries) + [Error(location, name, description)]
    {
      entries := entries + [Error(location, name, description)];
    }
  }

  class Response {
    var headers: Headers

    constructor (headers: Headers)
      ensures this.headers == headers
    {
      this.headers := headers;
    }
  }

  /** The request; `verb` is `request.method`. */
  class Request {
    const verb: string
    const headers: Headers
    const errors: Errors
    const response: Response
    /** `request.info['acceptable']`, when that key is present. */
    const acceptable: Option<seq<string>>
    /** Whether `request.accept.best_match(offers)` is truthy; the content
        negotiation itself is not modelled. */
    const bestMatch: seq<string> -> bool

    constructor (verb: string, headers: Headers, responseHeaders: Headers,
                 acceptable: Option<seq<string>>, bestMatch: seq<string> -> bool)
      ensures this.verb == verb && this.headers == headers
      ensures this.acceptable == acceptable && this.bestMatch == bestMatch
      ensures fresh(errors) && errors.entries == []
      ensures fresh(response) && response.headers == responseHeaders
    {
      this.verb := verb;
      this.headers := headers;
      this.acceptable := acceptable;
      this.bestMatch := bestMatch;
      errors := new Errors();
      response := new Response(responseHeaders);
    }
  }
}
