/** The request fields the routing core reads and writes (`HttpRequest`). */
module Http {
  import opened Wrappers
  import opened QueryParams

  /** A request method as the network layer reports it; tables are keyed by
      this exact text. */
  type HttpMethod = string

  /** `verb` is the request method (`req.method`). `url` is the raw request target, query string included. `query`,
      `params` and `matchers` are unset until a routing stage fills them. */
  datatype Request = Request(
    url: string,
    verb: HttpMethod,
    query: Option<QueryMap>,
    params: Option<map<string, string>>,
    matchers: Option<seq<string>>)

  /** A request as it arrives: nothing but its method and URL. */
  function Incoming(verb: HttpMethod, url: string): (req: Request)
    ensures req.url == url && req.verb == verb
    ensures req.query.None? && req.params.None? && req.matchers.None?
  {
    Request(url, verb, None, None, None)
  }
}
