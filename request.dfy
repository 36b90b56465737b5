/**
 * The request object the connection handler fills in and rewrites. Parsing the request line
 * and the header lines, and looking up the route, happen in the request parser, which is not
 * part of this model: its results arrive as the values stored in these fields.
 */
module DaemonRequest {
  import opened Common

  /** The handler a route lookup bound to the request. */
  datatype Hook = Hook(routePath: string, routeMethods: set<string>)

  class Request {
    var verb: string
    var path: string
    /** Header names as the parser stores them (looked up in lower case). */
    var headers: map<string, string>
    var cookies: map<string, string>
    var hook: Option<Hook>
    var body: string

    constructor ()
      ensures verb == "" && path == "" && headers == map[] && cookies == map[]
      ensures hook == None && body == ""
    {
      verb := "";
      path := "";
      headers := map[];
      cookies := map[];
      hook := None;
      body := "";
    }
  }
}
