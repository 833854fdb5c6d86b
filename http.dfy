/**
 * The parts of `net/http` and `net/url` the policy engine touches: the
 * request it inspects, the response it writes into, `http.Redirect`, and the
 * text of an absolute URL.
 */
module Http {
  import opened Wrappers
  import opened Text

  const StatusMovedPermanently: int := 301
  const StatusTemporaryRedirect: int := 307
  const StatusForbidden: int := 403

  /**
   * The fields of `url.URL` that reach the redirect target. `forceQuery` is
   * set when the text ended in a '?' with nothing after it.
   */
  datatype Url = Url(scheme: string, host: string, path: string, rawQuery: string, forceQuery: bool)

  /**
   * An inbound request: `req.Method`, `req.Host`, `req.URL`, whether `req.TLS`
   * is set, and `req.Header` (a header name maps to its list of values, looked
   * up by exact key).
   */
  datatype Request = Request(httpMethod: string, host: string, url: Url, tls: bool, header: map<string, seq<string>>)

  const RedirectContentType := "text/html; charset=utf-8"

  /** The status a response carries after `WriteHeader(code)`: the first status written wins. */
  function StatusAfterWrite(status: Option<int>, code: int): (r: Option<int>)
    ensures r.Some?
    ensures status.None? ==> r == Some(code)
    ensures status.Some? ==> r == status
  {
    if status.Some? then status else Some(code)
  }

  /** A response under construction: its header map and the status written so far, if any. */
  class Response {
    var header: map<string, seq<string>>
    var status: Option<int>

    constructor (header: map<string, seq<string>>)
      ensures this.header == header && status == None
    {
      this.header := header;
      status := None;
    }

    /** `ResponseWriter.WriteHeader`: a second call leaves the status as it was. */
    method WriteHeader(code: int)
      modifies this
      ensures header == old(header)
      ensures status == StatusAfterWrite(old(status), code)
    {
      if status.None? {
        status := Some(code);
      }
    }
  }

  /**
   * The headers after `http.Redirect`: Location is set to the target, and a
   * GET or HEAD response that had no Content-Type gets the HTML one.
   */
  function RedirectHeaders(header: map<string, seq<string>>, httpMethod: string, location: string): map<string, seq<string>>
  {
    var withLocation := header["Location" := [location]];
    if "Content-Type" !in header && (httpMethod == "GET" || httpMethod == "HEAD") then
      withLocation["Content-Type" := [RedirectContentType]]
    else withLocation
  }

  /**
   * What a redirect does to each header: Location holds the target;
   * Content-Type is kept if present, else set to the HTML type on GET and
   * HEAD, else stays absent; every other name is untouched.
   */
  lemma RedirectHeadersEffect(header: map<string, seq<string>>, httpMethod: string, location: string, key: string)
    ensures var after := RedirectHeaders(header, httpMethod, location);
      && "Location" in after && after["Location"] == [location]
      && (key != "Location" && key != "Content-Type" ==>
            (key in after <==> key in header) && (key in header ==> after[key] == header[key]))
      && ("Content-Type" in after <==> "Content-Type" in header || httpMethod in {"GET", "HEAD"})
      && ("Content-Type" in header ==> after["Content-Type"] == header["Content-Type"])
      && ("Content-Type" !in header && httpMethod in {"GET", "HEAD"} ==>
            after["Content-Type"] == [RedirectContentType])
  {
  }

  /** `http.Redirect`, reduced to its headers and the status. */
  method Redirect(res: Response, req: Request, location: string, code: int)
    modifies res
    ensures res.header == RedirectHeaders(old(res.header), req.httpMethod, location)
    ensures res.status == StatusAfterWrite(old(res.status), code)
  {
    var hadContentType := "Content-Type" in res.header;
    res.header := res.header["Location" := [location]];
    if !hadContentType && (req.httpMethod == "GET" || req.httpMethod == "HEAD") {
      res.header := res.header["Content-Type" := [RedirectContentType]];
    }
    res.WriteHeader(code);
  }

  /**
   * `url.URL.String()` for a URL with a scheme and no opaque part, user,
   * fragment or escaping: the scheme and ':', then "//" and the host when
   * there is a host or a path, then the path, then the query.
   */
  function UrlString(u: Url): string
  {
    u.scheme + ":" + Authority(u) + PathText(u) + QuerySuffix(u.rawQuery, u.forceQuery)
  }

  /** "//" and the host, written only when the URL has a host or a path. */
  function Authority(u: Url): string
  {
    if |u.host| > 0 || |u.path| > 0 then "//" + u.host else ""
  }

  /** The path, with a '/' put in front when it follows a host and does not start with one. */
  function PathText(u: Url): string
  {
    if |u.path| > 0 && u.path[0] != '/' && |u.host| > 0 then "/" + u.path else u.path
  }

  /** The query suffix of a URL's text: '?' and the raw query when there is one or ForceQuery is set, else nothing. */
  function QuerySuffix(rawQuery: string, forceQuery: bool): string
  {
    if forceQuery || |rawQuery| > 0 then "?" + rawQuery else ""
  }

  /** Splits "host/path?query" at the first '/' or '?' into the host and the rest. */
  function SplitHost(rest: string): (string, string)
  {
    var h := IndexOfAny(rest, {'/', '?'});
    if h == -1 then (rest, "") else (rest[..h], rest[h..])
  }

  /** After the scheme: the host and the rest when the text goes on with "//", else no host. */
  function SplitAuthority(rest: string): (string, string)
  {
    if |rest| >= 2 && rest[..2] == "//" then SplitHost(rest[2..]) else ("", rest)
  }

  /**
   * Splits "/path?query" at the first '?' into the path, the query, and
   * whether that '?' is the last character (ForceQuery).
   */
  function SplitQuery(tail: string): (string, string, bool)
  {
    var q := IndexByte(tail, '?');
    if q == -1 then (tail, "", false) else (tail[..q], tail[q + 1..], q + 1 == |tail|)
  }

  /**
   * Reads an absolute URL back: the scheme up to the first ':'; then, after
   * "//", the host up to the first '/' or '?'; the path up to the first '?';
   * the query after it.
   */
  function ParseUrl(s: string): Option<Url>
  {
    var k := IndexByte(s, ':');
    if k == -1 then None
    else
      var (host, tail) := SplitAuthority(s[k + 1..]);
      var (path, query, force) := SplitQuery(tail);
      Some(Url(s[..k], host, path, query, force))
  }

  /**
   * A URL whose parts cannot be confused with their delimiters, with ForceQuery
   * set only for an empty query, as `url.Parse` leaves it.
   */
  predicate WellDelimited(u: Url)
  {
    && ':' !in u.scheme
    && '/' !in u.host && '?' !in u.host
    && '?' !in u.path && (u.path == "" || u.path[0] == '/')
    && (u.forceQuery ==> u.rawQuery == "")
  }

  lemma QueryMarkAfterPath(path: string, rawQuery: string, forceQuery: bool)
    requires '?' !in path && (forceQuery || |rawQuery| > 0)
    ensures IndexByte(path + QuerySuffix(rawQuery, forceQuery), '?') == |path|
  {
    var tail := path + QuerySuffix(rawQuery, forceQuery);
    assert tail[..|path|] == path;
    assert tail[|path|] == '?';
    IndexByteAt(tail, '?', |path|);
  }

  lemma SplitQueryOf(path: string, rawQuery: string, forceQuery: bool)
    requires '?' !in path && (forceQuery ==> rawQuery == "")
    ensures SplitQuery(path + QuerySuffix(rawQuery, forceQuery)) == (path, rawQuery, forceQuery)
  {
    var tail := path + QuerySuffix(rawQuery, forceQuery);
    if forceQuery || |rawQuery| > 0 {
      assert tail == path + "?" + rawQuery;
      QueryMarkAfterPath(path, rawQuery, forceQuery);
      assert tail[..|path|] == path;
      assert tail[|path| + 1..] == rawQuery;
      assert |path| + 1 == |tail| <==> forceQuery;
    } else {
      assert tail == path;
    }
  }

  lemma SplitHostOf(host: string, tail: string)
    requires '/' !in host && '?' !in host
    requires tail == "" || tail[0] in {'/', '?'}
    ensures SplitHost(host + tail) == (host, tail)
  {
    var rest := host + tail;
    if tail != "" {
      assert rest[|host|] == tail[0];
      assert rest[..|host|] == host;
      assert rest[|host|..] == tail;
    } else {
      assert rest == host;
    }
  }

  lemma SchemeOf(scheme: string, rest: string)
    requires ':' !in scheme
    ensures var s := scheme + ":" + rest;
      IndexByte(s, ':') == |scheme| && s[..|scheme|] == scheme && s[|scheme| + 1..] == rest
  {
    var s := scheme + ":" + rest;
    assert s[..|scheme|] == scheme;
    IndexByteAt(s, ':', |scheme|);
  }

  lemma SplitAuthorityOf(u: Url, query: string)
    requires WellDelimited(u) && (query == "" || query[0] == '?')
    ensures SplitAuthority(Authority(u) + PathText(u) + query) == (u.host, u.path + query)
  {
    assert PathText(u) == u.path;
    if |u.host| > 0 || |u.path| > 0 {
      assert Authority(u) + PathText(u) + query == "//" + u.host + (u.path + query);
      SplitAuthorityWithHost(u.host, u.path + query);
    } else {
      assert Authority(u) + PathText(u) + query == query;
      SplitAuthorityWithout(query);
    }
  }

  lemma SplitAuthorityWithHost(host: string, tail: string)
    requires '/' !in host && '?' !in host
    requires tail == "" || tail[0] in {'/', '?'}
    ensures SplitAuthority("//" + host + tail) == (host, tail)
  {
    var rest := "//" + host + tail;
    assert rest[..2] == "//" && rest[2..] == host + tail;
    SplitHostOf(host, tail);
  }

  lemma SplitAuthorityWithout(query: string)
    requires query == "" || query[0] == '?'
    ensures SplitAuthority(query) == ("", query)
  {
    if |query| >= 2 {
      assert query[..2][0] == '?';
    }
  }

  /** The text of a well-delimited URL reads back to the same URL. */
  lemma UrlRoundTrip(u: Url)
    requires WellDelimited(u)
    ensures ParseUrl(UrlString(u)) == Some(u)
  {
    var query := QuerySuffix(u.rawQuery, u.forceQuery);
    var rest := Authority(u) + PathText(u) + query;
    assert UrlString(u) == u.scheme + ":" + rest;
    SchemeOf(u.scheme, rest);
    SplitAuthorityOf(u, query);
    SplitQueryOf(u.path, u.rawQuery, u.forceQuery);
  }
}
