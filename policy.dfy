/**
 * The security-policy engine: a configuration is compiled once into a fixed
 * list of response headers, and every request is then evaluated against it
 * (development bypass, header writing, allowed-hosts check, SSL check).
 */
module Policy {
  import opened Wrappers
  import opened Text
  import opened Ipv4
  import Http

  /**
   * The middleware's configuration record. `hasBadHostHandler` stands for
   * `BadHostHandler != nil`; `sslProxyHeaders` maps a request header name to
   * the value that proves the request came in over SSL.
   */
  datatype Config = Config(
    allowedHosts: seq<string>,
    hasBadHostHandler: bool,
    sslRedirect: bool,
    sslTemporaryRedirect: bool,
    sslHost: string,
    stsSeconds: int,
    stsIncludeSubdomains: bool,
    frameDeny: bool,
    customFrameOptionsValue: string,
    contentTypeNosniff: bool,
    browserXssFilter: bool,
    contentSecurityPolicy: string,
    referrerPolicy: string,
    ieNoOpen: bool,
    sslProxyHeaders: map<string, string>,
    isDevelopment: bool,
    dontRedirectIPV4Hostnames: bool,
    featurePolicy: string)

  /** The zero value `Config{}`: nothing enabled. */
  function ZeroConfig(): Config
  {
    Config([], false, false, false, "", 0, false, false, "", false, false, "", "", false, map[], false, false, "")
  }

  /** One compiled header: a name and the value list written under it. */
  datatype Header = Header(key: string, value: seq<string>)

  /** What a request evaluation decided, as the caller can observe it. */
  datatype Outcome = Continue | Forbidden | BadHostHandled | Redirect(status: int, location: string)

  // ---------------------------------------------------------------------
  // Header compilation (the specification of loadConfig)

  const FrameOptionsHeader: string := "X-Frame-Options"
  const ContentTypeOptionsHeader: string := "X-Content-Type-Options"
  const XssProtectionHeader: string := "X-Xss-Protection"
  const CspHeader: string := "Content-Security-Policy"
  const ReferrerPolicyHeader: string := "Referrer-Policy"
  const StsHeader: string := "Strict-Transport-Security"
  const DownloadOptionsHeader: string := "X-Download-Options"
  const FeaturePolicyHeader: string := "Feature-Policy"

  /** The eight headers the engine can emit, in the order it emits them. */
  const HeaderOrder: seq<string> := [
    FrameOptionsHeader, ContentTypeOptionsHeader, XssProtectionHeader, CspHeader,
    ReferrerPolicyHeader, StsHeader, DownloadOptionsHeader, FeaturePolicyHeader]

  const IncludeSubdomainsSuffix: string := "; includeSubdomains"

  /** A string option that is set exactly when the string is non-empty. */
  function NonEmpty(s: string): Option<string>
  {
    if |s| > 0 then Some(s) else None
  }

  /** A fixed value that is emitted exactly when a flag is on. */
  function IfSet(flag: bool, value: string): Option<string>
  {
    if flag then Some(value) else None
  }

  /** X-Frame-Options: the custom value when one is given, else DENY when frames are denied. */
  function FrameOptionsValue(c: Config): Option<string>
  {
    if |c.customFrameOptionsValue| > 0 then Some(c.customFrameOptionsValue)
    else IfSet(c.frameDeny, "DENY")
  }

  /** `fmt.Sprintf("max-age=%d%s", seconds, suffix)`. */
  function MaxAge(seconds: int, suffix: string): string
  {
    "max-age=" + IntToDecimal(seconds) + suffix
  }

  /** The Strict-Transport-Security value, `max-age=<seconds>[; includeSubdomains]`. */
  function StsValue(seconds: int, includeSubdomains: bool): string
  {
    MaxAge(seconds, if includeSubdomains then IncludeSubdomainsSuffix else "")
  }

  /** Strict-Transport-Security: emitted for any non-zero number of seconds, negative ones included. */
  function StsHeaderValue(c: Config): Option<string>
  {
    if c.stsSeconds != 0 then Some(StsValue(c.stsSeconds, c.stsIncludeSubdomains)) else None
  }

  /** The value the configuration asks for under each name of `HeaderOrder`, position by position. */
  function SlotValues(c: Config): (vs: seq<Option<string>>)
    ensures |vs| == |HeaderOrder|
  {
    [FrameOptionsValue(c), IfSet(c.contentTypeNosniff, "nosniff"), IfSet(c.browserXssFilter, "1; mode=block"),
     NonEmpty(c.contentSecurityPolicy), NonEmpty(c.referrerPolicy), StsHeaderValue(c),
     IfSet(c.ieNoOpen, "noopen"), NonEmpty(c.featurePolicy)]
  }

  /** The list `hs` followed by the header of one slot, if the slot has a value: its name with a one-element value list. */
  function AddSlot(hs: seq<Header>, key: string, value: Option<string>): seq<Header>
  {
    if value.Some? then hs + [Header(key, [value.value])] else hs
  }

  /** The headers of the slots that have a value, in slot order. */
  function Present(names: seq<string>, vals: seq<Option<string>>): seq<Header>
    requires |names| == |vals|
  {
    if |names| == 0 then []
    else AddSlot(Present(names[..|names| - 1], vals[..|vals| - 1]), names[|names| - 1], vals[|vals| - 1])
  }

  /** The compiled header list of a configuration: every slot that has a value, in `HeaderOrder`. */
  function CompileHeaders(c: Config): seq<Header>
  {
    Present(HeaderOrder, SlotValues(c))
  }

  lemma PresentSnoc(names: seq<string>, vals: seq<Option<string>>, k: nat)
    requires |names| == |vals| && k < |names|
    ensures Present(names[..k + 1], vals[..k + 1]) == AddSlot(Present(names[..k], vals[..k]), names[k], vals[k])
  {
    assert names[..k + 1][..k] == names[..k];
    assert vals[..k + 1][..k] == vals[..k];
  }

  lemma PresentFour(names: seq<string>, vals: seq<Option<string>>, k: nat)
    requires |names| == |vals| && k + 4 <= |names|
    ensures Present(names[..k + 4], vals[..k + 4]) ==
      AddSlot(AddSlot(AddSlot(AddSlot(Present(names[..k], vals[..k]),
        names[k], vals[k]), names[k + 1], vals[k + 1]), names[k + 2], vals[k + 2]), names[k + 3], vals[k + 3])
  {
    PresentSnoc(names, vals, k);
    PresentSnoc(names, vals, k + 1);
    PresentSnoc(names, vals, k + 2);
    PresentSnoc(names, vals, k + 3);
  }

  /** Eight slots, added one after the other. */
  lemma PresentEight(names: seq<string>, vals: seq<Option<string>>)
    requires |names| == |vals| == 8
    ensures Present(names, vals) ==
      AddSlot(AddSlot(AddSlot(AddSlot(AddSlot(AddSlot(AddSlot(AddSlot([],
        names[0], vals[0]), names[1], vals[1]), names[2], vals[2]), names[3], vals[3]),
        names[4], vals[4]), names[5], vals[5]), names[6], vals[6]), names[7], vals[7])
  {
    var half := Present(names[..4], vals[..4]);
    assert half == AddSlot(AddSlot(AddSlot(AddSlot([],
      names[0], vals[0]), names[1], vals[1]), names[2], vals[2]), names[3], vals[3]) by {
      assert names[..0] == [] && vals[..0] == [];
      PresentFour(names, vals, 0);
    }
    assert Present(names, vals) == AddSlot(AddSlot(AddSlot(AddSlot(half,
      names[4], vals[4]), names[5], vals[5]), names[6], vals[6]), names[7], vals[7]) by {
      assert names[..8] == names && vals[..8] == vals;
      PresentFour(names, vals, 4);
    }
  }

  /** The compiled list is built by adding the eight slots in order, as `loadConfig` does. */
  lemma CompileHeadersUnrolled(c: Config)
    ensures CompileHeaders(c) ==
      AddSlot(AddSlot(AddSlot(AddSlot(AddSlot(AddSlot(AddSlot(AddSlot([],
        FrameOptionsHeader, FrameOptionsValue(c)),
        ContentTypeOptionsHeader, IfSet(c.contentTypeNosniff, "nosniff")),
        XssProtectionHeader, IfSet(c.browserXssFilter, "1; mode=block")),
        CspHeader, NonEmpty(c.contentSecurityPolicy)),
        ReferrerPolicyHeader, NonEmpty(c.referrerPolicy)),
        StsHeader, StsHeaderValue(c)),
        DownloadOptionsHeader, IfSet(c.ieNoOpen, "noopen")),
        FeaturePolicyHeader, NonEmpty(c.featurePolicy))
  {
    PresentEight(HeaderOrder, SlotValues(c));
  }

  // ---------------------------------------------------------------------
  // Header lists and header maps

  /** The value list of the first header named `key`, if any. */
  function Lookup(hs: seq<Header>, key: string): Option<seq<string>>
  {
    if |hs| == 0 then None
    else if hs[0].key == key then Some(hs[0].value)
    else Lookup(hs[1..], key)
  }

  /** The names of a header list, in order. */
  function Keys(hs: seq<Header>): (ks: seq<string>)
    ensures |ks| == |hs|
    ensures forall i :: 0 <= i < |hs| ==> ks[i] == hs[i].key
  {
    if |hs| == 0 then [] else [hs[0].key] + Keys(hs[1..])
  }

  predicate Distinct(names: seq<string>)
  {
    forall i, j :: 0 <= i < j < |names| ==> names[i] != names[j]
  }

  /** The header map after assigning every listed header in turn. */
  function Overwrite(m: map<string, seq<string>>, hs: seq<Header>): map<string, seq<string>>
    decreases |hs|
  {
    if |hs| == 0 then m else Overwrite(m[hs[0].key := hs[0].value], hs[1..])
  }

  // ---------------------------------------------------------------------
  // Request evaluation (the specification of apply)

  /** The host the allowed-hosts check compares: `req.Host`, or `req.URL.Host` when that is empty. */
  function RequestHost(req: Http.Request): string
  {
    if |req.host| == 0 then req.url.host else req.host
  }

  /** The allowed-hosts check passes: no list, or some entry equals the host up to case. */
  predicate HostAllowed(c: Config, req: Http.Request)
  {
    |c.allowedHosts| == 0 ||
    exists i :: 0 <= i < |c.allowedHosts| && EqualFold(c.allowedHosts[i], RequestHost(req))
  }

  /** Configured proxy header `h` is on the request and its first value is the expected one. */
  predicate ProxyHeaderMatches(c: Config, req: Http.Request, h: string)
  {
    h in c.sslProxyHeaders && h in req.header && |req.header[h]| > 0 &&
    EqualFold(req.header[h][0], c.sslProxyHeaders[h])
  }

  /** The request counts as already secure. */
  predicate RequestIsSsl(c: Config, req: Http.Request)
  {
    || EqualFold(req.url.scheme, "https") || req.tls
    || (exists h :: h in c.sslProxyHeaders && ProxyHeaderMatches(c, req, h))
    || (c.dontRedirectIPV4Hostnames && IsIPv4(req.host))
  }

  /**
   * The proxy-header scan reads the first value of every configured header the
   * request carries; the source indexes that value unconditionally, so a
   * present but empty value list must not reach the scan.
   */
  predicate ProxyScanSafe(c: Config, req: Http.Request)
  {
    || EqualFold(req.url.scheme, "https") || req.tls
    || forall h :: h in c.sslProxyHeaders && h in req.header ==> |req.header[h]| > 0
  }

  /** The redirect status: 307 when the redirect is temporary, else 301. */
  function RedirectStatus(c: Config): int
  {
    if c.sslTemporaryRedirect then Http.StatusTemporaryRedirect else Http.StatusMovedPermanently
  }

  /** The redirect target: the request's URL with scheme https and the SSL host if one is set, else `req.Host`. */
  function RedirectTarget(c: Config, req: Http.Request): Http.Url
  {
    req.url.(scheme := "https", host := if |c.sslHost| > 0 then c.sslHost else req.host)
  }

  function RedirectLocation(c: Config, req: Http.Request): string
  {
    Http.UrlString(RedirectTarget(c, req))
  }

  /** The decision `apply` takes for a request. */
  function Decide(c: Config, req: Http.Request): (o: Outcome)
    ensures o == Continue <==>
      c.isDevelopment || (HostAllowed(c, req) && (!c.sslRedirect || RequestIsSsl(c, req)))
    ensures o == Forbidden <==> !c.isDevelopment && !HostAllowed(c, req) && !c.hasBadHostHandler
    ensures o == BadHostHandled <==> !c.isDevelopment && !HostAllowed(c, req) && c.hasBadHostHandler
    ensures o.Redirect? <==>
      !c.isDevelopment && HostAllowed(c, req) && c.sslRedirect && !RequestIsSsl(c, req)
    ensures o.Redirect? ==> o.status == RedirectStatus(c) && o.location == RedirectLocation(c, req)
  {
    if c.isDevelopment then Continue
    else if !HostAllowed(c, req) then (if c.hasBadHostHandler then BadHostHandled else Forbidden)
    else if c.sslRedirect && !RequestIsSsl(c, req) then Redirect(RedirectStatus(c), RedirectLocation(c, req))
    else Continue
  }

  /** The response header map after `apply`. */
  function HeadersAfter(c: Config, req: Http.Request, fixed: seq<Header>, m: map<string, seq<string>>, o: Outcome): map<string, seq<string>>
  {
    if c.isDevelopment then m
    else if o.Redirect? then Http.RedirectHeaders(Overwrite(m, fixed), req.httpMethod, o.location)
    else Overwrite(m, fixed)
  }

  /** The response status after `apply`: 403 on a forbidden host, the redirect status on a redirect. */
  function StatusAfter(status: Option<int>, o: Outcome): Option<int>
  {
    match o
    case Forbidden => Http.StatusAfterWrite(status, Http.StatusForbidden)
    case Redirect(code, _) => Http.StatusAfterWrite(status, code)
    case _ => status
  }

  /** The requirement `apply` places on a request: the proxy-header scan, if reached, is safe. */
  predicate ApplyPrecondition(c: Config, req: Http.Request)
  {
    !c.isDevelopment && HostAllowed(c, req) && c.sslRedirect ==> ProxyScanSafe(c, req)
  }

  // ---------------------------------------------------------------------
  // The engine

  class Policy {
    var config: Config
    var fixedHeaders: seq<Header>

    ghost predicate Valid()
      reads this
    {
      fixedHeaders == CompileHeaders(config)
    }

    /** `newPolicy`: a policy with the configuration loaded. */
    constructor (config: Config)
      ensures this.config == config && fixedHeaders == CompileHeaders(config)
      ensures Valid()
    {
      this.config := config;
      fixedHeaders := [];
      new;
      LoadConfig(config);
    }

    /**
     * `loadConfig`: stores the configuration and compiles its headers. Each
     * `if` block of the source is one of the Add... methods below, called in
     * the source's order.
     */
    method LoadConfig(config: Config)
      modifies this
      ensures this.config == config && fixedHeaders == CompileHeaders(config)
    {
      this.config := config;
      fixedHeaders := [];
      AddFrameOptions(config);
      AddContentTypeOptions(config);
      AddXssProtection(config);
      AddContentSecurityPolicy(config);
      AddReferrerPolicy(config);
      AddStrictTransportSecurity(config);
      AddDownloadOptions(config);
      AddFeaturePolicy(config);
      CompileHeadersUnrolled(config);
    }

    /** The X-Frame-Options block: a custom value wins over DENY. */
    method AddFrameOptions(config: Config)
      modifies this`fixedHeaders
      ensures fixedHeaders == AddSlot(old(fixedHeaders), FrameOptionsHeader, FrameOptionsValue(config))
    {
      if |config.customFrameOptionsValue| > 0 {
        AddHeader(FrameOptionsHeader, config.customFrameOptionsValue);
      } else if config.frameDeny {
        AddHeader(FrameOptionsHeader, "DENY");
      }
    }

    method AddContentTypeOptions(config: Config)
      modifies this`fixedHeaders
      ensures fixedHeaders == AddSlot(old(fixedHeaders), ContentTypeOptionsHeader, IfSet(config.contentTypeNosniff, "nosniff"))
    {
      if config.contentTypeNosniff {
        AddHeader(ContentTypeOptionsHeader, "nosniff");
      }
    }

    method AddXssProtection(config: Config)
      modifies this`fixedHeaders
      ensures fixedHeaders == AddSlot(old(fixedHeaders), XssProtectionHeader, IfSet(config.browserXssFilter, "1; mode=block"))
    {
      if config.browserXssFilter {
        AddHeader(XssProtectionHeader, "1; mode=block");
      }
    }

    method AddContentSecurityPolicy(config: Config)
      modifies this`fixedHeaders
      ensures fixedHeaders == AddSlot(old(fixedHeaders), CspHeader, NonEmpty(config.contentSecurityPolicy))
    {
      if |config.contentSecurityPolicy| > 0 {
        AddHeader(CspHeader, config.contentSecurityPolicy);
      }
    }

    method AddReferrerPolicy(config: Config)
      modifies this`fixedHeaders
      ensures fixedHeaders == AddSlot(old(fixedHeaders), ReferrerPolicyHeader, NonEmpty(config.referrerPolicy))
    {
      if |config.referrerPolicy| > 0 {
        AddHeader(ReferrerPolicyHeader, config.referrerPolicy);
      }
    }

    /** The Strict-Transport-Security block: `max-age=%d%s` with an optional includeSubdomains suffix. */
    method AddStrictTransportSecurity(config: Config)
      modifies this`fixedHeaders
      ensures fixedHeaders == AddSlot(old(fixedHeaders), StsHeader, StsHeaderValue(config))
    {
      if config.stsSeconds != 0 {
        var stsSub := "";
        if config.stsIncludeSubdomains {
          stsSub := IncludeSubdomainsSuffix;
        }
        AddHeader(StsHeader, MaxAge(config.stsSeconds, stsSub));
      }
    }

    method AddDownloadOptions(config: Config)
      modifies this`fixedHeaders
      ensures fixedHeaders == AddSlot(old(fixedHeaders), DownloadOptionsHeader, IfSet(config.ieNoOpen, "noopen"))
    {
      if config.ieNoOpen {
        AddHeader(DownloadOptionsHeader, "noopen");
      }
    }

    method AddFeaturePolicy(config: Config)
      modifies this`fixedHeaders
      ensures fixedHeaders == AddSlot(old(fixedHeaders), FeaturePolicyHeader, NonEmpty(config.featurePolicy))
    {
      if |config.featurePolicy| > 0 {
        AddHeader(FeaturePolicyHeader, config.featurePolicy);
      }
    }

    /** `addHeader`: appends one header with a one-element value list. */
    method AddHeader(key: string, value: string)
      modifies this`fixedHeaders
      ensures fixedHeaders == old(fixedHeaders) + [Header(key, [value])]
    {
      fixedHeaders := fixedHeaders + [Header(key, [value])];
    }

    /**
     * `apply`: unless in development mode, writes the fixed headers, then runs
     * the allowed-hosts check and the SSL check; `cont` says whether the next
     * handler may run.
     */
    method Apply(res: Http.Response, req: Http.Request) returns (cont: bool, outcome: Outcome)
      requires Valid()
      requires ApplyPrecondition(config, req)
      modifies res
      ensures outcome == Decide(config, req)
      ensures cont <==> outcome == Continue
      ensures config.isDevelopment ==> res.header == old(res.header) && res.status == old(res.status)
      ensures res.header == HeadersAfter(config, req, fixedHeaders, old(res.header), outcome)
      ensures res.status == StatusAfter(old(res.status), outcome)
    {
      if !config.isDevelopment {
        WriteSecureHeaders(res);

        var ok;
        ok, outcome := CheckAllowHosts(res, req);
        if !ok {
          return false, outcome;
        }
        ok, outcome := CheckSsl(res, req);
        if !ok {
          return false, outcome;
        }
      }
      return true, Continue;
    }

    /** `writeSecureHeaders`: assigns every fixed header into the response, replacing earlier values. */
    method WriteSecureHeaders(res: Http.Response)
      modifies res
      ensures res.header == Overwrite(old(res.header), fixedHeaders)
      ensures res.status == old(res.status)
    {
      var i := 0;
      while i < |fixedHeaders|
        invariant 0 <= i <= |fixedHeaders|
        invariant Overwrite(res.header, fixedHeaders[i..]) == Overwrite(old(res.header), fixedHeaders)
        invariant res.status == old(res.status)
      {
        var pair := fixedHeaders[i];
        assert fixedHeaders[i..][1..] == fixedHeaders[i + 1..];
        res.header := res.header[pair.key := pair.value];
        i := i + 1;
      }
    }

    /** The scan over the allowed hosts: some entry equals `host` up to case. */
    method MatchAllowedHost(host: string) returns (found: bool)
      ensures found <==> exists i :: 0 <= i < |config.allowedHosts| && EqualFold(config.allowedHosts[i], host)
    {
      var i := 0;
      while i < |config.allowedHosts|
        invariant 0 <= i <= |config.allowedHosts|
        invariant forall j :: 0 <= j < i ==> !EqualFold(config.allowedHosts[j], host)
      {
        if EqualFold(config.allowedHosts[i], host) {
          return true;
        }
        i := i + 1;
      }
      return false;
    }

    /**
     * `checkAllowHosts`: passes when the host is allowed; otherwise hands over
     * to the bad-host handler or, when there is none, writes 403.
     */
    method CheckAllowHosts(res: Http.Response, req: Http.Request) returns (ok: bool, outcome: Outcome)
      modifies res
      ensures ok <==> HostAllowed(config, req)
      ensures outcome == (if ok then Continue else if config.hasBadHostHandler then BadHostHandled else Forbidden)
      ensures res.header == old(res.header)
      ensures res.status == StatusAfter(old(res.status), outcome)
    {
      if |config.allowedHosts| == 0 {
        return true, Continue;
      }

      var host := req.host;
      if |host| == 0 {
        host := req.url.host;
      }

      var found := MatchAllowedHost(host);
      if found {
        return true, Continue;
      }

      if config.hasBadHostHandler {
        outcome := BadHostHandled;
      } else {
        res.WriteHeader(Http.StatusForbidden);
        outcome := Forbidden;
      }
      return false, outcome;
    }

    /**
     * `isSSLRequest`: https scheme or TLS; else a configured proxy header
     * matching, the headers visited in an arbitrary order; else an IPv4 host
     * when IPv4 hosts are exempt.
     */
    method IsSslRequest(req: Http.Request) returns (isSsl: bool)
      requires ProxyScanSafe(config, req)
      ensures isSsl == RequestIsSsl(config, req)
    {
      if EqualFold(req.url.scheme, "https") || req.tls {
        return true;
      }

      var pending := config.sslProxyHeaders.Keys;
      while pending != {}
        invariant pending <= config.sslProxyHeaders.Keys
        invariant forall h :: h in config.sslProxyHeaders && h !in pending ==> !ProxyHeaderMatches(config, req, h)
        decreases pending
      {
        var h :| h in pending;
        pending := pending - {h};
        if h !in req.header {
          continue;
        }
        var hv := req.header[h];
        if EqualFold(hv[0], config.sslProxyHeaders[h]) {
          return true;
        }
      }

      if config.dontRedirectIPV4Hostnames && IsIPv4(req.host) {
        return true;
      }
      return false;
    }

    /** `checkSSL`: passes when no redirect is configured or the request is secure; otherwise redirects. */
    method CheckSsl(res: Http.Response, req: Http.Request) returns (ok: bool, outcome: Outcome)
      requires config.sslRedirect ==> ProxyScanSafe(config, req)
      modifies res
      ensures ok <==> !config.sslRedirect || RequestIsSsl(config, req)
      ensures outcome == (if ok then Continue else Redirect(RedirectStatus(config), RedirectLocation(config, req)))
      ensures res.header == (if ok then old(res.header) else Http.RedirectHeaders(old(res.header), req.httpMethod, outcome.location))
      ensures res.status == StatusAfter(old(res.status), outcome)
    {
      if !config.sslRedirect {
        return true, Continue;
      }

      var isSsl := IsSslRequest(req);
      if isSsl {
        return true, Continue;
      }

      var url := req.url.(scheme := "https", host := req.host);
      if |config.sslHost| > 0 {
        url := url.(host := config.sslHost);
      }

      var status := Http.StatusMovedPermanently;
      if config.sslTemporaryRedirect {
        status := Http.StatusTemporaryRedirect;
      }

      var location := Http.UrlString(url);
      Http.Redirect(res, req, location, status);
      return false, Redirect(status, location);
    }
  }
}
