/**
 * What the policy engine promises: the shape and content of the compiled
 * header list, how writing it changes a response's header map, and what a
 * request evaluation decides in the cases the middleware is known for.
 */
module PolicyProperties {
  import opened Wrappers
  import opened Text
  import opened Ipv4
  import Http
  import opened Policy

  /** The value list a slot contributes: its value as a one-element list, if it has one. */
  function AsValues(v: Option<string>): Option<seq<string>>
  {
    if v.Some? then Some([v.value]) else None
  }

  /** `a` is `b` with some elements deleted, the rest kept in order. */
  predicate IsSubsequence(a: seq<string>, b: seq<string>)
    decreases |b|
  {
    if |a| == 0 then true
    else if |b| == 0 then false
    else (a[|a| - 1] == b[|b| - 1] && IsSubsequence(a[..|a| - 1], b[..|b| - 1])) || IsSubsequence(a, b[..|b| - 1])
  }

  // ---------------------------------------------------------------------
  // Looking up a header list

  lemma {:induction false} LookupSnoc(hs: seq<Header>, h: Header, key: string)
    ensures Lookup(hs + [h], key) ==
      if Lookup(hs, key).Some? then Lookup(hs, key) else if h.key == key then Some(h.value) else None
    decreases |hs|
  {
    if |hs| == 0 {
      assert hs + [h] == [h];
      assert [h][1..] == [];
    } else {
      assert (hs + [h])[1..] == hs[1..] + [h];
      LookupSnoc(hs[1..], h, key);
    }
  }

  lemma LookupAddSlot(hs: seq<Header>, name: string, v: Option<string>, key: string)
    ensures Lookup(AddSlot(hs, name, v), key) ==
      if Lookup(hs, key).Some? then Lookup(hs, key) else if name == key then AsValues(v) else None
  {
    if v.Some? {
      LookupSnoc(hs, Header(name, [v.value]), key);
    }
  }

  /** A header list finds a name only if some header carries it. */
  lemma {:induction false} LookupFindsKey(hs: seq<Header>, key: string)
    ensures Lookup(hs, key).Some? <==> key in Keys(hs)
    decreases |hs|
  {
    if |hs| > 0 {
      LookupFindsKey(hs[1..], key);
      assert Keys(hs) == [hs[0].key] + Keys(hs[1..]);
    }
  }

  lemma KeysSnoc(hs: seq<Header>, h: Header)
    ensures Keys(hs + [h]) == Keys(hs) + [h.key]
  {
    assert forall i :: 0 <= i < |hs| ==> (hs + [h])[i] == hs[i];
  }

  // ---------------------------------------------------------------------
  // The slot list, for any names and values

  /** Under distinct names, the header of slot `i` is exactly that slot's value, if it has one. */
  lemma {:induction false} PresentLookup(names: seq<string>, vals: seq<Option<string>>, i: nat)
    requires |names| == |vals| && Distinct(names) && i < |names|
    ensures Lookup(Present(names, vals), names[i]) == AsValues(vals[i])
    decreases |names|
  {
    var n := |names| - 1;
    var prefix, pvals := names[..n], vals[..n];
    LookupAddSlot(Present(prefix, pvals), names[n], vals[n], names[i]);
    if i == n {
      PresentLookupAbsent(prefix, pvals, names[n]);
    } else {
      assert prefix[i] == names[i];
      PresentLookup(prefix, pvals, i);
    }
  }

  /** A name outside the slot names is never found. */
  lemma {:induction false} PresentLookupAbsent(names: seq<string>, vals: seq<Option<string>>, key: string)
    requires |names| == |vals| && key !in names
    ensures Lookup(Present(names, vals), key) == None
    decreases |names|
  {
    if |names| > 0 {
      var n := |names| - 1;
      assert key != names[n];
      assert key !in names[..n];
      PresentLookupAbsent(names[..n], vals[..n], key);
      LookupAddSlot(Present(names[..n], vals[..n]), names[n], vals[n], key);
    }
  }

  /**
   * Every header of the slot list carries a one-element value list and a slot
   * name; the names appear in slot order; there are at most as many headers as slots.
   */
  lemma {:induction false} PresentShape(names: seq<string>, vals: seq<Option<string>>)
    requires |names| == |vals|
    ensures var hs := Present(names, vals);
      && |hs| <= |names|
      && (forall j :: 0 <= j < |hs| ==> |hs[j].value| == 1 && hs[j].key in names)
      && IsSubsequence(Keys(hs), names)
    decreases |names|
  {
    if |names| > 0 {
      var n := |names| - 1;
      var prefix, pvals := names[..n], vals[..n];
      var before := Present(prefix, pvals);
      PresentShape(prefix, pvals);
      assert forall x :: x in prefix ==> x in names;
      if vals[n].Some? {
        var h := Header(names[n], [vals[n].value]);
        KeysSnoc(before, h);
        assert Keys(before + [h])[..|Keys(before)|] == Keys(before);
      } else {
        assert |Keys(before)| > 0 ==> IsSubsequence(Keys(before), names) by {
          assert names[..|names| - 1] == prefix;
        }
      }
    }
  }

  /** Under distinct names, no name occurs twice in the slot list. */
  lemma {:induction false} PresentDistinct(names: seq<string>, vals: seq<Option<string>>)
    requires |names| == |vals| && Distinct(names)
    ensures Distinct(Keys(Present(names, vals)))
    decreases |names|
  {
    if |names| > 0 {
      var n := |names| - 1;
      var prefix, pvals := names[..n], vals[..n];
      var before := Present(prefix, pvals);
      PresentDistinct(prefix, pvals);
      if vals[n].Some? {
        var h := Header(names[n], [vals[n].value]);
        KeysSnoc(before, h);
        PresentLookupAbsent(prefix, pvals, names[n]);
        LookupFindsKey(before, names[n]);
      }
    }
  }

  // ---------------------------------------------------------------------
  // The compiled header list

  lemma HeaderOrderDistinct()
    ensures Distinct(HeaderOrder)
  {
  }

  /** The compiled list: one-element values, each name once, in `HeaderOrder`, at most eight headers. */
  lemma CompiledShape(c: Config)
    ensures var hs := CompileHeaders(c);
      && |hs| <= 8
      && (forall j :: 0 <= j < |hs| ==> |hs[j].value| == 1 && hs[j].key in HeaderOrder)
      && Distinct(Keys(hs))
      && IsSubsequence(Keys(hs), HeaderOrder)
  {
    PresentShape(HeaderOrder, SlotValues(c));
    HeaderOrderDistinct();
    PresentDistinct(HeaderOrder, SlotValues(c));
  }

  /** Slot `i` of the compiled list holds exactly what the configuration asks for under that name. */
  lemma CompiledSlot(c: Config, i: nat)
    requires i < |HeaderOrder|
    ensures Lookup(CompileHeaders(c), HeaderOrder[i]) == AsValues(SlotValues(c)[i])
  {
    HeaderOrderDistinct();
    PresentLookup(HeaderOrder, SlotValues(c), i);
  }

  /** No header outside the eight names is ever compiled. */
  lemma CompiledOnlyKnownNames(c: Config, key: string)
    requires key !in HeaderOrder
    ensures Lookup(CompileHeaders(c), key) == None
  {
    PresentLookupAbsent(HeaderOrder, SlotValues(c), key);
  }

  /** X-Frame-Options: a custom value wins over DENY; DENY is sent only without one. */
  lemma FrameOptionsPrecedence(c: Config)
    ensures Lookup(CompileHeaders(c), FrameOptionsHeader) ==
      if |c.customFrameOptionsValue| > 0 then Some([c.customFrameOptionsValue])
      else if c.frameDeny then Some(["DENY"])
      else None
  {
    CompiledSlot(c, 0);
  }

  /** Strict-Transport-Security is sent exactly when the seconds are non-zero, with the `max-age` value. */
  lemma StsHeaderPresence(c: Config)
    ensures Lookup(CompileHeaders(c), StsHeader).Some? <==> c.stsSeconds != 0
    ensures c.stsSeconds != 0 ==>
      Lookup(CompileHeaders(c), StsHeader) == Some([StsValue(c.stsSeconds, c.stsIncludeSubdomains)])
  {
    CompiledSlot(c, 5);
  }

  /** The flag headers carry their fixed values; the string headers carry the configured text unchanged. */
  lemma CompiledHeaderValues(c: Config)
    ensures Lookup(CompileHeaders(c), ContentTypeOptionsHeader) == (if c.contentTypeNosniff then Some(["nosniff"]) else None)
    ensures Lookup(CompileHeaders(c), XssProtectionHeader) == (if c.browserXssFilter then Some(["1; mode=block"]) else None)
    ensures Lookup(CompileHeaders(c), CspHeader) ==
      (if |c.contentSecurityPolicy| > 0 then Some([c.contentSecurityPolicy]) else None)
    ensures Lookup(CompileHeaders(c), ReferrerPolicyHeader) ==
      (if |c.referrerPolicy| > 0 then Some([c.referrerPolicy]) else None)
    ensures Lookup(CompileHeaders(c), DownloadOptionsHeader) == (if c.ieNoOpen then Some(["noopen"]) else None)
    ensures Lookup(CompileHeaders(c), FeaturePolicyHeader) ==
      (if |c.featurePolicy| > 0 then Some([c.featurePolicy]) else None)
  {
    CompiledSlot(c, 1);
    CompiledSlot(c, 2);
    CompiledSlot(c, 3);
    CompiledSlot(c, 4);
    CompiledSlot(c, 6);
    CompiledSlot(c, 7);
  }

  // ---------------------------------------------------------------------
  // Reading a Strict-Transport-Security value back

  /** Reads `max-age=<seconds>[; includeSubdomains]` back into its two parts. */
  function ParseStsValue(s: string): Option<(int, bool)>
  {
    var n := |IncludeSubdomainsSuffix|;
    if |s| < 8 || s[..8] != "max-age=" then None
    else
      var rest := s[8..];
      var withSuffix := |rest| >= n && rest[|rest| - n..] == IncludeSubdomainsSuffix;
      var digits := if withSuffix then rest[..|rest| - n] else rest;
      match ParseInt(digits)
      case Some(seconds) => Some((seconds, withSuffix))
      case None => None
  }

  /** A rendered integer ends in a digit. */
  lemma DecimalEndsInDigit(n: int)
    ensures |IntToDecimal(n)| >= 1 && IsDigit(IntToDecimal(n)[|IntToDecimal(n)| - 1])
  {
    var d := NatToDecimal(if n < 0 then -n else n);
    assert IsDigit(d[|d| - 1]);
    if n < 0 {
      assert IntToDecimal(n)[|IntToDecimal(n)| - 1] == d[|d| - 1];
    }
  }

  /** The Strict-Transport-Security value determines the seconds and the subdomains flag. */
  lemma StsValueReadsBack(seconds: int, includeSubdomains: bool)
    ensures ParseStsValue(StsValue(seconds, includeSubdomains)) == Some((seconds, includeSubdomains))
  {
    var s := StsValue(seconds, includeSubdomains);
    var d := IntToDecimal(seconds);
    var suffix := if includeSubdomains then IncludeSubdomainsSuffix else "";
    assert s == "max-age=" + (d + suffix);
    assert s[..8] == "max-age=";
    var rest := s[8..];
    assert rest == d + suffix;
    IntDecimalRoundTrip(seconds);
    if includeSubdomains {
      SuffixReadsBack(d, rest);
    } else {
      assert rest == d;
      NoSuffixReadsBack(seconds, rest);
    }
  }

  lemma SuffixReadsBack(d: string, rest: string)
    requires rest == d + IncludeSubdomainsSuffix
    ensures var n := |IncludeSubdomainsSuffix|;
      rest[|rest| - n..] == IncludeSubdomainsSuffix && rest[..|rest| - n] == d
  {
  }

  lemma NoSuffixReadsBack(seconds: int, rest: string)
    requires rest == IntToDecimal(seconds)
    ensures var n := |IncludeSubdomainsSuffix|;
      !(|rest| >= n && rest[|rest| - n..] == IncludeSubdomainsSuffix)
  {
    var n := |IncludeSubdomainsSuffix|;
    DecimalEndsInDigit(seconds);
    if |rest| >= n {
      assert rest[|rest| - n..][n - 1] == rest[|rest| - 1];
      assert IncludeSubdomainsSuffix[n - 1] == 's';
    }
  }

  // ---------------------------------------------------------------------
  // Writing the headers into a response

  /**
   * Writing a list of distinct headers: each listed name ends up with its
   * listed value, every other name keeps what it had.
   */
  lemma {:induction false} OverwriteEffect(m: map<string, seq<string>>, hs: seq<Header>, key: string)
    requires Distinct(Keys(hs))
    ensures Lookup(hs, key).Some? ==> key in Overwrite(m, hs) && Overwrite(m, hs)[key] == Lookup(hs, key).value
    ensures Lookup(hs, key).None? ==> (key in Overwrite(m, hs) <==> key in m)
    ensures Lookup(hs, key).None? && key in m ==> Overwrite(m, hs)[key] == m[key]
    decreases |hs|
  {
    if |hs| > 0 {
      var m' := m[hs[0].key := hs[0].value];
      assert Keys(hs[1..]) == Keys(hs)[1..];
      assert Distinct(Keys(hs[1..]));
      OverwriteEffect(m', hs[1..], key);
      if hs[0].key == key {
        assert key !in Keys(hs[1..]);
        LookupFindsKey(hs[1..], key);
      }
    }
  }

  /**
   * Outside development mode every compiled header is in the response by the
   * time `apply` returns or hands the request to the bad-host handler. A
   * redirect sets Location to the target; every name other than Location and
   * Content-Type keeps its earlier value, present or absent.
   */
  lemma HeadersAfterApply(c: Config, req: Http.Request, m: map<string, seq<string>>, o: Outcome, key: string)
    requires !c.isDevelopment
    ensures var after := HeadersAfter(c, req, CompileHeaders(c), m, o);
      Lookup(CompileHeaders(c), key).Some? ==>
        key in after && after[key] == Lookup(CompileHeaders(c), key).value
    ensures var after := HeadersAfter(c, req, CompileHeaders(c), m, o);
      Lookup(CompileHeaders(c), key).None? && !(o.Redirect? && (key == "Location" || key == "Content-Type")) ==>
        (key in after <==> key in m) && (key in m ==> after[key] == m[key])
    ensures var after := HeadersAfter(c, req, CompileHeaders(c), m, o);
      o.Redirect? ==> "Location" in after && after["Location"] == [o.location]
  {
    var hs := CompileHeaders(c);
    var written := Overwrite(m, hs);
    CompiledShape(c);
    OverwriteEffect(m, hs, key);
    if Lookup(hs, key).Some? {
      LookupFindsKey(hs, key);
      assert key in HeaderOrder;
      assert key != "Location" && key != "Content-Type";
    }
    if o.Redirect? {
      Http.RedirectHeadersEffect(written, req.httpMethod, o.location, key);
    }
  }

  /**
   * On a redirect the response keeps a Content-Type it already had; one that
   * had none gets the HTML type on GET and HEAD requests and stays without
   * one otherwise.
   */
  lemma RedirectContentType(c: Config, req: Http.Request, m: map<string, seq<string>>, o: Outcome)
    requires !c.isDevelopment && o.Redirect?
    ensures var after := HeadersAfter(c, req, CompileHeaders(c), m, o);
      && ("Content-Type" in after <==> "Content-Type" in m || req.httpMethod in {"GET", "HEAD"})
      && ("Content-Type" in m ==> after["Content-Type"] == m["Content-Type"])
      && ("Content-Type" !in m && req.httpMethod in {"GET", "HEAD"} ==>
            after["Content-Type"] == [Http.RedirectContentType])
  {
    var hs := CompileHeaders(c);
    CompiledShape(c);
    OverwriteEffect(m, hs, "Content-Type");
    CompiledOnlyKnownNames(c, "Content-Type");
    Http.RedirectHeadersEffect(Overwrite(m, hs), req.httpMethod, o.location, "Content-Type");
  }

  // ---------------------------------------------------------------------
  // Request evaluation

  /** The zero configuration compiles no header and lets every request through. */
  lemma ZeroConfigIsInert(req: Http.Request)
    ensures CompileHeaders(ZeroConfig()) == []
    ensures Decide(ZeroConfig(), req) == Continue
  {
    CompileHeadersUnrolled(ZeroConfig());
  }

  /** In development mode nothing is written and every request continues. */
  lemma DevelopmentBypass(c: Config, fixed: seq<Header>, m: map<string, seq<string>>, status: Option<int>, req: Http.Request)
    requires c.isDevelopment
    ensures Decide(c, req) == Continue
    ensures HeadersAfter(c, req, fixed, m, Decide(c, req)) == m
    ensures StatusAfter(status, Decide(c, req)) == status
  {
  }

  /** The allowed-hosts check ignores the case of the host. */
  lemma HostAllowedIgnoresCase(c: Config, req: Http.Request, host: string)
    requires |req.host| > 0 && |host| > 0 && EqualFold(req.host, host)
    ensures HostAllowed(c, req) <==> HostAllowed(c, req.(host := host))
  {
    var req' := req.(host := host);
    assert RequestHost(req) == req.host && RequestHost(req') == host;
    if HostAllowed(c, req) && |c.allowedHosts| > 0 {
      var i :| 0 <= i < |c.allowedHosts| && EqualFold(c.allowedHosts[i], req.host);
      assert EqualFold(c.allowedHosts[i], host);
    }
    if HostAllowed(c, req') && |c.allowedHosts| > 0 {
      var i :| 0 <= i < |c.allowedHosts| && EqualFold(c.allowedHosts[i], host);
      assert EqualFold(c.allowedHosts[i], req.host);
    }
  }

  /** An empty `req.Host` is checked through the URL's host instead. */
  lemma HostFallsBackToUrlHost(c: Config, req: Http.Request)
    requires |req.host| == 0 && |c.allowedHosts| > 0
    ensures HostAllowed(c, req) <==>
      exists i :: 0 <= i < |c.allowedHosts| && EqualFold(c.allowedHosts[i], req.url.host)
  {
  }

  /**
   * The redirect Location is an absolute https URL that reads back to the
   * SSL host (or the request's host), the request's path and its query.
   */
  lemma RedirectLocationReadsBack(c: Config, req: Http.Request)
    requires var host := if |c.sslHost| > 0 then c.sslHost else req.host;
      '/' !in host && '?' !in host
    requires '?' !in req.url.path && (req.url.path == "" || req.url.path[0] == '/')
    requires req.url.forceQuery ==> req.url.rawQuery == ""
    ensures Http.ParseUrl(RedirectLocation(c, req)) ==
      Some(Http.Url("https", if |c.sslHost| > 0 then c.sslHost else req.host,
        req.url.path, req.url.rawQuery, req.url.forceQuery))
  {
    Http.UrlRoundTrip(RedirectTarget(c, req));
  }

  /** A request URL that ended in a bare '?' keeps it at the end of the Location. */
  lemma BareQueryMarkKept(c: Config, req: Http.Request)
    requires req.url.forceQuery && req.url.rawQuery == ""
    ensures var location := RedirectLocation(c, req);
      |location| > 0 && location[|location| - 1] == '?'
  {
  }

  /** With neither a host nor a path, the Location is "https:" and the query, without "//". */
  lemma NoAuthorityWithoutHostOrPath(c: Config, req: Http.Request)
    requires |c.sslHost| == 0 && req.host == "" && req.url.path == ""
    ensures RedirectLocation(c, req) == "https:" + Http.QuerySuffix(req.url.rawQuery, req.url.forceQuery)
  {
  }

  /** A plain-http request to an allowed host, with no proxy header configured, is redirected with 301 or 307. */
  lemma PlainHttpIsRedirected(c: Config, req: Http.Request)
    requires !c.isDevelopment && c.sslRedirect && HostAllowed(c, req)
    requires !EqualFold(req.url.scheme, "https") && !req.tls && c.sslProxyHeaders == map[]
    requires !c.dontRedirectIPV4Hostnames
    ensures Decide(c, req) == Redirect(if c.sslTemporaryRedirect then 307 else 301, RedirectLocation(c, req))
  {
  }

  /** With IPv4 hosts exempt, a request to the loopback address, with or without a port, is not redirected. */
  lemma LoopbackHostNotRedirected(c: Config, req: Http.Request, ip: string, port: string)
    requires ip == "127.0.0.1" && (req.host == ip || req.host == ip + ":" + port)
    requires c.dontRedirectIPV4Hostnames
    ensures !Decide(c, req).Redirect?
  {
    LoopbackIsIPv4(ip, port);
  }

  /** The exemption does not cover host names: a request to one, with or without a port, is still redirected. */
  lemma NamedHostStillRedirected(c: Config, req: Http.Request, name: string, port: string, k: nat)
    requires ':' !in name && k < |name| && !IsDigit(name[k]) && name[k] != '.'
    requires req.host == name || req.host == name + ":" + port
    requires !c.isDevelopment && c.sslRedirect && HostAllowed(c, req)
    requires !EqualFold(req.url.scheme, "https") && !req.tls && c.sslProxyHeaders == map[]
    ensures Decide(c, req).Redirect?
  {
    NameIsNotIPv4(name, port, k);
  }

  /** A configured proxy header with the expected value, in any case, marks the request as secure. */
  lemma ProxyHeaderMarksSsl(c: Config, req: Http.Request, h: string)
    requires h in c.sslProxyHeaders && h in req.header && |req.header[h]| > 0
    requires EqualFold(req.header[h][0], c.sslProxyHeaders[h])
    ensures !Decide(c, req).Redirect?
  {
    assert ProxyHeaderMatches(c, req, h);
  }
}
