# Security-policy middleware engine, modelled in Dafny

This project models the policy engine of the `gin-contrib/secure` middleware (`policy.go`).

The engine has two halves:

- **The header compiler.** `newPolicy` stores a configuration. `loadConfig` turns it, once, into a fixed list of response headers. There are at most eight: X-Frame-Options, X-Content-Type-Options, X-Xss-Protection, Content-Security-Policy, Referrer-Policy, Strict-Transport-Security, X-Download-Options and Feature-Policy, always in that order. Each value list holds one element.
- **The per-request evaluator.** `apply` does nothing in development mode. Otherwise it does three things in turn:
  - It writes the fixed headers into the response (`writeSecureHeaders`).
  - It checks the host against the allowed hosts, case-insensitively. The check uses `req.Host`, or `req.URL.Host` when that is empty. On a mismatch it hands over to the bad-host handler, or writes 403 when there is none (`checkAllowHosts`).
  - When SSL redirect is on, it redirects requests that are not secure (`checkSSL`). A request is secure when it has the https scheme, has TLS, or carries a configured proxy header with the expected value. With `DontRedirectIPV4Hostnames`, a literal IPv4 host also counts as secure (`isSSLRequest`, `isIPV4`). The redirect uses status 301, or 307 when configured. Its Location is built from `https`, the SSL host (or the request's host), and the request's path and query.

## Files

- `wrappers.dfy`: `Option`.
- `text.dfy`: the string helpers.
  - Helpers the engine calls from Go's standard library:
    - ASCII `strings.EqualFold`;
    - `strings.IndexByte`;
    - `%d` rendering, with its inverse.
  - Splitting and joining at a separator. The engine calls neither; they state the field grammar of `net.ParseIP`.
- `ipv4.dfy`: `isIPV4`.
  - `net.ParseIP` on a colon-free string is modelled as the strict dotted-quad grammar of Go 1.17 and later, which rejects leading zeros.
  - That grammar is proved equal to "the rendering of four octets".
- `http.dfy`: the parts of `net/http` and `net/url` that the engine touches.
  - The request.
  - The response: its header map, and a status where the first write wins.
  - `http.Redirect`.
  - `url.URL.String()`, with a parser proving that the text reads back.
- `policy.dfy`: the engine.
  - The configuration and header datatypes.
  - The specification functions `CompileHeaders`, `Decide`, `HeadersAfter` and `StatusAfter`.
  - The class `Policy`. Its methods follow the Go methods.
- `properties.dfy`: the properties the engine promises, stated over the specification functions.

`loadConfig` is one Go function with eight `if` blocks, each calling `addHeader`. In the model, each block is its own method (`AddFrameOptions` … `AddFeaturePolicy`), and `LoadConfig` calls them in the source's order. Each method is proved against `AddSlot`, the one-slot step of `CompileHeaders`.

## Model

| member | source | states |
|---|---|---|
| Policy.Policy.constructor | policy.go:26-30 | `newPolicy`: the new policy holds the configuration, and its fixed headers are `CompileHeaders(config)` (so `Valid()` holds). |
| Policy.Policy.LoadConfig | policy.go:32-85 | The configuration is stored, and the fixed header list equals `CompileHeaders(config)`: the slots that have a value, in `HeaderOrder`. |
| Policy.Policy.AddFrameOptions | policy.go:36-41 | Appends X-Frame-Options with the custom value if it is non-empty, else DENY if frames are denied, else nothing. |
| Policy.Policy.AddContentTypeOptions | policy.go:43-46 | Appends `X-Content-Type-Options: nosniff` exactly when ContentTypeNosniff is set. |
| Policy.Policy.AddXssProtection | policy.go:48-51 | Appends `X-Xss-Protection: 1; mode=block` exactly when BrowserXssFilter is set. |
| Policy.Policy.AddContentSecurityPolicy | policy.go:53-56 | Appends Content-Security-Policy with the configured text exactly when that text is non-empty. |
| Policy.Policy.AddReferrerPolicy | policy.go:58-60 | Appends Referrer-Policy with the configured text exactly when that text is non-empty. |
| Policy.Policy.AddStrictTransportSecurity | policy.go:62-74 | Appends Strict-Transport-Security exactly when STSSeconds is non-zero. The value is `max-age=<seconds>`, followed by `; includeSubdomains` when requested. |
| Policy.Policy.AddDownloadOptions | policy.go:76-79 | Appends `X-Download-Options: noopen` exactly when IENoOpen is set. |
| Policy.Policy.AddFeaturePolicy | policy.go:81-84 | Appends Feature-Policy with the configured text exactly when that text is non-empty. |
| Policy.Policy.AddHeader | policy.go:87-92 | The list grows by exactly one header: the given name with a one-element value list. |
| Policy.CompileHeadersUnrolled | policy.go:32-85 | The compiled list equals the eight slots added one after another, which is how `loadConfig` builds it. |
| Policy.Policy.Apply | policy.go:94-106 | The outcome is `Decide`, and the handler chain continues exactly on `Continue`. In development mode the headers and status are unchanged. Otherwise the header map and the status are `HeadersAfter` and `StatusAfter` of the outcome. |
| Policy.Decide | policy.go:94-106 | Each outcome, as an if-and-only-if over the configuration and request: continue, 403, bad-host handler, or redirect. A redirect carries 301/307 and the constructed Location. |
| Policy.Policy.WriteSecureHeaders | policy.go:108-113 | The header map becomes the old map with every fixed header assigned in list order. The status is untouched. |
| Policy.Policy.MatchAllowedHost | policy.go:125-129 | Returns true exactly when some allowed host equals the host up to ASCII case. |
| Policy.Policy.CheckAllowHosts | policy.go:115-138 | Passes exactly when the allowed-hosts check passes (`req.Host`, else `req.URL.Host`). On failure the outcome is the bad-host handler if set, else 403 is written. Headers are not touched. |
| Policy.Policy.IsSslRequest | policy.go:148-170 | Returns true exactly when the scheme is https (any case), TLS is present, some configured proxy header's first value matches its expected value (any case, with the map visited in an arbitrary order), or the host is IPv4 and IPv4 hosts are exempt. |
| Policy.Policy.CheckSsl | policy.go:172-199 | Passes when SSL redirect is off or the request is secure. Otherwise it sets Location to the text of the request's URL with scheme https and host the SSL host (else `req.Host`), keeping path, query and ForceQuery. It sets the HTML Content-Type on a GET or HEAD response that has none, and writes 301, or 307 when temporary. |
| Ipv4.IsIPv4 | policy.go:141-146 | For a host without ':', true exactly when it is the dotted-quad rendering of four octets. Otherwise the same holds for the part before the first ':'. |
| Ipv4.HostWithoutPort | policy.go:142-144 | The result has no ':'. It is the whole host, or the strict prefix that ends right before the first ':'. |
| Ipv4.ParsesAsIPv4Iff | policy.go:145 | The four-field grammar accepts exactly the strings `a.b.c.d` with each number at most 255, written without leading zeros (as `net.ParseIP` does from Go 1.17 on). |
| Ipv4.IPv6NeverIPv4 | policy.go:141-146 | A host whose text before its first ':' has no '.' is never IPv4. That covers every IPv6 literal, bare (`2001:db8::1`, `::1`) or bracketed (`[fe80::1]:8080`). |
| Ipv4.HostWithoutPortOf | policy.go:142-144 | Cutting a colon-free name, or that name followed by `:port`, gives back the name. |
| Ipv4.LoopbackIsIPv4 | secure_test.go:389-390 | `127.0.0.1` is IPv4 with or without a port. |
| Ipv4.NameIsNotIPv4 | secure_test.go:391-394 | A host name with a character that is neither a digit nor a dot (`localhost`, `example.com`) is never IPv4, with or without a port. |
| Text.IndexByte | policy.go:142 | Returns -1 exactly when the character is absent. Otherwise it returns the position of its first occurrence. |
| Text.EqualFoldPointwise | policy.go:126 | Two strings are EqualFold exactly when they have the same length and agree position by position up to ASCII case. |
| Text.SplitJoin | policy.go:145 | Splitting at a separator undoes joining pieces that do not contain it. |
| Text.IntDecimalRoundTrip | policy.go:73 | The `%d` rendering of any integer, negative ones included, reads back to that integer. |
| Http.Response.WriteHeader | policy.go:134 | The first status written wins, and the headers are unchanged. |
| Http.Redirect | policy.go:197 | The headers become `RedirectHeaders` of the old ones, and the status is written under the first-write rule. |
| Http.RedirectHeadersEffect | policy.go:197 | After a redirect, Location holds the target. Content-Type is kept if present; otherwise it is set to `text/html; charset=utf-8` on GET and HEAD requests and stays absent on others. Every other header is untouched. |
| Http.UrlRoundTrip | policy.go:197 | A URL parses back from its text to the same scheme, host, path, query and ForceQuery flag. This needs a scheme without ':' and a host without '/' or '?', a path without '?' that is empty or starts with '/', and ForceQuery only with an empty query, as `url.Parse` leaves it. A URL with neither host nor path, written without "//", is included. |
| PolicyProperties.FrameOptionsPrecedence | policy.go:36-41 | X-Frame-Options carries the custom value whenever one is set, whatever FrameDeny says. It carries DENY only without one, and is absent when neither is set. |
| PolicyProperties.StsHeaderPresence | policy.go:62-74 | Strict-Transport-Security is present exactly when STSSeconds ≠ 0, negative values included. When present its value is `StsValue(seconds, includeSubdomains)`. |
| PolicyProperties.StsValueReadsBack | policy.go:63-73 | The STS value determines both the seconds and the subdomains flag, so distinct settings give distinct headers. |
| PolicyProperties.CompiledHeaderValues | policy.go:43-84 | The flag headers carry their fixed values exactly when their flag is set. CSP, Referrer-Policy and Feature-Policy carry the configured text verbatim exactly when it is non-empty. |
| PolicyProperties.CompiledShape | policy.go:32-92 | The compiled list has at most eight headers. Each has a one-element value list and a name from `HeaderOrder`. No name occurs twice, and the names appear in `HeaderOrder` order. |
| PolicyProperties.CompiledSlot | policy.go:32-85 | Looking up slot `i`'s name in the compiled list gives exactly that slot's configured value, if it has one. |
| PolicyProperties.CompiledOnlyKnownNames | policy.go:32-85 | No header other than the eight is ever compiled. |
| PolicyProperties.PresentShape | policy.go:87-92 | For any slots, the added headers have one-element values and slot names, in slot order. |
| PolicyProperties.PresentDistinct | policy.go:32-85 | Distinct slot names give a header list without a repeated name. |
| PolicyProperties.PresentLookup | policy.go:32-85 | With distinct slot names, looking up a slot's name finds exactly that slot's value. |
| PolicyProperties.OverwriteEffect | policy.go:108-113 | Writing distinct headers sets each listed name to its value and leaves every other name as it was (present or absent). |
| PolicyProperties.HeadersAfterApply | policy.go:94-113 | Outside development mode, every compiled header is in the response when `apply` returns or hands the request to the bad-host handler. On a redirect, Location holds the target. Every name other than the compiled ones, and, on a redirect, Location and Content-Type, keeps its earlier value, present or absent. |
| PolicyProperties.RedirectContentType | policy.go:197 | On a redirect, an existing Content-Type is kept. Without one, a GET or HEAD request gets `text/html; charset=utf-8` and any other method gets none. |
| PolicyProperties.ZeroConfigIsInert | secure_test.go:36-45 | The zero configuration compiles no header and lets every request continue. |
| PolicyProperties.DevelopmentBypass | policy.go:94-106 | In development mode the outcome is Continue, and the headers and status are left as they were. |
| PolicyProperties.HostAllowedIgnoresCase | policy.go:125-129 | Changing only the case of the request host does not change the allowed-hosts verdict. |
| PolicyProperties.HostFallsBackToUrlHost | policy.go:120-123 | With an empty `req.Host`, the allowed hosts are matched against `req.URL.Host`. |
| PolicyProperties.RedirectLocationReadsBack | policy.go:184-197 | The Location parses back to scheme https, the SSL host (else `req.Host`), and the request's path, query and ForceQuery flag. |
| PolicyProperties.BareQueryMarkKept | policy.go:184-197 | A request URL that ended in a bare '?' (ForceQuery) gives a Location that ends in '?'. |
| PolicyProperties.NoAuthorityWithoutHostOrPath | policy.go:184-197 | With no SSL host, an empty `req.Host` and an empty path, the Location is `https:` and the query, with no "//". |
| PolicyProperties.PlainHttpIsRedirected | policy.go:172-199 | Outside development mode, with SSL redirect on and the IPv4 exemption off, a plain-http request to an allowed host, with no proxy headers configured, is redirected with 301, or 307 when temporary. |
| PolicyProperties.LoopbackHostNotRedirected | policy.go:165-167 | With IPv4 hosts exempt, a request to `127.0.0.1`, with or without a port, is not redirected. |
| PolicyProperties.NamedHostStillRedirected | policy.go:165-167 | Outside development mode, with SSL redirect on, a plain-http request to an allowed host, with no proxy headers configured, is redirected when its host is a name, with or without a `:port`. A name here has no ':' and holds a character that is neither a digit nor a '.'. This holds whether or not IPv4 hosts are exempt. |
| PolicyProperties.ProxyHeaderMarksSsl | policy.go:153-163 | A configured proxy header whose first value matches, in any case, prevents the redirect. |

## Left out

- Policy.Policy.IsSslRequest: requires that no configured proxy header which the request carries has an empty value list. The source reads `hv[0]` unguarded, so such a request may panic, depending on the order in which Go visits the map; a request with the https scheme or TLS never reaches it. `net/http` never produces an empty value list from the wire.
- Policy.Policy.Apply: requires the same of any request that reaches the SSL check (`ApplyPrecondition`), for the same reason.
- Policy.Policy.CheckSsl: requires the same when SSL redirect is on.
- `strings.EqualFold` is modelled for ASCII case only. Unicode simple case folding is not modelled.
- `net.ParseIP` is modelled only on colon-free input, as the IPv4 dotted-quad grammar; that is the only input `isIPV4` hands it. Its IPv6 parsing is not modelled. The lemma that no IPv6 literal is accepted follows from the cut at the first ':'.
- The bad-host handler is modelled as "set or not". What it writes is not modelled; that is code the engine does not see. The header and status properties describe the response at the moment the handler is called, not after it has run.
- `http.Redirect` is reduced to its headers (Location and Content-Type) and the status. Its HTML body is not modelled. Nor is its rewriting of relative URLs, because the target here is always absolute. Its hex-escaping of non-ASCII bytes in the Location is not modelled either.
- Http.UrlString: `url.URL.String()` is modelled for a URL with a non-empty scheme (every redirect target has `https`). It covers ForceQuery, the "//" written only when there is a host or a path, and the '/' inserted between a host and a relative path. It does not model percent-escaping, user info, fragments, opaque URLs, `OmitHost`, or the "./" prefix for scheme-less URLs.
- PolicyProperties.RedirectLocationReadsBack: requires a path that is empty or starts with '/', a host without '/' or '?', and ForceQuery only with an empty query. A path such as `foo` with an empty host is written as `https://foo` and reads back as a host.
- `checkSSL` writes the scheme and host into the request's own `req.URL`, because it copies a pointer. The model builds a fresh URL value, so this aliasing side effect on the request is not modelled. In Go, after a redirect `req.URL.Scheme` is `https`, so a second `apply` on the same request continues instead of redirecting. `req.URL.Host` is also rewritten, so with an empty `req.Host` the next allowed-hosts check compares that new host.
- Policy.Policy.WriteSecureHeaders: `writeSecureHeaders` stores the compiled value slice itself in every response's header map, so a later handler that writes into `w.Header()[k][0]` changes that compiled header for every later request. Header values are `seq` values in the model, so this sharing is not modelled, and `fixedHeaders` never changes after construction.
- `STSSeconds` is unbounded here. The 64-bit range of Go's `int64` is not modelled.
- Go map iteration order is modelled as an arbitrary choice of the next key. The result does not depend on it.
- Concurrency is not modelled. The engine only reads its own state after construction.
- The gin adapter and `DefaultConfig` are not part of this model, and neither is the server that calls `apply` or the next handler.
