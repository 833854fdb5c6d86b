/**
 * `isIPV4`: whether a host, possibly followed by `:port`, is a literal IPv4
 * address. `net.ParseIP` is modelled, for the colon-free strings that reach
 * it here, as the strict dotted-quad grammar: exactly four decimal fields
 * separated by '.', each without a leading zero and at most 255, as Go 1.17
 * and later parse it.
 */
module Ipv4 {
  import opened Text

  /** One field of a dotted quad: canonical decimal digits whose value is at most 255. */
  predicate IsOctetField(f: string)
  {
    IsCanonicalDigits(f) && DigitsValue(f) <= 255
  }

  /** `net.ParseIP(s) != nil` for a string without ':' (the IPv4 grammar). */
  predicate ParsesAsIPv4(s: string)
  {
    var fields := Split(s, '.');
    |fields| == 4 && forall i :: 0 <= i < 4 ==> IsOctetField(fields[i])
  }

  /** The dotted-quad text of four numbers. */
  function Quad(a: nat, b: nat, c: nat, d: nat): string
  {
    NatToDecimal(a) + "." + NatToDecimal(b) + "." + NatToDecimal(c) + "." + NatToDecimal(d)
  }

  /** Reference definition: `s` is the rendering of four octets. */
  ghost predicate IsDottedQuad(s: string)
  {
    exists a: nat, b: nat, c: nat, d: nat :: a <= 255 && b <= 255 && c <= 255 && d <= 255 && s == Quad(a, b, c, d)
  }

  /** Four pieces joined with '.'. */
  lemma JoinFour(f: seq<string>)
    requires |f| == 4
    ensures Join(f, '.') == f[0] + "." + f[1] + "." + f[2] + "." + f[3]
  {
    assert Join(f[3..], '.') == f[3];
    assert Join(f[2..], '.') == f[2] + "." + f[3] by { assert f[2..][1..] == f[3..]; }
    assert Join(f[1..], '.') == f[1] + "." + f[2] + "." + f[3] by { assert f[1..][1..] == f[2..]; }
  }

  /** Every string the parser accepts is the rendering of four octets. */
  lemma ParsedIsDottedQuad(s: string)
    requires ParsesAsIPv4(s)
    ensures IsDottedQuad(s)
  {
    var f := Split(s, '.');
    JoinFour(f);
    CanonicalDigitsRoundTrip(f[0]);
    CanonicalDigitsRoundTrip(f[1]);
    CanonicalDigitsRoundTrip(f[2]);
    CanonicalDigitsRoundTrip(f[3]);
    assert s == Quad(DigitsValue(f[0]), DigitsValue(f[1]), DigitsValue(f[2]), DigitsValue(f[3]));
  }

  /** The rendering of an octet is a field of a dotted quad, and holds no '.'. */
  lemma OctetRendering(n: nat)
    requires n <= 255
    ensures IsOctetField(NatToDecimal(n)) && '.' !in NatToDecimal(n)
  {
    NatDecimalRoundTrip(n);
  }

  /** The rendering of any four octets is accepted by the parser. */
  lemma QuadParses(a: nat, b: nat, c: nat, d: nat)
    requires a <= 255 && b <= 255 && c <= 255 && d <= 255
    ensures ParsesAsIPv4(Quad(a, b, c, d))
  {
    var f := [NatToDecimal(a), NatToDecimal(b), NatToDecimal(c), NatToDecimal(d)];
    OctetRendering(a);
    OctetRendering(b);
    OctetRendering(c);
    OctetRendering(d);
    JoinFour(f);
    assert Join(f, '.') == Quad(a, b, c, d);
    assert forall i :: 0 <= i < |f| ==> '.' !in f[i] && IsOctetField(f[i]);
    SplitJoin(f, '.');
  }

  /** The parser accepts exactly the renderings of four octets. */
  lemma ParsesAsIPv4Iff(s: string)
    ensures ParsesAsIPv4(s) <==> IsDottedQuad(s)
  {
    if ParsesAsIPv4(s) {
      ParsedIsDottedQuad(s);
    }
    if IsDottedQuad(s) {
      var a: nat, b: nat, c: nat, d: nat :| a <= 255 && b <= 255 && c <= 255 && d <= 255 && s == Quad(a, b, c, d);
      QuadParses(a, b, c, d);
    }
  }

  /** The host with a `:port` suffix removed: everything before the first ':'. */
  function HostWithoutPort(host: string): (h: string)
    ensures ':' !in h
    ensures h == host || (h < host && host[|h|] == ':')
  {
    var index := IndexByte(host, ':');
    if index != -1 then host[..index] else host
  }

  /**
   * `isIPV4`: the host, cut at its first ':', is a dotted quad. The cut means
   * that no IPv6 literal is ever accepted, bracketed or not.
   */
  function IsIPv4(host: string): (r: bool)
    ensures ':' !in host ==> (r <==> IsDottedQuad(host))
    ensures forall i :: 0 <= i < |host| && host[i] == ':' && ':' !in host[..i] ==> (r <==> IsDottedQuad(host[..i]))
  {
    var h := HostWithoutPort(host);
    ParsesAsIPv4Iff(h);
    ParsesAsIPv4(h)
  }

  /**
   * A host whose text before its first ':' holds no '.' is never IPv4. Every
   * IPv6 literal is such a host, bare (`2001:db8::1`, `::1`) or bracketed
   * (`[fe80::1]:8080`): what precedes its first ':' is one hex group, nothing,
   * or '[' and a hex group.
   */
  lemma IPv6NeverIPv4(host: string, i: nat)
    requires i < |host| && host[i] == ':' && ':' !in host[..i] && '.' !in host[..i]
    ensures !IsIPv4(host)
  {
    IndexByteAt(host, ':', i);
    var h := host[..i];
    assert HostWithoutPort(host) == h;
    assert Split(h, '.') == [h];
  }

  /** Cutting at the first ':' removes exactly a `:port` suffix from a colon-free name. */
  lemma HostWithoutPortOf(name: string, port: string)
    requires ':' !in name
    ensures HostWithoutPort(name) == name
    ensures HostWithoutPort(name + ":" + port) == name
  {
    var host := name + ":" + port;
    assert host[..|name|] == name;
    IndexByteAt(host, ':', |name|);
  }

  lemma LoopbackRendering(ip: string)
    requires ip == "127.0.0.1"
    ensures ip == Quad(127, 0, 0, 1)
  {
    assert NatToDecimal(12) == "12";
    assert NatToDecimal(127) == "127";
  }

  /** The loopback address is IPv4, with or without a port. */
  lemma LoopbackIsIPv4(ip: string, port: string)
    requires ip == "127.0.0.1"
    ensures IsIPv4(ip) && IsIPv4(ip + ":" + port)
  {
    assert ParsesAsIPv4(ip) by {
      LoopbackRendering(ip);
      QuadParses(127, 0, 0, 1);
    }
    HostWithoutPortOf(ip, port);
  }

  /** Every character is a digit or a dot. */
  predicate DigitsAndDots(s: string)
  {
    forall i :: 0 <= i < |s| ==> IsDigit(s[i]) || s[i] == '.'
  }

  lemma DigitsAndDotsAppend(a: string, b: string)
    requires DigitsAndDots(a) && DigitsAndDots(b)
    ensures DigitsAndDots(a + b)
  {
    assert forall i :: |a| <= i < |a + b| ==> (a + b)[i] == b[i - |a|];
  }

  /** A string the IPv4 grammar accepts holds nothing but digits and dots. */
  lemma ParsedIsDigitsAndDots(s: string)
    requires ParsesAsIPv4(s)
    ensures DigitsAndDots(s)
  {
    var f := Split(s, '.');
    JoinFour(f);
    DigitsAndDotsAppend(f[0], ".");
    DigitsAndDotsAppend(f[0] + ".", f[1]);
    DigitsAndDotsAppend(f[0] + "." + f[1], ".");
    DigitsAndDotsAppend(f[0] + "." + f[1] + ".", f[2]);
    DigitsAndDotsAppend(f[0] + "." + f[1] + "." + f[2], ".");
    DigitsAndDotsAppend(f[0] + "." + f[1] + "." + f[2] + ".", f[3]);
  }

  /**
   * A host name with a character that is neither a digit nor a dot (`localhost`,
   * `example.com`) is never IPv4, with or without a port.
   */
  lemma NameIsNotIPv4(name: string, port: string, k: nat)
    requires ':' !in name && k < |name| && !IsDigit(name[k]) && name[k] != '.'
    ensures !IsIPv4(name) && !IsIPv4(name + ":" + port)
  {
    HostWithoutPortOf(name, port);
    if ParsesAsIPv4(name) {
      ParsedIsDigitsAndDots(name);
    }
  }
}
