/**
 * The pieces of Go's `net` package that rhole.go uses: `JoinHostPort`, and the
 * loopback test behind `isLoopback`. Address parsing (`net.ParseIP`) is a
 * parameter: it returns the address bytes, or None for a string that is not an
 * IP address.
 */
module Net {
  import opened Wrappers

  type byte = x: int | 0 <= x < 256

  /** The IPv6 loopback address ::1. */
  const IPv6Loopback: seq<byte> := [0, 0, 0, 0, 0, 0, 0, 0, 0, 0, 0, 0, 0, 0, 0, 1]

  /** The first twelve bytes of an IPv4-mapped IPv6 address (::ffff:a.b.c.d). */
  const V4InV6Prefix: seq<byte> := [0, 0, 0, 0, 0, 0, 0, 0, 0, 0, 255, 255]

  /** `net.IP.To4`: the four-byte form of an IPv4 address, given in its
      four-byte form or as an IPv4-mapped IPv6 address. */
  function To4(ip: seq<byte>): (r: Option<seq<byte>>)
    ensures r.Some? ==> |r.value| == 4 && |ip| >= 4 && r.value == ip[|ip| - 4..]
    ensures |ip| == 4 ==> r == Some(ip)
    ensures |ip| == 16 ==> (r.Some? <==> ip[..12] == V4InV6Prefix)
    ensures |ip| != 4 && |ip| != 16 ==> r.None?
  {
    if |ip| == 4 then Some(ip)
    else if |ip| == 16 && ip[..10] == [0, 0, 0, 0, 0, 0, 0, 0, 0, 0] && ip[10] == 255 && ip[11] == 255
    then Some(ip[12..])
    else None
  }

  /** `net.IP.IsLoopback`: 127.0.0.0/8, in either form of an IPv4 address,
      or ::1. */
  predicate IsLoopbackIP(ip: seq<byte>): (b: bool)
    ensures b <==>
      || (|ip| == 4 && ip[0] == 127)
      || (|ip| == 16 && ip[..12] == V4InV6Prefix && ip[12] == 127)
      || ip == IPv6Loopback
  {
    match To4(ip)
    case Some(v4) => v4[0] == 127
    case None => ip == IPv6Loopback
  }

  /** `isLoopback` (rhole.go): an address is a loopback address exactly when
      it parses, to 127.x.y.z in its four- or sixteen-byte form or to ::1. */
  predicate IsLoopback(parseIP: string -> Option<seq<byte>>, addr: string): (b: bool)
    ensures b <==> (
      && parseIP(addr).Some?
      && var ip := parseIP(addr).value;
         || (|ip| == 4 && ip[0] == 127)
         || (|ip| == 16 && ip[..12] == V4InV6Prefix && ip[12] == 127)
         || ip == IPv6Loopback)
  {
    match parseIP(addr)
    case None => false
    case Some(ip) => IsLoopbackIP(ip)
  }

  /** 127.0.0.1 and ::1, in the sixteen-byte form that `net.ParseIP` produces,
      are loopback addresses; 8.8.8.8 is not. */
  lemma LoopbackExamples()
    ensures IsLoopbackIP([0, 0, 0, 0, 0, 0, 0, 0, 0, 0, 255, 255, 127, 0, 0, 1])
    ensures IsLoopbackIP(IPv6Loopback)
    ensures !IsLoopbackIP([0, 0, 0, 0, 0, 0, 0, 0, 0, 0, 255, 255, 8, 8, 8, 8])
  {
    var v4 := [0, 0, 0, 0, 0, 0, 0, 0, 0, 0, 255, 255, 127, 0, 0, 1];
    assert v4[..10] == [0, 0, 0, 0, 0, 0, 0, 0, 0, 0];
    assert v4[12..] == [127, 0, 0, 1];
    assert IPv6Loopback[10] == 0;
    var g := [0, 0, 0, 0, 0, 0, 0, 0, 0, 0, 255, 255, 8, 8, 8, 8];
    assert g[..10] == [0, 0, 0, 0, 0, 0, 0, 0, 0, 0];
    assert g[12..] == [8, 8, 8, 8];
  }

  /** `net.JoinHostPort`: "host:port", with the host in brackets when it
      contains a colon (an IPv6 literal). */
  function JoinHostPort(host: string, port: string): (r: string)
    ensures |r| == |host| + |port| + 1 + (if ':' in host then 2 else 0)
    ensures r[|r| - |port| - 1..] == [':'] + port
  {
    if ':' in host then "[" + host + "]:" + port else host + ":" + port
  }

  /** The last position of `c` in `s`, or -1. */
  function LastIndex(s: string, c: char): (i: int)
    ensures -1 <= i < |s|
    ensures 0 <= i ==> s[i] == c && c !in s[i + 1..]
    ensures i == -1 ==> c !in s
    decreases |s|
  {
    if s == [] then -1
    else if s[|s| - 1] == c then |s| - 1
    else
      var j := LastIndex(s[..|s| - 1], c);
      assert s == s[..|s| - 1] + [s[|s| - 1]];
      assert j >= 0 ==> s[j + 1..] == s[..|s| - 1][j + 1..] + [s[|s| - 1]];
      j
  }

  /** A reference inverse of `JoinHostPort` (the form `net.SplitHostPort`
      accepts for these strings): the port follows the last colon, and the
      host has its brackets removed. */
  function SplitHostPort(s: string): Option<(string, string)> {
    var i := LastIndex(s, ':');
    if i < 0 then None else Some((Unbracket(s[..i]), s[i + 1..]))
  }

  predicate Bracketed(h: string) {
    |h| >= 2 && h[0] == '[' && h[|h| - 1] == ']'
  }

  function Unbracket(h: string): string {
    if Bracketed(h) then h[1..|h| - 1] else h
  }

  /** The address `exchange` dials gives back its host and port, for a port
      without colons and a host that is not itself written in brackets. */
  lemma {:induction false} JoinHostPortRoundTrip(host: string, port: string)
    requires ':' !in port
    requires ':' !in host ==> !Bracketed(host)
    ensures SplitHostPort(JoinHostPort(host, port)) == Some((host, port))
  {
    var pre := if ':' in host then "[" + host + "]" else host;
    assert JoinHostPort(host, port) == pre + [':'] + port;
    SplitAfter(pre, port);
    if ':' in host {
      assert Bracketed(pre);
      assert pre[1..|pre| - 1] == host;
    }
  }

  lemma SplitAfter(pre: string, port: string)
    requires ':' !in port
    ensures SplitHostPort(pre + [':'] + port) == Some((Unbracket(pre), port))
  {
    var s := pre + [':'] + port;
    LastColonBeforePort(pre, port);
    assert s[..|pre|] == pre;
    assert s[|pre| + 1..] == port;
  }

  lemma {:induction false} LastColonBeforePort(pre: string, port: string)
    requires ':' !in port
    ensures LastIndex(pre + [':'] + port, ':') == |pre|
    decreases |port|
  {
    var s := pre + [':'] + port;
    if port != [] {
      assert s[..|s| - 1] == pre + [':'] + port[..|port| - 1];
      assert s[|s| - 1] == port[|port| - 1];
      LastColonBeforePort(pre, port[..|port| - 1]);
    }
  }
}
