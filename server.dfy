/**
 * The query handler of rhole.go: the `Server` with its three wrapping 32-bit
 * counters, `ServeDNS`, which refuses, rejects, blocks or relays a query, and
 * `exchange`, which picks an upstream round-robin and applies the AD-flag
 * policy to its answer.
 *
 * The foreign calls are parameters: `toASCII` is the IDNA conversion,
 * `parseIP` is `net.ParseIP`, and `network(addr, query)` is the outcome of
 * `dns.Client.Exchange` with the upstream at `addr` (None for a transport
 * error or a timeout).
 */
module Rhole {
  import opened Wrappers
  import opened Net
  import opened Dns
  import opened Domain

  const TWO32: int := 0x1_0000_0000

  /** `atomic.AddUint32(&x, 1)`: one more, wrapping from 2^32 - 1 to 0. */
  function Inc(x: uint32): (r: uint32)
    ensures x < TWO32 - 1 ==> r == x + 1
    ensures x == TWO32 - 1 ==> r == 0
  {
    (x + 1) % TWO32
  }

  /** The upstream index `exchange` takes for the incremented counter value:
      the counter modulo `uint32(len(downstreams))`. That divisor must not be
      zero, and the index is then always a valid one. */
  function Pick(counter: uint32, n: nat): (i: nat)
    requires n % TWO32 != 0
    ensures i < n
    ensures n < TWO32 ==> i == counter % n
  {
    counter % (n % TWO32)
  }

  /** The indices that `k` consecutive calls of `exchange` choose, starting
      with the counter at `counter`. */
  function Picks(counter: uint32, n: nat, k: nat): (r: seq<nat>)
    requires n % TWO32 != 0
    ensures |r| == k
    ensures forall j :: 0 <= j < k ==> r[j] < n
    decreases k
  {
    if k == 0 then [] else [Pick(Inc(counter), n)] + Picks(Inc(counter), n, k - 1)
  }

  /** What `exchange` returns once the upstream `downstream` has been chosen:
      the transport error, or the upstream's answer with its AD flag cleared
      when it is a success from an address that is not loopback. */
  function Relay(parseIP: string -> Option<seq<byte>>, network: (string, Msg) -> Option<Msg>,
                 downstream: string, msg: Msg): (r: Option<Msg>)
    ensures r.None? <==> network(JoinHostPort(downstream, "53"), msg).None?
    ensures r.Some? ==>
      var resp := network(JoinHostPort(downstream, "53"), msg).value;
      && r.value == resp.(authenticatedData := r.value.authenticatedData)
      && (r.value.authenticatedData <==>
            resp.authenticatedData && (resp.rcode != RcodeSuccess || IsLoopback(parseIP, downstream)))
  {
    match network(JoinHostPort(downstream, "53"), msg)
    case None => None
    case Some(resp) =>
      if resp.rcode != RcodeSuccess then Some(resp)
      else if !IsLoopback(parseIP, downstream) then Some(resp.(authenticatedData := false))
      else Some(resp)
  }

  /** What `ServeDNS` decides about a query before any exchange. */
  datatype Verdict = Refused | NotImplemented | Blocked | Relayed

  /** The decision: REFUSED for an opcode other than QUERY, NOTIMP for a first
      question of a class other than IN, a block for a denylisted key, and a
      relay otherwise. A QUERY must carry a question (the handler reads the
      first one). */
  function Classify(blacklist: set<string>, toASCII: string -> Option<string>, m: Msg): (v: Verdict)
    requires m.opcode == OpcodeQuery ==> |m.question| > 0
    ensures v == Refused <==> m.opcode != OpcodeQuery
    ensures v == NotImplemented <==> m.opcode == OpcodeQuery && m.question[0].qclass != ClassINET
    ensures v == Blocked <==>
      m.opcode == OpcodeQuery && m.question[0].qclass == ClassINET && Normalize(toASCII, m.question[0].name) in blacklist
    ensures v == Relayed <==>
      m.opcode == OpcodeQuery && m.question[0].qclass == ClassINET && Normalize(toASCII, m.question[0].name) !in blacklist
  {
    if m.opcode != OpcodeQuery then Refused
    else if m.question[0].qclass != ClassINET then NotImplemented
    else if Normalize(toASCII, m.question[0].name) in blacklist then Blocked
    else Relayed
  }

  /** The reply to a query with an opcode other than QUERY: a fresh message
      answering the query with REFUSED. RA is not set on this path. */
  function RefusedReply(m: Msg): (r: Msg)
    ensures IsReplyTo(r, m)
    ensures r.rcode == RcodeRefused
    ensures !r.recursionAvailable && !r.authenticatedData
    ensures r.answer == [] && r.ns == [] && r.extra == []
  {
    SetRcode(EmptyMsg, m, RcodeRefused)
  }

  /** The reply every accepted query starts from: a reply to it with RA set. */
  function Accepted(m: Msg): (r: Msg)
    ensures IsReplyTo(r, m)
    ensures r.rcode == RcodeSuccess
    ensures r.recursionAvailable && !r.authenticatedData
    ensures r.answer == [] && r.ns == [] && r.extra == []
  {
    SetReply(EmptyMsg, m).(recursionAvailable := true)
  }

  /** The reply to a QUERY whose first question is not of class IN. */
  function NotImplementedReply(m: Msg): (r: Msg)
    ensures IsReplyTo(r, m)
    ensures r.rcode == RcodeNotImplemented
    ensures r.recursionAvailable && !r.authenticatedData
    ensures r.answer == [] && r.ns == [] && r.extra == []
  {
    SetRcode(Accepted(m), m, RcodeNotImplemented)
  }

  /** The reply to a relayed query whose exchange failed. */
  function ServerFailureReply(m: Msg): (r: Msg)
    ensures IsReplyTo(r, m)
    ensures r.rcode == RcodeServerFailure
    ensures r.recursionAvailable && !r.authenticatedData
    ensures r.answer == [] && r.ns == [] && r.extra == []
  {
    SetRcode(Accepted(m), m, RcodeServerFailure)
  }

  /** The synthesized NXDOMAIN for a denylisted query: no answer, and exactly
      one authority record, an SOA owned by the queried name. */
  function BlockedReply(m: Msg): (r: Msg)
    requires |m.question| > 0
    ensures IsReplyTo(r, m)
    ensures r.rcode == RcodeNameError
    ensures r.recursionAvailable && !r.authenticatedData
    ensures r.answer == [] && r.extra == []
    ensures |r.ns| == 1 && r.ns[0].SOA?
    ensures r.ns[0].hdr == RRHeader(m.question[0].name, TypeSOA, ClassINET, 9999)
    ensures r.ns[0].ns == "invalid." && r.ns[0].mbox == "hostmaster.invalid."
    ensures r.ns[0].serial == 1 && r.ns[0].refresh == 900 && r.ns[0].retry == 900
    ensures r.ns[0].expire == 1800 && r.ns[0].minttl == 60
  {
    Accepted(m).(rcode := RcodeNameError, recursionAvailable := true, ns := [SOA(RRHeader(m.question[0].name, TypeSOA, ClassINET, 9999),
                   "invalid.", "hostmaster.invalid.", 1, 900, 900, 1800, 60)])
  }

  /** The message `ServeDNS` writes for a verdict other than a relay. */
  function LocalReply(m: Msg, v: Verdict): (r: Msg)
    requires v != Relayed
    requires v != Refused ==> |m.question| > 0
    ensures IsReplyTo(r, m)
    ensures r.recursionAvailable <==> v != Refused
    ensures !r.authenticatedData
    ensures v == Refused ==> r.rcode == RcodeRefused
    ensures v == NotImplemented ==> r.rcode == RcodeNotImplemented
    ensures v == Blocked ==> r.rcode == RcodeNameError && r.answer == [] && |r.ns| == 1 && r.extra == []
    ensures v != Blocked ==> r.answer == [] && r.ns == [] && r.extra == []
  {
    match v
    case Refused => RefusedReply(m)
    case NotImplemented => NotImplementedReply(m)
    case Blocked => BlockedReply(m)
  }

  /** The message `ServeDNS` writes for a relayed query, given what `exchange`
      returned. */
  function RelayedReply(m: Msg, relayed: Option<Msg>): (r: Msg)
    ensures relayed.Some? ==> r == relayed.value
    ensures relayed.None? ==> r.rcode == RcodeServerFailure && IsReplyTo(r, m)
  {
    match relayed
    case None => ServerFailureReply(m)
    case Some(resp) => resp
  }

  /** The three counters of a `Server`. */
  datatype Counters = Counters(serverIndx: uint32, blockedCnt: uint32, totalCnt: uint32)

  /** How one query moves the counters: accepted queries count towards the
      total, blocked ones also towards the blocked count, and relayed ones
      advance the round-robin counter. */
  function Step(c: Counters, v: Verdict): (d: Counters)
    ensures v in {Refused, NotImplemented} ==> d == c
    ensures v == Blocked ==> d == Counters(c.serverIndx, Inc(c.blockedCnt), Inc(c.totalCnt))
    ensures v == Relayed ==> d == Counters(Inc(c.serverIndx), c.blockedCnt, Inc(c.totalCnt))
  {
    match v
    case Refused => c
    case NotImplemented => c
    case Blocked => c.(blockedCnt := Inc(c.blockedCnt), totalCnt := Inc(c.totalCnt))
    case Relayed => c.(serverIndx := Inc(c.serverIndx), totalCnt := Inc(c.totalCnt))
  }

  /** The counters after a run of queries with the given verdicts. */
  function Steps(c: Counters, vs: seq<Verdict>): Counters
    decreases |vs|
  {
    if vs == [] then c else Steps(Step(c, vs[0]), vs[1..])
  }

  /** The number of verdicts in `vs` that are among `these`. */
  function Count(vs: seq<Verdict>, these: set<Verdict>): (k: nat)
    ensures k <= |vs|
    decreases |vs|
  {
    if vs == [] then 0 else (if vs[0] in these then 1 else 0) + Count(vs[1..], these)
  }

  /** Over any run the counters do modular counting: the total counts the
      accepted queries, the blocked count the blocks and the round-robin
      counter the relays, each modulo 2^32. */
  lemma {:induction false} StepsCount(c: Counters, vs: seq<Verdict>)
    ensures Steps(c, vs).totalCnt == (c.totalCnt + Count(vs, {Blocked, Relayed})) % TWO32
    ensures Steps(c, vs).blockedCnt == (c.blockedCnt + Count(vs, {Blocked})) % TWO32
    ensures Steps(c, vs).serverIndx == (c.serverIndx + Count(vs, {Relayed})) % TWO32
    decreases |vs|
  {
    if vs != [] {
      var d := Step(c, vs[0]);
      StepsCount(d, vs[1..]);
      IncMod(c.totalCnt, Count(vs[1..], {Blocked, Relayed}));
      IncMod(c.blockedCnt, Count(vs[1..], {Blocked}));
      IncMod(c.serverIndx, Count(vs[1..], {Relayed}));
    }
  }

  /** Counting one then `k` more is counting `k + 1`, modulo 2^32. */
  lemma IncMod(x: uint32, k: nat)
    ensures (Inc(x) + k) % TWO32 == (x + (1 + k)) % TWO32
  {
    if x == TWO32 - 1 {
      assert x + (1 + k) == k + TWO32;
    }
  }

  /** From fresh counters, a run of fewer than 2^32 accepted queries never
      counts more blocks than queries. */
  lemma BlockedAtMostTotal(vs: seq<Verdict>)
    requires Count(vs, {Blocked, Relayed}) < TWO32
    ensures Steps(Counters(0, 0, 0), vs).blockedCnt <= Steps(Counters(0, 0, 0), vs).totalCnt
  {
    StepsCount(Counters(0, 0, 0), vs);
    CountSubset(vs, {Blocked}, {Blocked, Relayed});
  }

  lemma {:induction false} CountSubset(vs: seq<Verdict>, small: set<Verdict>, large: set<Verdict>)
    requires small <= large
    ensures Count(vs, small) <= Count(vs, large)
    decreases |vs|
  {
    if vs != [] {
      CountSubset(vs[1..], small, large);
    }
  }

  /** While the counter does not wrap, `n` consecutive relays go to `n`
      different upstreams, so every upstream gets one of them. */
  lemma RoundRobinCovers(counter: uint32, n: nat)
    requires 0 < n < TWO32
    requires counter + n < TWO32
    ensures forall i, j :: 0 <= i < j < n ==> Picks(counter, n, n)[i] != Picks(counter, n, n)[j]
    ensures forall t :: 0 <= t < n ==> t in Picks(counter, n, n)
  {
    PicksNoWrap(counter, n, n);
    RotationDistinct(Picks(counter, n, n), counter + 1, n);
    RotationHits(Picks(counter, n, n), counter + 1, n);
  }

  lemma RotationDistinct(p: seq<nat>, a: nat, n: nat)
    requires 0 < n && |p| == n
    requires forall j :: 0 <= j < n ==> p[j] == (a + j) % n
    ensures forall i, j :: 0 <= i < j < n ==> p[i] != p[j]
  {
    forall i, j | 0 <= i < j < n
      ensures p[i] != p[j]
    {
      ModDistinct(a + i, a + j, n);
    }
  }

  lemma RotationHits(p: seq<nat>, a: nat, n: nat)
    requires 0 < n && |p| == n
    requires forall j :: 0 <= j < n ==> p[j] == (a + j) % n
    ensures forall t :: 0 <= t < n ==> t in p
  {
    forall t | 0 <= t < n
      ensures t in p
    {
      var j := (t - a) % n;
      ModHits(a, t, n);
      assert p[j] == t;
    }
  }

  /** Without wrap-around, the `j`-th relay takes counter + 1 + j modulo `n`. */
  lemma {:induction false} PicksNoWrap(counter: uint32, n: nat, k: nat)
    requires 0 < n < TWO32
    requires counter + k < TWO32
    ensures forall j :: 0 <= j < k ==> Picks(counter, n, k)[j] == (counter + 1 + j) % n
    decreases k
  {
    if k > 0 {
      var next := Inc(counter);
      assert next == counter + 1;
      PicksNoWrap(next, n, k - 1);
      var p := Picks(counter, n, k);
      assert p == [Pick(next, n)] + Picks(next, n, k - 1);
      forall j | 0 <= j < k
        ensures p[j] == (counter + 1 + j) % n
      {
        if j > 0 {
          assert p[j] == Picks(next, n, k - 1)[j - 1];
        }
      }
    }
  }

  /** Two numbers less than `n` apart have different remainders. */
  lemma ModDistinct(a: nat, b: nat, n: nat)
    requires 0 < n && a < b < a + n
    ensures a % n != b % n
  {
    var q, r, d := a / n, a % n, b - a;
    assert b == q * n + (r + d);
    if r + d < n {
      ModUnique(b, q, r + d, n);
    } else {
      assert (q + 1) * n == q * n + n;
      ModUnique(b, q + 1, r + d - n, n);
    }
  }

  /** Every remainder `t` is hit within `n` steps of `a`. */
  lemma ModHits(a: nat, t: nat, n: nat)
    requires t < n
    ensures 0 <= (t - a) % n < n
    ensures (a + (t - a) % n) % n == t
  {
    var d := (t - a) % n;
    var q := (t - a) / n;
    assert t - a == q * n + d;
    ModUnique(a + d, -q, t, n);
  }

  /** Division by `n` is determined by a quotient and a remainder below `n`. */
  lemma ModUnique(x: int, q: int, r: int, n: nat)
    requires 0 <= r < n
    requires x == q * n + r
    ensures x % n == r && x / n == q
  {
    var q', r' := x / n, x % n;
    assert x == q' * n + r';
    assert (q - q') * n == r' - r;
    MulSign(q - q', n);
  }

  /** The sign of a multiple of `n`. */
  lemma {:induction false} MulSign(k: int, n: nat)
    ensures k >= 1 ==> k * n >= n
    ensures k <= 0 ==> k * n <= 0
    decreases if k < 0 then -k else k
  {
    if k > 1 {
      MulSign(k - 1, n);
      assert k * n == (k - 1) * n + n;
    } else if k < 0 {
      MulSign(k + 1, n);
      assert k * n == (k + 1) * n - n;
    }
  }

  /** A counter that wraps breaks the rotation: with three upstreams and the
      counter at 2^32 - 2, three relays go to upstreams 0, 0 and 1, and
      upstream 2 gets none (2^32 is not a multiple of three). */
  lemma RoundRobinWrapSkips()
    ensures Picks(TWO32 - 2, 3, 3) == [0, 0, 1]
  {
    assert Inc(TWO32 - 2) == TWO32 - 1;
    assert Inc(TWO32 - 1) == 0;
    assert Inc(0) == 1;
    assert Pick(TWO32 - 1, 3) == 0;
    assert Pick(0, 3) == 0;
    assert Pick(1, 3) == 1;
    assert Picks(0, 3, 1) == [1];
    assert Picks(TWO32 - 1, 3, 2) == [0, 1];
  }

  /** The server: a read-only denylist and upstream list, and three counters
      updated in place. */
  class Server {
    var serverIndx: uint32
    var blockedCnt: uint32
    var totalCnt: uint32
    const blacklist: set<string>
    const downstreams: seq<string>

    /** The `Server` value `NewServer` builds (without its listeners and
        client): the counters start at zero. */
    constructor (blacklist: set<string>, downstreams: seq<string>)
      ensures this.blacklist == blacklist && this.downstreams == downstreams
      ensures serverIndx == 0 && blockedCnt == 0 && totalCnt == 0
    {
      this.blacklist := blacklist;
      this.downstreams := downstreams;
      serverIndx := 0;
      blockedCnt := 0;
      totalCnt := 0;
    }

    function CountersNow(): Counters
      reads this
    {
      Counters(serverIndx, blockedCnt, totalCnt)
    }

    /** `exchange`: advance the round-robin counter, forward the query to the
        upstream it selects and apply the AD-flag policy to the answer. The
        upstream list must not be empty (nor of a length that is a multiple
        of 2^32), or the modulo would divide by zero. */
    method Exchange(msg: Msg, parseIP: string -> Option<seq<byte>>, network: (string, Msg) -> Option<Msg>)
      returns (r: Option<Msg>)
      requires |downstreams| % TWO32 != 0
      modifies this`serverIndx
      ensures serverIndx == Inc(old(serverIndx))
      ensures r == Relay(parseIP, network, downstreams[Pick(serverIndx, |downstreams|)], msg)
    {
      serverIndx := Inc(serverIndx);
      var offset: int := serverIndx % (|downstreams| % TWO32);
      if offset < 0 {
        // The remainder of a uint32 is never negative.
        assert false;
      }
      var downstream := downstreams[offset];
      var resp := network(JoinHostPort(downstream, "53"), msg);
      if resp.None? {
        return None;
      }
      var answer := resp.value;
      if answer.rcode != RcodeSuccess {
        return Some(answer);
      }
      if !IsLoopback(parseIP, downstream) {
        answer := answer.(authenticatedData := false);
      }
      return Some(answer);
    }

    /** `ServeDNS`: classify the query, move the counters accordingly and
        return the message written back to the client. */
    method ServeDNS(m: Msg, toASCII: string -> Option<string>, parseIP: string -> Option<seq<byte>>,
                    network: (string, Msg) -> Option<Msg>)
      returns (written: Msg)
      requires m.opcode == OpcodeQuery ==> |m.question| > 0
      requires Classify(blacklist, toASCII, m) == Relayed ==> |downstreams| % TWO32 != 0
      modifies this
      ensures CountersNow() == Step(old(CountersNow()), Classify(blacklist, toASCII, m))
      ensures Classify(blacklist, toASCII, m) != Relayed ==>
                written == LocalReply(m, Classify(blacklist, toASCII, m))
      ensures Classify(blacklist, toASCII, m) == Relayed ==>
                written == RelayedReply(m, Relay(parseIP, network, downstreams[Pick(serverIndx, |downstreams|)], m))
    {
      var reply := EmptyMsg;
      if m.opcode != OpcodeQuery {
        reply := SetRcode(reply, m, RcodeRefused);
        return reply;
      }
      reply := SetReply(reply, m);
      reply := reply.(recursionAvailable := true);
      var q := m.question[0];
      if q.qclass != ClassINET {
        reply := SetRcode(reply, m, RcodeNotImplemented);
        return reply;
      }
      totalCnt := Inc(totalCnt);
      var key := Normalize(toASCII, q.name);
      if key in blacklist {
        var soa := SOA(RRHeader(q.name, TypeSOA, ClassINET, 9999),
                       "invalid.", "hostmaster.invalid.", 1, 900, 900, 1800, 60);
        reply := reply.(rcode := RcodeNameError, recursionAvailable := true, ns := [soa]);
        blockedCnt := Inc(blockedCnt);
        return reply;
      }
      var downReply := Exchange(m, parseIP, network);
      if downReply.None? {
        reply := SetRcode(reply, m, RcodeServerFailure);
        return reply;
      }
      return downReply.value;
    }
  }
}
