/**
 * The part of a DNS message (RFC 1035 section 4.1) that the resolver reads or
 * writes, and the two header-copying helpers of the `miekg/dns` library that
 * rhole.go calls, `Msg.SetReply` and `Msg.SetRcode`.
 */
module Dns {
  import opened Net

  type uint16 = x: int | 0 <= x < 0x1_0000
  type uint32 = x: int | 0 <= x < 0x1_0000_0000

  /** OPCODE 0: a standard query (RFC 1035 section 4.1.1). */
  const OpcodeQuery: nat := 0

  /** RCODE values (RFC 1035 section 4.1.1). */
  const RcodeSuccess: nat := 0
  const RcodeServerFailure: nat := 2
  const RcodeNameError: nat := 3
  const RcodeNotImplemented: nat := 4
  const RcodeRefused: nat := 5

  /** CLASS IN and TYPE SOA (RFC 1035 section 3.2). */
  const ClassINET: uint16 := 1
  const TypeSOA: uint16 := 6

  datatype Question = Question(name: string, qtype: uint16, qclass: uint16)

  datatype RRHeader = RRHeader(name: string, rrtype: uint16, rrclass: uint16, ttl: uint32)

  /** A resource record: the SOA that the resolver synthesizes, or any other
      record, kept as its header and uninterpreted data. */
  datatype RR =
    | SOA(hdr: RRHeader, ns: string, mbox: string, serial: uint32,
          refresh: uint32, retry: uint32, expire: uint32, minttl: uint32)
    | Opaque(hdr: RRHeader, rdata: seq<byte>)

  /** A message: the header bits the resolver touches and the four sections. */
  datatype Msg = Msg(
    id: uint16,
    response: bool,
    opcode: nat,
    recursionDesired: bool,
    recursionAvailable: bool,
    authenticatedData: bool,
    checkingDisabled: bool,
    rcode: nat,
    question: seq<Question>,
    answer: seq<RR>,
    ns: seq<RR>,
    extra: seq<RR>)

  /** `new(dns.Msg)`: every field zero. */
  const EmptyMsg: Msg := Msg(0, false, 0, false, false, false, false, 0, [], [], [], [])

  /** `Msg.SetReply(request)`: makes `reply` a response to `request` by copying
      its id and opcode (and, for a standard query, its RD and CD bits), setting
      the rcode to success and keeping only the request's first question. The
      other fields of `reply` (RA, AD, the record sections) are left as they were. */
  function SetReply(reply: Msg, request: Msg): (r: Msg)
    ensures r.id == request.id && r.response && r.opcode == request.opcode && r.rcode == RcodeSuccess
    ensures |request.question| > 0 ==> r.question == [request.question[0]]
    ensures |request.question| == 0 ==> r.question == reply.question
    ensures request.opcode == OpcodeQuery ==>
      r.recursionDesired == request.recursionDesired && r.checkingDisabled == request.checkingDisabled
    ensures request.opcode != OpcodeQuery ==>
      r.recursionDesired == reply.recursionDesired && r.checkingDisabled == reply.checkingDisabled
    ensures reply.question == [] ==> IsReplyTo(r, request)
    ensures r.recursionAvailable == reply.recursionAvailable && r.authenticatedData == reply.authenticatedData
    ensures r.answer == reply.answer && r.ns == reply.ns && r.extra == reply.extra
  {
    var query := request.opcode == OpcodeQuery;
    reply.(
      id := request.id,
      response := true,
      opcode := request.opcode,
      recursionDesired := if query then request.recursionDesired else reply.recursionDesired,
      checkingDisabled := if query then request.checkingDisabled else reply.checkingDisabled,
      rcode := RcodeSuccess,
      question := if |request.question| > 0 then request.question[..1] else reply.question)
  }

  /** `Msg.SetRcode(request, rcode)`: `SetReply` followed by setting the rcode. */
  function SetRcode(reply: Msg, request: Msg, rcode: nat): (r: Msg)
    ensures r.rcode == rcode
    ensures r.id == request.id && r.response && r.opcode == request.opcode
    ensures |request.question| > 0 ==> r.question == [request.question[0]]
    ensures |request.question| == 0 ==> r.question == reply.question
    ensures request.opcode == OpcodeQuery ==>
      r.recursionDesired == request.recursionDesired && r.checkingDisabled == request.checkingDisabled
    ensures request.opcode != OpcodeQuery ==>
      r.recursionDesired == reply.recursionDesired && r.checkingDisabled == reply.checkingDisabled
    ensures reply.question == [] ==> IsReplyTo(r, request)
    ensures r.recursionAvailable == reply.recursionAvailable && r.authenticatedData == reply.authenticatedData
    ensures r.answer == reply.answer && r.ns == reply.ns && r.extra == reply.extra
  {
    SetReply(reply, request).(rcode := rcode)
  }

  /** Replying twice to the same request is replying once. */
  lemma SetReplyIdempotent(reply: Msg, request: Msg)
    ensures SetReply(SetReply(reply, request), request) == SetReply(reply, request)
  {
  }

  /** `SetRcode` on a message already made a reply (as `ServeDNS` does for
      NOTIMP and SERVFAIL) is the same as on the original: the earlier
      `SetReply` leaves no trace but the later rcode. */
  lemma SetRcodeAfterSetReply(reply: Msg, request: Msg, rcode: nat)
    ensures SetRcode(SetReply(reply, request), request, rcode) == SetRcode(reply, request, rcode)
  {
  }

  /** `reply` answers `request`: same id and opcode, the QR bit set, the
      request's first question echoed, and the RD and CD bits of a standard
      query copied. */
  predicate IsReplyTo(reply: Msg, request: Msg) {
    && reply.id == request.id
    && reply.response
    && reply.opcode == request.opcode
    && reply.question == (if |request.question| > 0 then request.question[..1] else [])
    && (request.opcode == OpcodeQuery ==>
          reply.recursionDesired == request.recursionDesired
          && reply.checkingDisabled == request.checkingDisabled)
  }
}
