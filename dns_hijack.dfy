/** The captive-portal DNS responder: a bounded parser over the received
    datagram and an in-place encoder of the reply (RFC 1035 wire format:
    header section 4.1.1, question section 4.1.2, resource record section
    4.1.3, name compression section 4.1.4, TYPE A section 3.2.2, CLASS IN
    section 3.2.4, 512-octet UDP messages section 2.3.4). */
module DnsHijack {
  import opened Common

  const HeaderSize: nat := 12      // sizeof(dns_header_t)
  const AnswerSize: nat := 16      // one A record with a compressed name
  const TypeA: nat := 1
  const ClassIn: nat := 1
  const ReplyFlags: nat := 0x8180  // QR=1, RD=1, RA=1, RCODE=0
  const RxSize: nat := 512         // uint8_t rx[512]
  const TxSize: nat := 544         // uint8_t tx[544]

  /** rd16: the big-endian 16-bit value at offset `i`. */
  function Rd16(b: seq<Byte>, i: nat): (v: nat)
    requires i + 2 <= |b|
    ensures v < 0x1_0000
    ensures v / 256 == b[i] && v % 256 == b[i + 1]
  {
    (b[i] as int) * 256 + b[i + 1]
  }

  /** The two bytes wr16 stores for `v`, high byte first. */
  function Be16(v: nat): (b: seq<Byte>)
    requires v < 0x1_0000
    ensures |b| == 2
  {
    [v / 256, v % 256]
  }

  lemma Rd16OfBe16(v: nat)
    requires v < 0x1_0000
    ensures Rd16(Be16(v), 0) == v
  {
  }

  lemma Be16OfRd16(b: seq<Byte>, i: nat)
    requires i + 2 <= |b|
    ensures Be16(Rd16(b, i)) == b[i..i + 2]
  {
  }

  /** wr16: store `v` big-endian at `buf[at]`, `buf[at + 1]`. */
  method Wr16(buf: array<Byte>, at: nat, v: nat)
    requires v < 0x1_0000 && at + 2 <= buf.Length
    modifies buf
    ensures buf[at] == v / 256 && buf[at + 1] == v % 256
    ensures forall k :: 0 <= k < buf.Length && k != at && k != at + 1 ==> buf[k] == old(buf[k])
  {
    buf[at] := v / 256;
    buf[at + 1] := v % 256;
  }

  /** The QNAME walk (src/dns_hijack.c:66-77), started at `off`: the offset just past
      the zero-length label, or `|req|` when the request ends first (the loop
      guard fails), or None when a label's declared length overruns the
      request. */
  function SkipName(req: seq<Byte>, off: nat): (r: Option<nat>)
    requires off <= |req|
    ensures r.Some? ==> off <= r.value <= |req|
    ensures r.Some? && r.value < |req| ==> off < r.value && req[r.value - 1] == 0
    decreases |req| - off
  {
    if off == |req| then Some(off)
    else if req[off] == 0 then Some(off + 1)
    else if off + 1 + req[off] > |req| then None
    else SkipName(req, off + 1 + req[off])
  }

  /** What the parser learns about the first question: the offset just past
      QCLASS, and the QTYPE and QCLASS values. */
  datatype Question = Question(end: nat, qtype: nat, qclass: nat)

  /** The validation part of build_dns_a_reply: a 12-byte header, QDCOUNT at
      least 1, a QNAME whose labels stay inside the request, and 4 more bytes
      for QTYPE and QCLASS. */
  function ParseQuestion(req: seq<Byte>): (r: Option<Question>)
    ensures r.Some? <==>
      |req| >= HeaderSize && Rd16(req, 4) >= 1 && SkipName(req, HeaderSize).Some?
      && SkipName(req, HeaderSize).value + 4 <= |req|
    ensures r.Some? ==> HeaderSize + 5 <= r.value.end <= |req|
    ensures r.Some? ==>
      r.value.qtype == Rd16(req, r.value.end - 4) && r.value.qclass == Rd16(req, r.value.end - 2)
  {
    if |req| < HeaderSize || Rd16(req, 4) < 1 then None
    else
      match SkipName(req, HeaderSize)
      case None => None
      case Some(e) =>
        if e + 4 > |req| then None
        else Some(Question(e + 4, Rd16(req, e), Rd16(req, e + 2)))
  }

  /** The 16-byte answer record: name pointer 0xC00C to offset 12, TYPE A,
      CLASS IN, TTL 60, RDLENGTH 4, then the reply address. */
  function AnswerRecord(ip: seq<Byte>): (a: seq<Byte>)
    requires |ip| == 4
    ensures |a| == AnswerSize
  {
    [0xC0, 0x0C] + Be16(TypeA) + Be16(ClassIn) + [0x00, 0x00, 0x00, 0x3C] + Be16(4) + ip
  }

  predicate IsInA(q: Question) {
    q.qtype == TypeA && q.qclass == ClassIn
  }

  /** The reply header: the request's 2-byte ID, flags 0x8180, QDCOUNT 1,
      ANCOUNT `ancount`, NSCOUNT 0 and ARCOUNT 0. */
  function ReplyHeader(id: seq<Byte>, ancount: nat): (h: seq<Byte>)
    requires |id| == 2 && ancount < 0x1_0000
    ensures |h| == HeaderSize
  {
    id + Be16(ReplyFlags) + Be16(1) + Be16(ancount) + [0, 0, 0, 0]
  }

  /** The reply build_dns_a_reply produces for `req` when the buffer is large
      enough: the request's ID, flags 0x8180, QDCOUNT 1, ANCOUNT 1 for an IN/A
      question and 0 otherwise, NSCOUNT = ARCOUNT = 0, the first question
      echoed, and the answer record for IN/A; bytes after the first question
      are dropped. */
  function Reply(req: seq<Byte>, ip: seq<Byte>): (r: Option<seq<Byte>>)
    requires |ip| == 4
    ensures r.Some? <==> ParseQuestion(req).Some?
  {
    match ParseQuestion(req)
    case None => None
    case Some(q) =>
      var echoed := ReplyHeader(req[..2], if IsInA(q) then 1 else 0) + req[HeaderSize..q.end];
      Some(if IsInA(q) then echoed + AnswerRecord(ip) else echoed)
  }

  /** memcpy(resp, req, req_len). */
  method CopyRequest(req: seq<Byte>, resp: array<Byte>)
    requires |req| <= resp.Length
    modifies resp
    ensures resp[..|req|] == req
    ensures resp[|req|..] == old(resp[|req|..])
  {
    forall i | 0 <= i < |req| {
      resp[i] := req[i];
    }
  }

  /** The label-by-label QNAME walk over the copied request held in
      buf[..reqLen]: -1 when a label overruns the request, otherwise the
      offset the walk stops at. It reads no index at or beyond reqLen. */
  method WalkQName(buf: array<Byte>, reqLen: nat) returns (off: int)
    requires HeaderSize <= reqLen <= buf.Length
    ensures off == -1 <==> SkipName(buf[..reqLen], HeaderSize).None?
    ensures off != -1 ==> SkipName(buf[..reqLen], HeaderSize) == Some(off)
  {
    ghost var req := buf[..reqLen];
    off := HeaderSize;
    while off < reqLen
      invariant HeaderSize <= off <= reqLen
      invariant SkipName(req, off) == SkipName(req, HeaderSize)
    {
      var labLen := buf[off];
      assert labLen == req[off];
      off := off + 1;
      if labLen == 0 {
        break;
      }
      if off + labLen > reqLen {
        return -1;
      }
      off := off + labLen;
    }
  }

  /** The in-place header rewrite through `h`: flags 0x8180, QDCOUNT 1,
      ANCOUNT `ancount`, NSCOUNT and ARCOUNT 0; the ID and everything after
      the header stay as they were. */
  method WriteReplyHeader(resp: array<Byte>, ancount: nat)
    requires HeaderSize <= resp.Length && ancount < 0x1_0000
    modifies resp
    ensures resp[..HeaderSize] == ReplyHeader(old(resp[..2]), ancount)
    ensures forall k :: HeaderSize <= k < resp.Length ==> resp[k] == old(resp[k])
  {
    Wr16(resp, 2, ReplyFlags);
    Wr16(resp, 4, 1);
    Wr16(resp, 8, 0);
    Wr16(resp, 10, 0);
    Wr16(resp, 6, ancount);
  }

  /** The answer record of src/dns_hijack.c:114-128, written at `at`. */
  method WriteAnswer(resp: array<Byte>, at: nat, ip: seq<Byte>)
    requires |ip| == 4 && at + AnswerSize <= resp.Length
    modifies resp
    ensures resp[..at] == old(resp[..at])
    ensures resp[at..at + AnswerSize] == AnswerRecord(ip)
  {
    // C0 0C | 00 01 | 00 01 | 00 00 00 3C | 00 04 | ip[0..4]
    var record := AnswerRecord(ip);
    forall k | 0 <= k < AnswerSize {
      resp[at + k] := record[k];
    }
  }

  /** build_dns_a_reply, working in place on `resp` (of capacity
      `resp.Length`, the source's resp_max): -1 on any rejection, otherwise
      the reply length with the reply in resp[..n]. */
  method BuildDnsAReply(req: seq<Byte>, resp: array<Byte>, ip: seq<Byte>) returns (n: int)
    requires |ip| == 4
    modifies resp
    ensures n == -1 || 0 < n <= resp.Length
    ensures n == -1 <==> resp.Length < |req| + AnswerSize || Reply(req, ip).None?
    ensures n != -1 ==> resp[..n] == Reply(req, ip).value
    ensures |req| < HeaderSize || resp.Length < |req| + AnswerSize ==> resp[..] == old(resp[..])
  {
    if |req| < HeaderSize {
      return -1;
    }
    if resp.Length < |req| + AnswerSize {
      return -1;
    }

    CopyRequest(req, resp);
    var qd := Rd16(resp[..], 4);
    assert qd == Rd16(req, 4);
    if qd < 1 {
      return -1;
    }

    var off := WalkQName(resp, |req|);
    assert resp[..|req|] == req;
    if off == -1 {
      return -1;
    }

    // Need QTYPE + QCLASS
    if off + 4 > |req| {
      return -1;
    }
    var qtype := Rd16(resp[..], off);
    var qclass := Rd16(resp[..], off + 2);
    assert qtype == Rd16(req, off) && qclass == Rd16(req, off + 2);
    off := off + 4;
    assert ParseQuestion(req) == Some(Question(off, qtype, qclass));
    n := WriteReply(req, resp, ip, off, qtype, qclass);
  }

  /** A slice inside a prefix is the same slice of the whole. */
  lemma PrefixSlice(a: seq<Byte>, p: seq<Byte>, i: nat, j: nat)
    requires |p| <= |a| && a[..|p|] == p && i <= j <= |p|
    ensures a[i..j] == p[i..j]
  {
    assert forall k | 0 <= k < j - i :: a[i..j][k] == a[..|p|][i + k];
  }

  /** The writing half of build_dns_a_reply, once the question parsed and
      ends at `off`: patch the header in place and, for an IN/A question,
      append the answer record after the question. */
  method WriteReply(req: seq<Byte>, resp: array<Byte>, ip: seq<Byte>, off: nat, qtype: nat, qclass: nat)
    returns (n: int)
    requires |ip| == 4 && |req| + AnswerSize <= resp.Length
    requires resp[..|req|] == req
    requires ParseQuestion(req) == Some(Question(off, qtype, qclass))
    requires HeaderSize + 5 <= off <= |req|
    modifies resp
    ensures Reply(req, ip).Some? && 0 < n <= resp.Length && resp[..n] == Reply(req, ip).value
  {
    ghost var a := resp[..];
    PrefixSlice(a, req, HeaderSize, off);
    PrefixSlice(a, req, 0, 2);

    var respLen := off;
    if qtype != TypeA || qclass != ClassIn {
      WriteReplyHeader(resp, 0);
      assert resp[HeaderSize..respLen] == req[HeaderSize..respLen];
      assert resp[..respLen] == resp[..HeaderSize] + resp[HeaderSize..respLen];
      assert Reply(req, ip).value == ReplyHeader(req[..2], 0) + req[HeaderSize..respLen];
      return respLen;
    }

    WriteReplyHeader(resp, 1);
    assert resp[HeaderSize..respLen] == req[HeaderSize..respLen];
    assert resp[..respLen] == resp[..HeaderSize] + resp[HeaderSize..respLen];
    ghost var echoed := resp[..respLen];
    assert echoed == ReplyHeader(req[..2], 1) + req[HeaderSize..respLen];

    // unreachable: respLen <= req_len and resp_max >= req_len + 16
    if respLen + AnswerSize > resp.Length {
      return -1;
    }
    WriteAnswer(resp, respLen, ip);
    assert resp[..respLen + AnswerSize] == echoed + AnswerRecord(ip);
    return respLen + AnswerSize;
  }

  /** The header and body a successful reply carries: ID and question echoed
      verbatim, flags 0x81 0x80, QDCOUNT 1, NSCOUNT = ARCOUNT = 0; for an IN/A
      question ANCOUNT 1 and the 16-byte answer, otherwise ANCOUNT 0 and
      nothing after the question. */
  lemma ReplyLayout(req: seq<Byte>, ip: seq<Byte>)
    requires |ip| == 4 && Reply(req, ip).Some?
    ensures var r, q := Reply(req, ip).value, ParseQuestion(req).value;
      && r[..2] == req[..2]
      && r[2..4] == [0x81, 0x80]
      && r[4..6] == [0x00, 0x01]
      && r[8..12] == [0x00, 0x00, 0x00, 0x00]
      && q.end <= |r|
      && r[HeaderSize..q.end] == req[HeaderSize..q.end]
      && (IsInA(q) ==>
            && |r| == q.end + AnswerSize
            && r[6..8] == [0x00, 0x01]
            && r[q.end..] == [0xC0, 0x0C, 0x00, 0x01, 0x00, 0x01, 0x00, 0x00, 0x00, 0x3C, 0x00, 0x04] + ip)
      && (!IsInA(q) ==> |r| == q.end && r[6..8] == [0x00, 0x00])
  {
    var r, q := Reply(req, ip).value, ParseQuestion(req).value;
    var an := if IsInA(q) then 1 else 0;
    var echoed := ReplyHeader(req[..2], an) + req[HeaderSize..q.end];
    assert r[..q.end] == echoed;
    assert echoed[..2] == req[..2];
    assert echoed[HeaderSize..q.end] == req[HeaderSize..q.end];
  }

  /** A reply is never longer than the request plus one answer record, so
      once the headroom check (src/dns_hijack.c:54) has passed, the answer-space check
      (src/dns_hijack.c:111) cannot fail; bytes after the first question are dropped. */
  lemma ReplyLengthBound(req: seq<Byte>, ip: seq<Byte>)
    requires |ip| == 4 && Reply(req, ip).Some?
    ensures |Reply(req, ip).value| <= |req| + AnswerSize
    ensures |Reply(req, ip).value| == ParseQuestion(req).value.end
              + (if IsInA(ParseQuestion(req).value) then AnswerSize else 0)
  {
  }

  /** The QNAME walk only looks at the bytes between where it starts and
      where it stops, so any buffer that agrees on them walks the same way. */
  lemma {:induction false} SkipNameAgrees(a: seq<Byte>, b: seq<Byte>, off: nat, e: nat)
    requires off <= e < |a| && e <= |b|
    requires SkipName(a, off) == Some(e)
    requires a[off..e] == b[off..e]
    ensures SkipName(b, off) == Some(e)
    decreases e - off
  {
    assert a[off] == b[off] by {
      assert a[off..e][0] == b[off..e][0];
    }
    if a[off] != 0 {
      var next := off + 1 + a[off];
      assert a[next..e] == a[off..e][next - off..];
      assert b[next..e] == b[off..e][next - off..];
      SkipNameAgrees(a, b, next, e);
    }
  }

  /** The reply is itself a well-formed query view: parsing it finds the same
      first question (same end offset, QTYPE and QCLASS) as the request. */
  lemma ReplyParsesAsRequest(req: seq<Byte>, ip: seq<Byte>)
    requires |ip| == 4 && Reply(req, ip).Some?
    ensures ParseQuestion(Reply(req, ip).value) == ParseQuestion(req)
  {
    var r, q := Reply(req, ip).value, ParseQuestion(req).value;
    ReplyLayout(req, ip);
    var e := q.end - 4;
    assert SkipName(req, HeaderSize) == Some(e);
    assert req[HeaderSize..e] == r[HeaderSize..e] by {
      assert req[HeaderSize..e] == req[HeaderSize..q.end][..e - HeaderSize];
      assert r[HeaderSize..e] == r[HeaderSize..q.end][..e - HeaderSize];
    }
    SkipNameAgrees(req, r, HeaderSize, e);
    assert r[4..6] == [0x00, 0x01];
    assert Rd16(r, 4) == 1;
    forall k | e <= k < q.end
      ensures r[k] == req[k]
    {
      assert r[k] == r[HeaderSize..q.end][k - HeaderSize];
    }
  }

  /** The responder task: the listener's lifecycle flags and the per-packet
      step of its receive loop. */
  class DnsServer {
    var running: bool        // s_task != NULL
    var socketOpen: bool     // s_sock >= 0
    var replyIp: seq<Byte>   // s_reply_ip_be, network byte order

    ghost predicate Valid()
      reads this
    {
      |replyIp| == 4 && (running ==> socketOpen)
    }

    constructor ()
      ensures Valid() && !running && !socketOpen && replyIp == [0, 0, 0, 0]
    {
      running, socketOpen, replyIp := false, false, [0, 0, 0, 0];
    }

    /** dns_hijack_start: a no-op success when already running; otherwise
        records the reply address, then opens the socket, binds port 53 and
        spawns the task, failing with ESP_FAIL (socket closed) at the first
        step that does not succeed. */
    method Start(ip: seq<Byte>, socketOk: bool, bindOk: bool, taskOk: bool) returns (err: EspErr)
      requires Valid() && |ip| == 4
      modifies this
      ensures Valid()
      ensures old(running) ==> err == Ok && running && socketOpen == old(socketOpen) && replyIp == old(replyIp)
      ensures !old(running) ==>
        && replyIp == ip
        && (err == Ok <==> socketOk && bindOk && taskOk)
        && (err == Ok || err == Fail)
        && running == (err == Ok) && socketOpen == running
    {
      if running {
        return Ok;
      }
      replyIp := ip;
      if !socketOk {
        socketOpen := false;
        return Fail;
      }
      socketOpen := true;
      if !bindOk {
        socketOpen := false;
        return Fail;
      }
      if !taskOk {
        socketOpen := false;
        running := false;
        return Fail;
      }
      running := true;
      return Ok;
    }

    /** dns_hijack_stop: idempotent; closes the socket and ends the task. */
    method Stop() returns (err: EspErr)
      requires Valid()
      modifies this
      ensures Valid() && err == Ok && !running
      ensures old(running) ==> !socketOpen
      ensures !old(running) ==> socketOpen == old(socketOpen)
      ensures replyIp == old(replyIp)
    {
      if !running {
        return Ok;
      }
      running := false;
      if socketOpen {
        socketOpen := false;
      }
      return Ok;
    }

    /** One pass of the receive loop for a datagram of `rx` (at most 512
        bytes, the size of rx[]): build the reply into the 544-byte tx[] and
        send it when the length is positive. Because 544 >= 512 + 16 the
        headroom check never drops a packet: the answer is exactly Reply. */
    method ServePacket(rx: seq<Byte>) returns (sent: Option<seq<Byte>>)
      requires Valid() && |rx| <= RxSize
      ensures sent == Reply(rx, replyIp)
    {
      var tx := new Byte[TxSize];
      var n := BuildDnsAReply(rx, tx, replyIp);
      if n <= 0 {
        return None;
      }
      return Some(tx[..n]);
    }
  }
}
