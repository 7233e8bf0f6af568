// The shared request/response helpers of the HTTP routes: reading a
// request body of known length into a fixed buffer, the status line of a
// numeric code, and the default bodies of the JSON senders.

module HttpHelpers {
  import opened Common

  // ---------------------------------------------------------------------
  // http_read_body
  // ---------------------------------------------------------------------

  /** What one `httpd_req_recv` call for `want` more bytes hands back, with
      `left` bytes still to come from the peer: the size the server reports,
      never more than was asked for or is available; 0 or less is an error
      or a closed connection. */
  function RecvCount(reported: int, want: nat, left: nat): (r: int)
    ensures r <= want && r <= left
    ensures reported <= 0 ==> r <= 0
  {
    if reported <= 0 then reported
    else if reported <= want && reported <= left then reported
    else if want <= left then want
    else left
  }

  /** Whether the receive loop, with `received` of `total` bytes in and the
      receive calls answering `sizes` in turn (an exhausted list is a
      timeout), collects the whole body from a peer sending `incoming`. */
  function Collects(sizes: seq<int>, received: nat, total: nat, incoming: nat): bool
    decreases |sizes|
  {
    if received >= total then true
    else if |sizes| == 0 then false
    else
      var r := RecvCount(sizes[0], total - received, if received <= incoming then incoming - received else 0);
      if r <= 0 then false else Collects(sizes[1..], received + r, total, incoming)
  }

  /** A collected body came entirely from the peer. */
  lemma {:induction false} CollectsNeedsData(sizes: seq<int>, received: nat, total: nat, incoming: nat)
    requires received < total && received <= incoming
    requires Collects(sizes, received, total, incoming)
    ensures total <= incoming
    decreases |sizes|
  {
    var r := RecvCount(sizes[0], total - received, incoming - received);
    if received + r < total {
      CollectsNeedsData(sizes[1..], received + r, total, incoming);
    }
  }

  /** A peer that has sent the whole body is read in one call when the
      server hands over everything at once. */
  lemma OneChunkCollects(total: nat, incoming: nat)
    requires 0 < total <= incoming
    ensures Collects([total], 0, total, incoming)
  {
  }

  /** `http_read_body`: a request (`reqPresent`) whose `Content-Length` is
      `contentLen` is read, call by call, into `buf`, which gets a NUL after
      the body. Fails without reading for a missing request or buffer, a
      buffer under 2 bytes, or a length that is not positive or does not
      leave room for the NUL; fails when a receive returns 0 or less. */
  method ReadBody(reqPresent: bool, buf: array?<char>, contentLen: int, incoming: string, sizes: seq<int>)
    returns (ok: bool, outLen: nat)
    modifies buf
    ensures ok <==> && reqPresent && buf != null && buf.Length >= 2
                    && 0 < contentLen < buf.Length
                    && Collects(sizes, 0, contentLen, |incoming|)
    ensures ok ==> && outLen == contentLen <= |incoming|
                   && buf[..outLen] == incoming[..outLen]
                   && buf[outLen] == '\0'
                   && buf[outLen + 1..] == old(buf[outLen + 1..])
    ensures !ok && buf != null && 0 < contentLen < buf.Length ==>
              buf[contentLen + 1..] == old(buf[contentLen + 1..])
    ensures buf != null && !(0 < contentLen < buf.Length) ==> buf[..] == old(buf[..])
  {
    if !reqPresent || buf == null || buf.Length < 2 {
      return false, 0;
    }
    if contentLen <= 0 || contentLen >= buf.Length {
      return false, 0;
    }
    var total: nat := contentLen;
    var received: nat := 0;
    var k := 0;
    while received < total
      invariant received <= total && k <= |sizes|
      invariant received <= |incoming|
      invariant Collects(sizes[k..], received, total, |incoming|) == Collects(sizes, 0, total, |incoming|)
      invariant buf[..received] == incoming[..received]
      invariant buf[total..] == old(buf[total..])
      decreases total - received
    {
      var r := if k < |sizes| then RecvCount(sizes[k], total - received, |incoming| - received) else 0;
      if r <= 0 {
        assert !Collects(sizes[k..], received, total, |incoming|);
        return false, 0;
      }
      assert sizes[k..][1..] == sizes[k + 1..];
      forall i | 0 <= i < r {
        buf[received + i] := incoming[received + i];
      }
      received := received + r;
      k := k + 1;
    }
    buf[received] := '\0';
    return true, received;
  }

  // ---------------------------------------------------------------------
  // set_status, http_send_json, http_send_err
  // ---------------------------------------------------------------------

  /** The status line and JSON body a route answers with. */
  datatype Response = Response(status: string, body: string)

  /** `set_status`: the five codes the routes use get their own status line;
      every other code is sent as 500. */
  function SetStatus(code: int): (s: string)
  {
    if code == 200 then "200 OK"
    else if code == 201 then "201 Created"
    else if code == 400 then "400 Bad Request"
    else if code == 404 then "404 Not Found"
    else if code == 409 then "409 Conflict"
    else "500 Internal Server Error"
  }

  /** The status line reads back as the code it was made from, for the five
      known codes, and as 500 for any other (so a 502 is sent as 500). */
  lemma SetStatusReadsBack(code: int)
    ensures code in {200, 201, 400, 404, 409} ==> Atoi(SetStatus(code)) == code
    ensures code !in {200, 201, 400, 404, 409} ==> Atoi(SetStatus(code)) == 500
  {
    if code in {200, 201, 400, 404, 409} {
      KnownStatusReadsBack(code);
    } else {
      StatusLineReadsBack(500, SetStatus(code));
    }
  }

  /** Each of the five known codes reads back as itself. */
  lemma KnownStatusReadsBack(code: int)
    requires code in {200, 201, 400, 404, 409}
    ensures Atoi(SetStatus(code)) == code
  {
    StatusLineReadsBack(code, SetStatus(code));
  }

  /** A status line made of the three digits of `n` and a reason phrase
      reads back as `n`. */
  lemma StatusLineReadsBack(n: nat, line: string)
    requires 100 <= n < 1000 && |line| > 3 && line[3] == ' '
    requires line[0] == ('0' as int + n / 100) as char
    requires line[1] == ('0' as int + n / 10 % 10) as char
    requires line[2] == ('0' as int + n % 10) as char
    ensures Atoi(line) == n
  {
    DecimalThreeDigits(n);
    assert line == Decimal(n) + line[3..];
    AtoiDecimal(n, line[3..]);
  }

  lemma DecimalThreeDigits(n: nat)
    requires 100 <= n < 1000
    ensures Decimal(n) == [('0' as int + n / 100) as char, ('0' as int + n / 10 % 10) as char, ('0' as int + n % 10) as char]
  {
    assert Decimal(n / 10) == Decimal(n / 100) + [('0' as int + n / 10 % 10) as char];
  }

  /** `http_send_json`: a missing body is sent as an empty object. */
  function SendJson(code: int, json: Option<string>): (r: Response)
    ensures r.status == SetStatus(code)
    ensures json.None? ==> r.body == "{}"
    ensures json.Some? ==> r.body == json.value
  {
    Response(SetStatus(code), if json.Some? then json.value else "{}")
  }

  const ErrPrefix := "{\"ok\":false,\"error\":\""
  const ErrSuffix := "\"}"
  /** The 160-char stack buffer of `http_send_err`, NUL included. */
  const ErrBufSize := 160

  /** `http_send_err`: `{"ok":false,"error":"<msg>"}` formatted into 160
      chars, so cut to 159; a missing message reads "error". */
  function SendErr(code: int, msg: Option<string>): (r: Response)
  {
    var m := if msg.Some? then msg.value else "error";
    SendJson(code, Some(Truncate(ErrPrefix + m + ErrSuffix, ErrBufSize - 1)))
  }

  /** The error body always opens with the error prefix, never exceeds the
      buffer, and is complete exactly when the message has at most 136
      chars. */
  lemma SendErrShape(code: int, msg: Option<string>)
    ensures var m := if msg.Some? then msg.value else "error";
            var b := SendErr(code, msg).body;
            && SendErr(code, msg).status == SetStatus(code)
            && |b| <= ErrBufSize - 1
            && b[..|ErrPrefix|] == ErrPrefix
            && (|m| <= ErrBufSize - 1 - |ErrPrefix| - |ErrSuffix| <==> b == ErrPrefix + m + ErrSuffix)
  {
    var m := if msg.Some? then msg.value else "error";
    var full := ErrPrefix + m + ErrSuffix;
    var b := Truncate(full, ErrBufSize - 1);
    assert full[..|ErrPrefix|] == ErrPrefix;
    assert b[..|ErrPrefix|] == full[..|ErrPrefix|];
    if b == full {
      assert |full| <= ErrBufSize - 1;
    }
  }
}
