// The Open-Meteo weather client: the body accumulator the HTTP client's
// data events feed, the precedence of the outcomes of a GET, and the
// argument checks and day clamp of the two fetch calls.

module OpenMeteoClient {
  import opened Common

  /** `openmeteo_status_t`. */
  datatype MeteoStatus = MeteoOk | ErrHttp | ErrOom | ErrInvalidArg | ErrBufTooSmall

  /** An HTTP client event: a data chunk (`data` None for a null pointer,
      its length the chunk's `data_len`) or any other event. */
  datatype ClientEvent = OnDataEvent(data: Option<string>) | OtherEvent

  // ---------------------------------------------------------------------
  // The accumulator, as values
  // ---------------------------------------------------------------------

  /** The body gathered so far and the overflow flag of `acc_t`. */
  datatype Acc = Acc(body: string, overflow: bool)

  /** The bytes an event carries to `on_data`; none for other events, a null
      pointer or an empty chunk. */
  function Chunk(ev: ClientEvent): string
  {
    if ev.OnDataEvent? && ev.data.Some? then ev.data.value else ""
  }

  /** One `on_data` call on a buffer of `cap` chars: non-data events, null
      or empty chunks and anything after an overflow are ignored; a chunk
      that would not leave room for the NUL sets the overflow flag and is
      dropped; any other chunk is appended. */
  function Step(a: Acc, ev: ClientEvent, cap: nat): (r: Acc)
  {
    var d := Chunk(ev);
    if |d| == 0 || a.overflow then a
    else if |a.body| + |d| + 1 > cap then a.(overflow := true)
    else a.(body := a.body + d)
  }

  /** The accumulator after the events in order. */
  function Run(a: Acc, evs: seq<ClientEvent>, cap: nat): Acc
  {
    if |evs| == 0 then a else Step(Run(a, evs[..|evs| - 1], cap), evs[|evs| - 1], cap)
  }

  /** All chunk bytes of the events, in order. */
  function Payload(evs: seq<ClientEvent>): string
  {
    if |evs| == 0 then "" else Payload(evs[..|evs| - 1]) + Chunk(evs[|evs| - 1])
  }

  /** Once set, the overflow flag stays set and the body stops changing. */
  lemma {:induction false} OverflowSticky(a: Acc, evs: seq<ClientEvent>, cap: nat)
    requires a.overflow
    ensures Run(a, evs, cap) == a
  {
    if |evs| > 0 {
      OverflowSticky(a, evs[..|evs| - 1], cap);
    }
  }

  /** Starting from a body that fits, the events overflow the buffer exactly
      when the whole payload would not fit with its NUL; otherwise the body
      is everything received, in order. */
  lemma {:induction false} RunGathersPayload(a: Acc, evs: seq<ClientEvent>, cap: nat)
    requires !a.overflow && |a.body| + 1 <= cap
    ensures Run(a, evs, cap).overflow <==> |a.body| + |Payload(evs)| + 1 > cap
    ensures !Run(a, evs, cap).overflow ==> Run(a, evs, cap).body == a.body + Payload(evs)
    ensures |Run(a, evs, cap).body| < cap
  {
    if |evs| > 0 {
      var front := evs[..|evs| - 1];
      RunGathersPayload(a, front, cap);
      var p := Run(a, front, cap);
      if !p.overflow {
        assert a.body + Payload(evs) == (a.body + Payload(front)) + Chunk(evs[|evs| - 1]);
      }
    }
  }

  // ---------------------------------------------------------------------
  // The accumulator in place
  // ---------------------------------------------------------------------

  /** `acc_t`: the caller's buffer, the length filled and the overflow
      flag; the buffer's length is `cap`. */
  class Accumulator {
    const buf: array<char>
    var len: nat
    var overflow: bool

    /** The filled part is always followed by a NUL inside the buffer. */
    ghost predicate Valid()
      reads this, buf
    {
      len < buf.Length && buf[len] == '\0'
    }

    function State(): Acc
      requires Valid()
      reads this, buf
    {
      Acc(buf[..len], overflow)
    }

    /** `http_get`'s set-up: an empty, NUL-terminated body, no overflow. */
    constructor (outBuf: array<char>)
      requires outBuf.Length >= 1
      modifies outBuf
      ensures buf == outBuf && Valid() && State() == Acc("", false)
      ensures buf[1..] == old(outBuf[1..])
    {
      buf := outBuf;
      len := 0;
      overflow := false;
      new;
      outBuf[0] := '\0';
    }

    /** `on_data`: folds one event into the buffer as Step does; after an
        append the bytes past the new NUL are untouched, and an ignored or
        dropped chunk leaves the buffer alone. */
    method OnData(ev: ClientEvent)
      requires Valid()
      modifies this, buf
      ensures Valid()
      ensures State() == Step(old(State()), ev, buf.Length)
      ensures buf[len + 1..] == old(buf[..])[len + 1..]
      ensures len == old(len) ==> buf[..] == old(buf[..])
    {
      if !ev.OnDataEvent? {
        return;
      }
      if ev.data.None? || |ev.data.value| == 0 {
        return;
      }
      if overflow {
        return;
      }
      var d := ev.data.value;
      var needed := len + |d| + 1;
      if needed > buf.Length {
        overflow := true;
        return;
      }
      forall i | 0 <= i < |d| {
        buf[len + i] := d[i];
      }
      len := len + |d|;
      buf[len] := '\0';
    }
  }

  // ---------------------------------------------------------------------
  // http_get and the fetch calls
  // ---------------------------------------------------------------------

  /** The outcome of a finished GET: overflow first, then a transport
      error, then a status outside 200..299. */
  function GetStatus(overflow: bool, performErr: EspErr, status: int): (r: MeteoStatus)
    ensures r == ErrBufTooSmall <==> overflow
    ensures r == MeteoOk <==> !overflow && performErr == Ok && 200 <= status < 300
    ensures r in {MeteoOk, ErrBufTooSmall, ErrHttp}
  {
    if overflow then ErrBufTooSmall
    else if performErr != Ok then ErrHttp
    else if status < 200 || status >= 300 then ErrHttp
    else MeteoOk
  }

  /** `http_get` into `buf`: `clientOk` is whether the client could be
      created, `events` what the transfer delivers, `performErr` and
      `status` what it ends with. The buffer always starts with a NUL;
      on success it holds the whole response body, NUL-terminated. */
  method HttpGet(buf: array<char>, clientOk: bool, events: seq<ClientEvent>, performErr: EspErr, status: int)
    returns (st: MeteoStatus)
    requires buf.Length >= 1
    modifies buf
    ensures !clientOk ==> st == ErrOom && buf[0] == '\0'
    ensures clientOk ==>
              st == GetStatus(|Payload(events)| + 1 > buf.Length, performErr, status)
    ensures st == MeteoOk ==>
              && |Payload(events)| < buf.Length
              && buf[..|Payload(events)|] == Payload(events)
              && buf[|Payload(events)|] == '\0'
  {
    var acc := new Accumulator(buf);
    if !clientOk {
      return ErrOom;
    }
    var i := 0;
    while i < |events|
      invariant i <= |events|
      invariant acc.buf == buf && acc.Valid()
      invariant acc.State() == Run(Acc("", false), events[..i], buf.Length)
      modifies acc, buf
    {
      assert events[..i + 1][..i] == events[..i];
      acc.OnData(events[i]);
      i := i + 1;
    }
    assert events[..i] == events;
    RunGathersPayload(Acc("", false), events, buf.Length);
    st := GetStatus(acc.overflow, performErr, status);
  }

  /** The forecast length asked for: 7 days when not positive, at most
      16, otherwise as given. */
  function ForecastDays(days: int): (d: int)
    ensures 1 <= d <= 16
    ensures days <= 0 ==> d == 7
    ensures days > 16 ==> d == 16
    ensures 1 <= days <= 16 ==> d == days
  {
    if days <= 0 then 7 else if days > 16 then 16 else days
  }

  /** `openmeteo_fetch_current`: a missing or empty buffer is refused before
      any request. */
  method FetchCurrent(buf: array?<char>, clientOk: bool, events: seq<ClientEvent>, performErr: EspErr, status: int)
    returns (st: MeteoStatus)
    modifies buf
    ensures buf == null || buf.Length == 0 ==> st == ErrInvalidArg
    ensures buf != null && buf.Length >= 1 && clientOk ==>
              st == GetStatus(|Payload(events)| + 1 > buf.Length, performErr, status)
    ensures buf != null && buf.Length >= 1 && !clientOk ==> st == ErrOom
  {
    if buf == null || buf.Length == 0 {
      return ErrInvalidArg;
    }
    st := HttpGet(buf, clientOk, events, performErr, status);
  }

  /** `openmeteo_fetch_forecast`: the same checks, and the request asks for
      `ForecastDays(days)` days (`daysAsked`, None when nothing is asked). */
  method FetchForecast(buf: array?<char>, days: int, clientOk: bool, events: seq<ClientEvent>, performErr: EspErr, status: int)
    returns (st: MeteoStatus, daysAsked: Option<int>)
    modifies buf
    ensures buf == null || buf.Length == 0 ==> st == ErrInvalidArg && daysAsked.None?
    ensures buf != null && buf.Length >= 1 ==> daysAsked == Some(ForecastDays(days))
    ensures buf != null && buf.Length >= 1 && clientOk ==>
              st == GetStatus(|Payload(events)| + 1 > buf.Length, performErr, status)
    ensures buf != null && buf.Length >= 1 && !clientOk ==> st == ErrOom
  {
    if buf == null || buf.Length == 0 {
      return ErrInvalidArg, None;
    }
    var d := days;
    if d <= 0 {
      d := 7;
    }
    if d > 16 {
      d := 16;
    }
    daysAsked := Some(d);
    st := HttpGet(buf, clientOk, events, performErr, status);
  }
}
