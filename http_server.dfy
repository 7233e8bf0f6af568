// The small parsing helpers of the captive-portal HTTP server: the
// x-www-form-urlencoded `find_kv` lookup, the STA state names of the
// status endpoint and the `max` clamp of the scan endpoint.

module HttpServer {
  import opened Common
  import opened WifiSta

  // ---------------------------------------------------------------------
  // find_kv
  // ---------------------------------------------------------------------

  /** A token starts at the beginning of the body and just after each '&'. */
  predicate TokenStart(body: string, t: nat)
  {
    t == 0 || (0 < t <= |body| && body[t - 1] == '&')
  }

  /** The token at `t` is `key` immediately followed by '='. A key longer than
      what is left of the body never matches (strncmp stops at the NUL). */
  predicate MatchAt(body: string, key: string, t: nat)
  {
    && TokenStart(body, t)
    && t + |key| < |body|
    && body[t..t + |key|] == key
    && body[t + |key|] == '='
  }

  /** The first '&' at or after `i` (strchr), if any. */
  function AmpFrom(s: string, i: nat): (r: Option<nat>)
    requires i <= |s|
    ensures r.Some? ==> i <= r.value < |s| && s[r.value] == '&'
    ensures r.Some? ==> forall j :: i <= j < r.value ==> s[j] != '&'
    ensures r.None? <==> forall j :: i <= j < |s| ==> s[j] != '&'
    decreases |s| - i
  {
    if i == |s| then None
    else if s[i] == '&' then Some(i)
    else AmpFrom(s, i + 1)
  }

  /** The first matching token at or after `t`. */
  function FirstMatchFrom(body: string, key: string, t: nat): (r: Option<nat>)
    requires t <= |body|
    ensures r.Some? ==> t <= r.value && MatchAt(body, key, r.value)
    ensures r.Some? ==> forall u :: t <= u < r.value ==> !MatchAt(body, key, u)
    ensures r.None? <==> forall u :: t <= u ==> !MatchAt(body, key, u)
    decreases |body| - t
  {
    if t == |body| then None
    else if MatchAt(body, key, t) then Some(t)
    else FirstMatchFrom(body, key, t + 1)
  }

  /** The token `find_kv` picks: the first one, in body order, that matches. */
  function FirstMatch(body: string, key: string): Option<nat>
  {
    FirstMatchFrom(body, key, 0)
  }

  /** The raw value of the matching token: from after '=' up to the next '&'
      or the end of the body. */
  function RawValue(body: string, key: string, t: nat): (v: string)
    requires MatchAt(body, key, t)
    ensures '&' !in v
    ensures t + |key| + 1 + |v| <= |body|
    ensures t + |key| + 1 + |v| == |body| || body[t + |key| + 1 + |v|] == '&'
  {
    var start := t + |key| + 1;
    match AmpFrom(body, start)
      case Some(e) => body[start..e]
      case None => body[start..]
  }

  /** '+' read as a space; nothing else is decoded (no percent-decoding). */
  function PlusToSpace(s: string): (r: string)
    ensures |r| == |s|
    ensures forall i :: 0 <= i < |s| ==> r[i] == (if s[i] == '+' then ' ' else s[i])
  {
    seq(|s|, i requires 0 <= i < |s| => if s[i] == '+' then ' ' else s[i])
  }

  /** What `find_kv` leaves in `out` before the NUL, for a buffer of
      `outLen` chars: the raw value cut to `outLen - 1` chars, '+' as space;
      None when no token matches. */
  function FindKvValue(body: string, key: string, outLen: nat): (r: Option<string>)
    requires outLen >= 1
  {
    match FirstMatch(body, key)
      case None => None
      case Some(t) => Some(PlusToSpace(Truncate(RawValue(body, key, t), outLen - 1)))
  }

  /** The looked-up value: found exactly when some token matches; it
      never holds '&' or '+', fits the buffer with its NUL, and is the whole
      value (with '+' as space) when that fits. */
  lemma FindKvValueSpec(body: string, key: string, outLen: nat)
    requires outLen >= 1
    ensures FindKvValue(body, key, outLen).Some? <==> exists t :: MatchAt(body, key, t)
    ensures FindKvValue(body, key, outLen).Some? ==>
              var v := FindKvValue(body, key, outLen).value;
              && |v| <= outLen - 1
              && '&' !in v && '+' !in v
    ensures FindKvValue(body, key, outLen).Some? ==>
              var raw := RawValue(body, key, FirstMatch(body, key).value);
              |raw| < outLen ==> FindKvValue(body, key, outLen).value == PlusToSpace(raw)
  {
    if FirstMatch(body, key).Some? {
      var t := FirstMatch(body, key).value;
      var raw := RawValue(body, key, t);
      var v := PlusToSpace(Truncate(raw, outLen - 1));
      assert Truncate(raw, outLen - 1) <= raw;
      forall i | 0 <= i < |v| ensures v[i] != '&' && v[i] != '+' {
        assert v[i] == (if raw[i] == '+' then ' ' else raw[i]);
        assert raw[i] in raw;
      }
    }
  }

  /** A body whose first field is `key=value` (the form the portal posts)
      gives back `value`, when it has no '&' or '+' and fits the buffer. */
  lemma {:induction false} FindKvFirstField(key: string, value: string, rest: string, outLen: nat)
    requires outLen >= 1 && |value| < outLen
    requires '&' !in value && '+' !in value
    ensures FindKvValue(key + "=" + value + "&" + rest, key, outLen) == Some(value)
  {
    var body := key + "=" + value + "&" + rest;
    assert body[..|key|] == key;
    assert body[|key|] == '=';
    assert MatchAt(body, key, 0);
    var start := |key| + 1;
    assert forall j :: start <= j < start + |value| ==> body[j] == value[j - start];
    assert body[start + |value|] == '&';
    assert AmpFrom(body, start) == Some(start + |value|);
    assert body[start..start + |value|] == value;
    assert PlusToSpace(value) == value;
  }

  /** `find_kv`: scans the tokens of `body` in order; on the first `key=`
      token copies its value, cut to `out.Length - 1` chars, into `out`,
      NUL-terminates it and turns '+' into ' ', and answers true; otherwise
      answers false and leaves `out` alone. */
  method FindKv(body: string, key: string, out: array<char>) returns (found: bool)
    requires out.Length >= 1
    modifies out
    ensures found <==> FindKvValue(body, key, out.Length).Some?
    ensures found ==>
              var v := FindKvValue(body, key, out.Length).value;
              && out[..|v|] == v
              && out[|v|] == '\0'
              && out[|v| + 1..] == old(out[|v| + 1..])
    ensures !found ==> out[..] == old(out[..])
  {
    var m := ScanTokens(body, key);
    if m.None? {
      return false;
    }
    ghost var before := out[..];
    CopyMatch(body, key, m.value, out);
    CopiedIsValue(body, key, m.value, out[..], before);
    return true;
  }

  /** The token loop of `find_kv`: from the start of the body, test the
      token for `key=`, else jump past the next '&'; stop at the first
      match or when no '&' is left. */
  method ScanTokens(body: string, key: string) returns (m: Option<nat>)
    ensures m == FirstMatch(body, key)
  {
    var p: nat := 0;
    while p < |body|
      invariant p <= |body|
      invariant TokenStart(body, p)
      invariant forall u: nat :: u < p ==> !MatchAt(body, key, u)
      decreases |body| - p
    {
      if MatchAt(body, key, p) {
        FirstMatchSkip(body, key, p);
        return Some(p);
      }
      var next := AmpFrom(body, p);
      if next.None? {
        NoTokenBefore(body, key, p, |body|);
        FirstMatchNone(body, key);
        return None;
      }
      NoTokenBefore(body, key, p, next.value);
      p := next.value + 1;
    }
    FirstMatchNone(body, key);
    return None;
  }

  /** No token starts strictly after `p` and up to `e` when no '&' lies in
      between. */
  lemma NoTokenBefore(body: string, key: string, p: nat, e: nat)
    requires p <= e <= |body|
    requires forall j :: p <= j < e ==> body[j] != '&'
    ensures forall u: nat :: p < u <= e ==> !MatchAt(body, key, u)
  {
    forall u: nat | p < u <= e ensures !MatchAt(body, key, u) {
      assert body[u - 1] != '&';
    }
  }

  /** The length `find_kv` copies for the match at `p`: up to the next '&'
      or the end of the body, cut to `outLen - 1`. */
  function CopyLen(body: string, key: string, p: nat, outLen: nat): (len: nat)
    requires outLen >= 1 && MatchAt(body, key, p)
    ensures len < outLen && p + |key| + 1 + len <= |body|
  {
    var start := p + |key| + 1;
    var full := match AmpFrom(body, start) case Some(e) => e - start case None => |body| - start;
    if full >= outLen then outLen - 1 else full
  }

  /** The value of the first match at `p` is the '+'-decoded slice of
      CopyLen chars after the '='. */
  lemma MatchValue(body: string, key: string, p: nat, outLen: nat)
    requires outLen >= 1 && MatchAt(body, key, p) && FirstMatch(body, key) == Some(p)
    ensures var start := p + |key| + 1;
            FindKvValue(body, key, outLen) == Some(PlusToSpace(body[start..start + CopyLen(body, key, p, outLen)]))
  {
    var start := p + |key| + 1;
    var raw := RawValue(body, key, p);
    assert raw == body[start..start + |raw|];
    var len := CopyLen(body, key, p, outLen);
    assert Truncate(raw, outLen - 1) == raw[..len] == body[start..start + len];
  }

  /** A buffer holding the copied match, as CopyMatch leaves it, holds the
      looked-up value followed by a NUL. */
  lemma CopiedIsValue(body: string, key: string, p: nat, o: seq<char>, o0: seq<char>)
    requires |o| == |o0| >= 1 && MatchAt(body, key, p) && FirstMatch(body, key) == Some(p)
    requires var start, len := p + |key| + 1, CopyLen(body, key, p, |o|);
             && o[..len] == PlusToSpace(body[start..start + len])
             && o[len] == '\0'
             && o[len + 1..] == o0[len + 1..]
    ensures FindKvValue(body, key, |o|).Some?
    ensures var v := FindKvValue(body, key, |o|).value;
            o[..|v|] == v && o[|v|] == '\0' && o[|v| + 1..] == o0[|v| + 1..]
  {
    MatchValue(body, key, p, |o|);
  }

  /** The matching branch of `find_kv`: the value runs to the next '&' or
      the end, is cut to fit `out` with its NUL (CopyLen chars), copied,
      NUL-terminated and '+'-decoded in place. */
  method CopyMatch(body: string, key: string, p: nat, out: array<char>)
    requires out.Length >= 1 && MatchAt(body, key, p)
    modifies out
    ensures var start, len := p + |key| + 1, CopyLen(body, key, p, out.Length);
              && out[..len] == PlusToSpace(body[start..start + len])
              && out[len] == '\0'
              && out[len + 1..] == old(out[len + 1..])
  {
    var start := p + |key| + 1;
    var end := AmpFrom(body, start);
    var len: nat := if end.Some? then end.value - start else |body| - start;
    if len >= out.Length {
      len := out.Length - 1;
    }
    assert len == CopyLen(body, key, p, out.Length);
    ghost var before := out[..];
    CopyValue(body, start, len, out);
    ghost var copied := out[..];
    assert copied[len + 1..] == before[len + 1..];
    ReplacePlus(out, len);
    assert out[len + 1..] == copied[len + 1..];
  }

  /** No match before `p` means the first match from 0 is the first from `p`. */
  lemma {:induction false} FirstMatchSkip(body: string, key: string, p: nat)
    requires p <= |body|
    requires forall u: nat :: u < p ==> !MatchAt(body, key, u)
    ensures FirstMatch(body, key) == FirstMatchFrom(body, key, p)
    decreases p
  {
    if p > 0 {
      FirstMatchSkip(body, key, p - 1);
    }
  }

  lemma FirstMatchNone(body: string, key: string)
    requires forall u: nat :: u < |body| ==> !MatchAt(body, key, u)
    ensures FirstMatch(body, key).None?
  {
  }

  /** The `memcpy` of the value and the terminating NUL. */
  method CopyValue(body: string, start: nat, len: nat, out: array<char>)
    requires start + len <= |body| && len < out.Length
    modifies out
    ensures out[..len] == body[start..start + len]
    ensures out[len] == '\0'
    ensures out[len + 1..] == old(out[len + 1..])
  {
    forall i | 0 <= i < len {
      out[i] := body[start + i];
    }
    out[len] := '\0';
  }

  /** The in-place loop turning '+' into ' ' in the first `len` chars. */
  method ReplacePlus(out: array<char>, len: nat)
    requires len < out.Length
    modifies out
    ensures out[..len] == PlusToSpace(old(out[..len]))
    ensures out[len..] == old(out[len..])
  {
    var i := 0;
    while i < len
      invariant i <= len
      invariant out[..i] == PlusToSpace(old(out[..i]))
      invariant out[i..] == old(out[i..])
    {
      if out[i] == '+' {
        out[i] := ' ';
      }
      i := i + 1;
    }
  }

  // ---------------------------------------------------------------------
  // sta_state_to_str
  // ---------------------------------------------------------------------

  /** The numeric value of a `wifi_sta_state_t`, in declaration order. */
  function StateCode(s: StaState): (c: int)
    ensures 0 <= c <= 3
  {
    match s
      case Idle => 0
      case Connecting => 1
      case Connected => 2
      case Failed => 3
  }

  /** `sta_state_to_str`: the name the status JSON shows for a state value;
      any value outside the enum reads "unknown". */
  function StaStateToStr(code: int): (r: string)
    ensures (code < 0 || code > 3) <==> r == "unknown"
  {
    if code == 0 then "idle"
    else if code == 1 then "connecting"
    else if code == 2 then "connected"
    else if code == 3 then "failed"
    else "unknown"
  }

  /** Every state has its own name, and none reads "unknown". */
  lemma StateNamesDistinct(a: StaState, b: StaState)
    ensures StaStateToStr(StateCode(a)) != "unknown"
    ensures StaStateToStr(StateCode(a)) == StaStateToStr(StateCode(b)) <==> a == b
  {
    assert "idle" != "connecting" && "idle" != "connected" && "idle" != "failed";
    assert "connecting" != "connected" && "connecting" != "failed";
    assert "connected" != "failed";
  }

  // ---------------------------------------------------------------------
  // The `max` query parameter of the scan endpoint
  // ---------------------------------------------------------------------

  const DefaultScanMax := 10
  const ScanMaxLimit := 20

  /** The result count of `api_wifi_scan_get`: `maxValue` is the value of
      the `max` query key, None when the query or the key is missing; the
      parsed value is taken only when it lies in 1..20, else 10 stays. */
  function ScanMax(maxValue: Option<string>): (r: int)
    ensures 1 <= r <= ScanMaxLimit
    ensures maxValue.None? ==> r == DefaultScanMax
    ensures maxValue.Some? && 1 <= Atoi(maxValue.value) <= ScanMaxLimit ==> r == Atoi(maxValue.value)
    ensures maxValue.Some? && !(1 <= Atoi(maxValue.value) <= ScanMaxLimit) ==> r == DefaultScanMax
  {
    if maxValue.Some? then
      var m := Atoi(maxValue.value);
      if 1 <= m <= ScanMaxLimit then m else DefaultScanMax
    else DefaultScanMax
  }

  /** Asking for `max=n` in decimal gives exactly `n` results when
      1 <= n <= 20, and 10 for any larger n. */
  lemma ScanMaxOfDecimal(n: nat)
    ensures 1 <= n <= ScanMaxLimit ==> ScanMax(Some(Decimal(n))) == n
    ensures n > ScanMaxLimit || n == 0 ==> ScanMax(Some(Decimal(n))) == DefaultScanMax
  {
    AtoiDecimal(n, "");
    assert Decimal(n) + "" == Decimal(n);
  }
}
