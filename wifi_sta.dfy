/** The station-mode connection manager of the firmware: the status record
    `s_status` (state, SSID, IPv4 address, retry count) and the one-shot
    retry timer, driven by `wifi_sta_connect`, the disconnect and got-IP
    event handlers and the retry-timer callback. The Wi-Fi driver's answers
    (radio mode, `esp_wifi_set_config`, `esp_wifi_connect`) are inputs, and
    the calls made into the driver are recorded in a log. */
module WifiSta {
  import opened Common

  /** `wifi_sta_state_t`, in declaration order (IDLE = 0 … FAILED = 3). */
  datatype StaState = Idle | Connecting | Connected | Failed

  /** The radio modes `esp_wifi_get_mode` can report. */
  datatype WifiMode = ModeNull | ModeSta | ModeAp | ModeApSta

  /** A call made into the Wi-Fi driver. */
  datatype DriverCall =
    | WifiDisconnect                                  // esp_wifi_disconnect
    | WifiSetConfig(ssid: string, password: string)   // esp_wifi_set_config(WIFI_IF_STA, …)
    | WifiConnect                                     // esp_wifi_connect

  /** What the driver answers during one connection attempt. */
  datatype Radio = Radio(modeErr: EspErr, mode: WifiMode, setConfigErr: EspErr, connectErr: EspErr)

  /** `wifi_sta_status_t`: ssid is a `char[33]`, ip a `uint8_t[4]`. */
  datatype Status = Status(state: StaState, ssid: string, ip: seq<Byte>, retryCount: nat)

  const SsidMax: nat := 32        // chars kept in s_status.ssid
  const CfgSsidMax: nat := 31     // chars kept in the driver's uint8_t ssid[32] after the forced NUL
  const CfgPassMax: nat := 63     // chars kept in the driver's uint8_t password[64]
  const MaxRetries: nat := 10
  const RetryDelayCapMs: nat := 10000
  const ZeroIp: seq<Byte> := [0, 0, 0, 0]

  /** The status every reachable state satisfies: a 4-byte address, an SSID
      that fits its buffer, and a retry count that never passes 10 (so the
      `uint32_t` counter cannot wrap). */
  predicate Invariant(s: Status)
  {
    |s.ip| == 4 && |s.ssid| <= SsidMax && s.retryCount <= MaxRetries
  }

  /** The boot-time value of `s_status`. */
  function InitialStatus(): (s: Status)
    ensures Invariant(s) && s.state == Idle && s.retryCount == 0
  {
    Status(Idle, "", ZeroIp, 0)
  }

  /** The delay `schedule_retry(n)` arms the timer with: 1000 ms per attempt
      counted from n + 1, capped at 10 s. */
  function RetryDelayMs(n: nat): (d: nat)
    ensures 1000 <= d <= RetryDelayCapMs
    ensures n <= 9 ==> d == 1000 * (n + 1)
    ensures n >= 9 ==> d == RetryDelayCapMs
  {
    var raw := 1000 * (n + 1);
    if raw > RetryDelayCapMs then RetryDelayCapMs else raw
  }

  /** The status right after `wifi_sta_connect` accepted an SSID. */
  function StartAttempt(requested: string): (t: Status)
    requires requested != ""
    ensures Invariant(t)
    ensures t.state == Connecting && t.retryCount == 0 && t.ip == ZeroIp
    ensures t.ssid <= requested && (|requested| <= SsidMax ==> t.ssid == requested)
  {
    Status(Connecting, Truncate(requested, SsidMax), ZeroIp, 0)
  }

  /** WIFI_EVENT_STA_DISCONNECTED: a connected station falls back to
      connecting with its address cleared; then either one more retry is
      counted or, with 10 already counted, the state becomes FAILED. */
  function AfterDisconnect(s: Status): (t: Status)
    ensures t.ssid == s.ssid
    ensures t.ip == (if s.state == Connected then ZeroIp else s.ip)
    ensures s.retryCount < MaxRetries ==>
              t.retryCount == s.retryCount + 1 && t.state == (if s.state == Connected then Connecting else s.state)
    ensures s.retryCount >= MaxRetries ==> t.retryCount == s.retryCount && t.state == Failed
  {
    var lost := if s.state == Connected then s.(state := Connecting, ip := ZeroIp) else s;
    if lost.retryCount < MaxRetries then lost.(retryCount := lost.retryCount + 1)
    else lost.(state := Failed)
  }

  /** The retry delay a disconnect arms, if it arms one. */
  function DisconnectRetryDelay(s: Status): (d: Option<nat>)
    ensures d.Some? <==> s.retryCount < MaxRetries
    ensures d.Some? ==> d.value == RetryDelayMs(s.retryCount + 1)
  {
    if s.retryCount < MaxRetries then Some(RetryDelayMs(s.retryCount + 1)) else None
  }

  /** IP_EVENT_STA_GOT_IP, whatever the current state. */
  function AfterGotIp(s: Status, addr: seq<Byte>): (t: Status)
    ensures t.state == Connected && t.ip == addr && t.retryCount == 0 && t.ssid == s.ssid
  {
    Status(Connected, s.ssid, addr, 0)
  }

  /** `apply_and_connect_sta`: argument check, radio-mode check (the mode is
      never switched here, which would stop the access point), then
      disconnect, configure with bounded copies and connect. Returns the
      error and the driver calls made. */
  function ApplyAndConnect(ssid: Option<string>, pass: Option<string>, radio: Radio): (r: (EspErr, seq<DriverCall>))
    ensures ssid.None? || ssid.value == "" || pass.None? ==> r == (InvalidArg, [])
    ensures r.1 != [] <==>
              ssid.Some? && ssid.value != "" && pass.Some? && radio.modeErr == Ok && radio.mode == ModeApSta
    ensures r.1 != [] ==>
              && 2 <= |r.1| && r.1[..2] == [WifiDisconnect, WifiSetConfig(Truncate(ssid.value, CfgSsidMax), Truncate(pass.value, CfgPassMax))]
              && (|r.1| == 3 <==> radio.setConfigErr == Ok)
              && (|r.1| == 3 ==> r.1[2] == WifiConnect)
    ensures r.0 == Ok <==>
              ssid.Some? && ssid.value != "" && pass.Some? && radio.modeErr == Ok && radio.mode == ModeApSta
              && radio.setConfigErr == Ok && radio.connectErr == Ok
    ensures ssid.Some? && ssid.value != "" && pass.Some? && radio.modeErr == Ok && radio.mode != ModeApSta ==>
              r == (InvalidState, [])
  {
    if ssid.None? || ssid.value == "" || pass.None? then (InvalidArg, [])
    else if radio.modeErr != Ok then (radio.modeErr, [])
    else if radio.mode != ModeApSta then (InvalidState, [])
    else
      var configured := [WifiDisconnect, WifiSetConfig(Truncate(ssid.value, CfgSsidMax), Truncate(pass.value, CfgPassMax))];
      if radio.setConfigErr != Ok then (radio.setConfigErr, configured)
      else (radio.connectErr, configured + [WifiConnect])
  }

  /** The status after k disconnect events in a row. */
  function Disconnects(s: Status, k: nat): Status
  {
    if k == 0 then s else AfterDisconnect(Disconnects(s, k - 1))
  }

  /** Every event keeps the status invariant. */
  lemma EventsKeepInvariant(s: Status, requested: string, addr: seq<Byte>)
    requires Invariant(s) && requested != "" && |addr| == 4
    ensures Invariant(AfterDisconnect(s))
    ensures Invariant(AfterGotIp(s, addr))
    ensures Invariant(StartAttempt(requested))
  {
  }

  /** After a fresh attempt (connecting or connected with nothing counted),
      the first k <= 10 disconnects keep the station connecting with k
      retries counted. */
  lemma {:induction false} RetryRun(s: Status, k: nat)
    requires (s.state == Connecting || s.state == Connected) && s.retryCount == 0
    requires 1 <= k <= MaxRetries
    ensures Disconnects(s, k) ==
              Status(Connecting, s.ssid, if s.state == Connected then ZeroIp else s.ip, k)
  {
    if k > 1 {
      RetryRun(s, k - 1);
    }
  }

  /** The 11th disconnect after a fresh attempt is the one that gives up:
      the state becomes FAILED with the count left at 10. */
  lemma FailsOnEleventhDisconnect(s: Status)
    requires (s.state == Connecting || s.state == Connected) && s.retryCount == 0
    ensures Disconnects(s, MaxRetries).state == Connecting
    ensures Disconnects(s, MaxRetries + 1).state == Failed
    ensures Disconnects(s, MaxRetries + 1).retryCount == MaxRetries
  {
    RetryRun(s, MaxRetries);
  }

  /** FAILED is absorbing under disconnects: nothing changes any more. */
  lemma {:induction false} FailedIsSticky(s: Status, k: nat)
    requires s.state == Failed && s.retryCount == MaxRetries
    ensures Disconnects(s, k) == s
  {
    if k > 0 {
      FailedIsSticky(s, k - 1);
    }
  }

  /** The k-th disconnect after a fresh attempt arms the retry timer with
      RetryDelayMs(k), i.e. 2000, 3000, …, 10000, 10000 ms, and the 11th arms
      nothing. */
  lemma RetryBackoff(s: Status, k: nat)
    requires (s.state == Connecting || s.state == Connected) && s.retryCount == 0
    requires 1 <= k <= MaxRetries
    ensures DisconnectRetryDelay(Disconnects(s, k - 1)) == Some(RetryDelayMs(k))
    ensures DisconnectRetryDelay(Disconnects(s, MaxRetries)) == None
  {
    if k > 1 {
      RetryRun(s, k - 1);
    }
    RetryRun(s, MaxRetries);
  }

  /** The whole backoff schedule, written out. */
  lemma BackoffSchedule()
    ensures seq(10, i requires 0 <= i < 10 => RetryDelayMs(i + 1))
            == [2000, 3000, 4000, 5000, 6000, 7000, 8000, 9000, 10000, 10000]
  {
  }

  /** The connection manager: `s_status` plus the retry timer and a log of
      the driver calls made. */
  class StaManager {
    var state: StaState
    var ssid: string
    var ip: seq<Byte>
    var retryCount: nat
    const timerCreated: bool            // s_retry_timer != NULL (made by wifi_sta_init)
    var pendingRetryMs: Option<nat>     // the one-shot retry timer, when armed
    var driverLog: seq<DriverCall>      // driver calls made, oldest first

    function Snapshot(): Status
      reads this
    {
      Status(state, ssid, ip, retryCount)
    }

    ghost predicate Valid()
      reads this
    {
      Invariant(Snapshot()) && (!timerCreated ==> pendingRetryMs == None)
    }

    constructor (withTimer: bool)
      ensures Valid() && Snapshot() == InitialStatus()
      ensures timerCreated == withTimer && pendingRetryMs == None && driverLog == []
    {
      state, ssid, ip, retryCount := Idle, "", ZeroIp, 0;
      timerCreated := withTimer;
      pendingRetryMs := None;
      driverLog := [];
    }

    /** `schedule_retry(n)`: re-arm the timer with the backoff delay, if the
        timer exists. */
    method ScheduleRetry(n: nat)
      modifies this`pendingRetryMs
      ensures pendingRetryMs == if timerCreated then Some(RetryDelayMs(n)) else old(pendingRetryMs)
    {
      var delayMs := 1000 * (n + 1);
      if delayMs > RetryDelayCapMs {
        delayMs := RetryDelayCapMs;
      }
      if !timerCreated {
        return;
      }
      pendingRetryMs := None;            // esp_timer_stop
      pendingRetryMs := Some(delayMs);   // esp_timer_start_once
    }

    /** `wifi_sta_connect`. A missing or empty SSID is refused with the status
        untouched; otherwise the pending retry is cancelled and the status is
        reset to a fresh CONNECTING attempt BEFORE the driver is asked
        anything, so a wrong radio mode returns INVALID_STATE while the state
        already reads CONNECTING. A missing password means "". */
    method Connect(newSsid: Option<string>, pass: Option<string>, radio: Radio) returns (err: EspErr)
      requires Valid()
      modifies this
      ensures Valid()
      ensures newSsid.None? || newSsid.value == "" ==>
                err == InvalidArg && Snapshot() == old(Snapshot())
                && pendingRetryMs == old(pendingRetryMs) && driverLog == old(driverLog)
      ensures newSsid.Some? && newSsid.value != "" ==>
                && Snapshot() == StartAttempt(newSsid.value)
                && pendingRetryMs == None
                && var (e, calls) := ApplyAndConnect(newSsid, Some(if pass.Some? then pass.value else ""), radio);
                   err == e && driverLog == old(driverLog) + calls
    {
      if newSsid.None? || newSsid.value == "" {
        return InvalidArg;
      }
      var passStr := if pass.Some? then pass.value else "";
      if timerCreated {
        pendingRetryMs := None;
      }
      ssid := Truncate(newSsid.value, SsidMax);
      ip := ZeroIp;
      retryCount := 0;
      state := Connecting;
      var attempt := ApplyAndConnect(newSsid, Some(passStr), radio);
      err := attempt.0;
      driverLog := driverLog + attempt.1;
    }

    /** The DISCONNECTED branch of the Wi-Fi event handler. */
    method OnDisconnected()
      requires Valid()
      modifies this
      ensures Valid()
      ensures Snapshot() == AfterDisconnect(old(Snapshot()))
      ensures pendingRetryMs ==
                if timerCreated && old(retryCount) < MaxRetries then DisconnectRetryDelay(old(Snapshot()))
                else old(pendingRetryMs)
      ensures driverLog == old(driverLog)
    {
      if state == Connected {
        state := Connecting;
        ip := ZeroIp;
      }
      if retryCount < MaxRetries {
        retryCount := retryCount + 1;
        ScheduleRetry(retryCount);
      } else {
        state := Failed;
      }
    }

    /** `ip_event_handler` for IP_EVENT_STA_GOT_IP. */
    method OnGotIp(addr: seq<Byte>)
      requires Valid() && |addr| == 4
      modifies this
      ensures Valid()
      ensures Snapshot() == AfterGotIp(old(Snapshot()), addr)
      ensures pendingRetryMs == old(pendingRetryMs) && driverLog == old(driverLog)
    {
      ip := addr;
      state := Connected;
      retryCount := 0;
    }

    /** `retry_timer_cb`: the timer has fired; it asks the driver to connect
        again only while the state is CONNECTING. */
    method RetryTimerFired() returns (reconnected: bool)
      requires Valid()
      modifies this`pendingRetryMs, this`driverLog
      ensures Valid()
      ensures reconnected <==> state == Connecting
      ensures pendingRetryMs == None
      ensures driverLog == old(driverLog) + (if reconnected then [WifiConnect] else [])
    {
      pendingRetryMs := None;
      if state != Connecting {
        return false;
      }
      driverLog := driverLog + [WifiConnect];
      return true;
    }

    /** `wifi_sta_connect_from_nvs`, given what `app_settings_load_wifi`
        returned. NOT_FOUND or an empty stored SSID parks the manager in
        IDLE (nothing else in the status changes) and reports NOT_FOUND;
        another load error is passed on untouched; otherwise it connects. */
    method ConnectFromNvs(loadErr: EspErr, storedSsid: string, storedPass: string, radio: Radio)
      returns (err: EspErr)
      requires Valid()
      modifies this
      ensures Valid()
      ensures loadErr == NotFound || storedSsid == "" ==>
                err == NotFound && Snapshot() == old(Snapshot()).(state := Idle)
                && pendingRetryMs == old(pendingRetryMs) && driverLog == old(driverLog)
      ensures loadErr != NotFound && storedSsid != "" && loadErr != Ok ==>
                err == loadErr && Snapshot() == old(Snapshot())
                && pendingRetryMs == old(pendingRetryMs) && driverLog == old(driverLog)
      ensures loadErr == Ok && storedSsid != "" ==>
                && Snapshot() == StartAttempt(storedSsid)
                && pendingRetryMs == None
                && var (e, calls) := ApplyAndConnect(Some(storedSsid), Some(storedPass), radio);
                   err == e && driverLog == old(driverLog) + calls
    {
      if loadErr == NotFound || storedSsid == "" {
        state := Idle;
        return NotFound;
      }
      if loadErr != Ok {
        return loadErr;
      }
      err := Connect(Some(storedSsid), Some(storedPass), radio);
    }

    /** `wifi_sta_get_status`: a copy of the status, which always satisfies
        the invariant. */
    method GetStatus() returns (s: Status)
      requires Valid()
      ensures s == Snapshot() && Invariant(s)
      ensures s.retryCount <= MaxRetries && |s.ip| == 4
    {
      s := Status(state, ssid, ip, retryCount);
    }

    /** `wifi_sta_is_connected`. */
    method IsConnected() returns (connected: bool)
      ensures connected <==> state == Connected
    {
      connected := state == Connected;
    }
  }
}
