// Persistence of the STA credentials in the "cfg" NVS namespace: load,
// save and clear of the `sta_ssid` and `sta_pass` string entries.

module AppSettingsPersistence {
  import opened Common
  import opened SettingsStorage

  const SsidKey := "sta_ssid"
  const PassKey := "sta_pass"
  /** `settings_wifi_t.ssid` and `.pass` with their NULs. */
  const SsidBufSize: nat := SsidMaxLen + 1
  const PassBufSize: nat := PassMaxLen + 1

  const Empty := SettingsWifi("", "")

  /** `nvs_get_str` into a buffer of `size` chars: NVS_NOT_FOUND for a
      missing key, NVS_INVALID_LENGTH when the value and its NUL do not
      fit; the value otherwise. */
  function GetStr(cfg: map<string, string>, key: string, size: nat): (r: (EspErr, string))
    ensures r.0 == Ok <==> key in cfg && |cfg[key]| < size
    ensures r.0 == Ok ==> r.1 == cfg[key]
    ensures r.0 != Ok ==> r.1 == "" && r.0 in {NvsNotFound, NvsInvalidLength}
    ensures r.0 == NvsNotFound <==> key !in cfg
  {
    if key !in cfg then (NvsNotFound, "")
    else if |cfg[key]| + 1 > size then (NvsInvalidLength, "")
    else (Ok, cfg[key])
  }

  /** What `app_settings_load_wifi` answers, as written, once the namespace
      is open. A missing ssid is ESP_ERR_NOT_FOUND and another ssid error is
      returned as is, both with empty strings. Otherwise the ssid is kept
      and the password always comes back empty: a password that was read is
      cleared (ESP_OK), and a missing one gives ESP_ERR_NVS_NOT_FOUND. */
  function LoadAsWritten(cfg: map<string, string>): (r: (EspErr, SettingsWifi))
    ensures r.1.pass == ""
    ensures r.0 == NotFound <==> SsidKey !in cfg
    ensures r.0 == Ok <==> GetStr(cfg, SsidKey, SsidBufSize).0 == Ok && PassKey in cfg
    ensures r.0 == NvsNotFound <==> GetStr(cfg, SsidKey, SsidBufSize).0 == Ok && PassKey !in cfg
    ensures r.0 != Ok && r.0 != NvsNotFound ==> r.1 == Empty
    ensures r.0 == Ok || r.0 == NvsNotFound ==> r.1.ssid == cfg[SsidKey] && Fits(r.1)
  {
    var e1 := GetStr(cfg, SsidKey, SsidBufSize);
    var e2 := GetStr(cfg, PassKey, PassBufSize);
    if e1.0 == NvsNotFound then (NotFound, Empty)
    else if e1.0 != Ok then (e1.0, Empty)
    else if e2.0 != NvsNotFound then (Ok, SettingsWifi(e1.1, ""))
    else (NvsNotFound, SettingsWifi(e1.1, ""))
  }

  /** The load the error mapping evidently means: a password that was read
      is kept, a missing one reads as "" with ESP_OK, any other password
      error is returned with the password cleared. */
  function LoadIntended(cfg: map<string, string>): (r: (EspErr, SettingsWifi))
    ensures r.0 == Ok ==> SsidKey in cfg && r.1.ssid == cfg[SsidKey] && Fits(r.1)
    ensures r.0 == Ok && PassKey in cfg ==> r.1.pass == cfg[PassKey]
    ensures r.0 == NotFound <==> SsidKey !in cfg
  {
    var e1 := GetStr(cfg, SsidKey, SsidBufSize);
    var e2 := GetStr(cfg, PassKey, PassBufSize);
    if e1.0 == NvsNotFound then (NotFound, Empty)
    else if e1.0 != Ok then (e1.0, Empty)
    else if e2.0 == NvsNotFound then (Ok, SettingsWifi(e1.1, ""))
    else if e2.0 != Ok then (e2.0, SettingsWifi(e1.1, ""))
    else (Ok, SettingsWifi(e1.1, e2.1))
  }

  /** The namespace after a save of `s` that got through both writes. */
  function Saved(cfg: map<string, string>, s: SettingsWifi): map<string, string>
  {
    cfg[SsidKey := s.ssid][PassKey := s.pass]
  }

  /** As written, saving credentials and loading them back loses the
      password, whatever it was. */
  lemma SaveLoadLosesPassword(cfg: map<string, string>, s: SettingsWifi)
    requires Fits(s) && s.ssid != ""
    ensures LoadAsWritten(Saved(cfg, s)) == (Ok, SettingsWifi(s.ssid, ""))
  {
    assert SsidKey != PassKey;
  }

  /** The concrete case: "Home" / "pw" comes back as "Home" / "". */
  lemma SaveLoadCounterexample()
    ensures LoadAsWritten(Saved(map[], SettingsWifi("Home", "pw"))) != (Ok, SettingsWifi("Home", "pw"))
  {
    SaveLoadLosesPassword(map[], SettingsWifi("Home", "pw"));
  }

  /** With the intended mapping, what was saved is what is loaded. */
  lemma SaveLoadIntendedRoundTrip(cfg: map<string, string>, s: SettingsWifi)
    requires Fits(s) && s.ssid != ""
    ensures LoadIntended(Saved(cfg, s)) == (Ok, s)
  {
    assert SsidKey != PassKey;
  }

  /** After a clear, a load finds no credentials, in either mapping. */
  lemma ClearLoadNotFound(cfg: map<string, string>)
    ensures LoadAsWritten(cfg - {SsidKey, PassKey}) == (NotFound, Empty)
    ensures LoadIntended(cfg - {SsidKey, PassKey}) == (NotFound, Empty)
  {
  }

  /** What the NVS calls of one save or clear answer. */
  datatype NvsFaults = NvsFaults(openErr: EspErr, setSsidErr: EspErr, setPassErr: EspErr, commitErr: EspErr)

  /** The "cfg" namespace's string entries. Writes take effect as each
      `nvs_set_str` succeeds. */
  class SettingsStore {
    var cfg: map<string, string>

    constructor (initial: map<string, string>)
      ensures cfg == initial
    {
      cfg := initial;
    }

    /** `app_settings_load_wifi`, step by step in the source's order: a
        missing output is INVALID_ARG; the output is zeroed, a failed open is
        returned with it still zeroed, and then the two reads are mapped.
        LoadAsWritten is the same mapping as a value, and the ensures ties
        the two together. Nothing is written. */
    method LoadWifi(outPresent: bool, openErr: EspErr) returns (err: EspErr, out: Option<SettingsWifi>)
      ensures !outPresent ==> err == InvalidArg && out.None?
      ensures outPresent && openErr != Ok ==> err == openErr && out == Some(Empty)
      ensures outPresent && openErr == Ok ==> out.Some? && (err, out.value) == LoadAsWritten(cfg)
    {
      if !outPresent {
        return InvalidArg, None;
      }
      var ssid, pass := "", "";
      if openErr != Ok {
        return openErr, Some(SettingsWifi(ssid, pass));
      }
      var e1 := GetStr(cfg, SsidKey, SsidBufSize);
      var e2 := GetStr(cfg, PassKey, PassBufSize);
      ssid, pass := e1.1, e2.1;
      if e1.0 == NvsNotFound {
        ssid, pass := "", "";
        return NotFound, Some(SettingsWifi(ssid, pass));
      }
      if e1.0 != Ok {
        ssid, pass := "", "";
        return e1.0, Some(SettingsWifi(ssid, pass));
      }
      if e2.0 != NvsNotFound {
        pass := "";
      } else if e2.0 != Ok {
        pass := "";
        return e2.0, Some(SettingsWifi(ssid, pass));
      }
      return Ok, Some(SettingsWifi(ssid, pass));
    }

    /** `app_settings_save_wifi`: a missing input or an empty ssid is
        INVALID_ARG; then open, write the ssid, write the password and
        commit, stopping at the first error, which is returned. */
    method SaveWifi(input: Option<SettingsWifi>, io: NvsFaults) returns (err: EspErr)
      modifies this
      ensures input.None? || input.value.ssid == "" ==> err == InvalidArg && cfg == old(cfg)
      ensures input.Some? && input.value.ssid != "" ==>
                if io.openErr != Ok then err == io.openErr && cfg == old(cfg)
                else if io.setSsidErr != Ok then err == io.setSsidErr && cfg == old(cfg)
                else if io.setPassErr != Ok then err == io.setPassErr && cfg == old(cfg)[SsidKey := input.value.ssid]
                else err == io.commitErr && cfg == Saved(old(cfg), input.value)
    {
      if input.None? || input.value.ssid == "" {
        return InvalidArg;
      }
      if io.openErr != Ok {
        return io.openErr;
      }
      err := io.setSsidErr;
      if err == Ok {
        cfg := cfg[SsidKey := input.value.ssid];
        err := io.setPassErr;
        if err == Ok {
          cfg := cfg[PassKey := input.value.pass];
        }
      }
      if err == Ok {
        err := io.commitErr;
      }
    }

    /** `app_settings_clear_wifi`: once the namespace is open both keys are
        erased (a missing key is no error) and the commit's result is
        returned. */
    method ClearWifi(io: NvsFaults) returns (err: EspErr)
      modifies this
      ensures io.openErr != Ok ==> err == io.openErr && cfg == old(cfg)
      ensures io.openErr == Ok ==> err == io.commitErr && cfg == old(cfg) - {SsidKey, PassKey}
    {
      if io.openErr != Ok {
        return io.openErr;
      }
      cfg := cfg - {SsidKey};
      cfg := cfg - {PassKey};
      err := io.commitErr;
    }
  }
}
