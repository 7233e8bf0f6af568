/** The saved Wi-Fi credentials document `{"ssid":…,"pass":…}`: decoding
    with a required non-empty SSID and bounded copies, and the encoder's
    choice between exposing the password and exposing only its length. */
module SettingsStorage {
  import opened Common
  import opened JsonValue

  const SsidMaxLen: nat := 32    // SETTINGS_WIFI_SSID_MAX_LEN
  const PassMaxLen: nat := 64    // SETTINGS_WIFI_PASS_MAX_LEN
  const KeySsid := "ssid"
  const KeyPass := "pass"
  const KeyPassLen := "pass_len"

  /** `settings_wifi_t`: ssid `char[33]`, pass `char[65]`. */
  datatype SettingsWifi = SettingsWifi(ssid: string, pass: string)

  predicate Fits(s: SettingsWifi)
  {
    |s.ssid| <= SsidMaxLen && |s.pass| <= PassMaxLen
  }

  /** The root object, seen through the keys "ssid" and "pass". */
  datatype WifiDoc = WifiDoc(ssid: Field, pass: Field)

  /** `settings_storage_wifi_from_json`: the credentials the text holds, or
      None (leaving `*out` untouched) for a null text or output, malformed
      text, or an ssid member that is missing, not a string or empty. */
  function WifiFromJson(json: Text<WifiDoc>, outPresent: bool): (r: Option<SettingsWifi>)
    ensures r.Some? <==> outPresent && json.Parsed? && json.root.ssid.JString? && json.root.ssid.s != ""
    ensures r.Some? ==> Fits(r.value) && r.value.ssid != ""
    ensures r.Some? ==> r.value.ssid <= json.root.ssid.s && r.value.pass <= (if json.root.pass.JString? then json.root.pass.s else "")
  {
    if !outPresent || !json.Parsed? then None
    else
      var doc := json.root;
      if doc.ssid.JString? && doc.ssid.s != "" then
        var pass := if doc.pass.JString? then Truncate(doc.pass.s, PassMaxLen) else "";
        Some(SettingsWifi(Truncate(doc.ssid.s, SsidMaxLen), pass))
      else None
  }

  /** Strings that fit their buffers are copied whole; longer ones are cut
      to 32 (ssid) and 64 (pass) characters; a missing or non-string pass
      reads as "". */
  lemma WifiFromJsonCopies(json: Text<WifiDoc>)
    requires WifiFromJson(json, true).Some?
    ensures WifiFromJson(json, true).value.ssid == Truncate(json.root.ssid.s, SsidMaxLen)
    ensures json.root.pass.JString? ==> WifiFromJson(json, true).value.pass == Truncate(json.root.pass.s, PassMaxLen)
    ensures !json.root.pass.JString? ==> WifiFromJson(json, true).value.pass == ""
  {
  }

  /** The object `settings_storage_wifi_to_json` builds: "ssid", then either
      "pass" or, when the password is not to be exposed, "pass_len" with its
      length. */
  function WifiJsonMembers(s: SettingsWifi, includePass: bool): (m: Members)
    ensures FieldOf(m, KeySsid) == JString(s.ssid)
    ensures includePass ==> FieldOf(m, KeyPass) == JString(s.pass) && FieldOf(m, KeyPassLen) == Missing
    ensures !includePass ==> FieldOf(m, KeyPass) == Missing && FieldOf(m, KeyPassLen) == JNumber(Number(|s.pass|))
  {
    [(KeySsid, JString(s.ssid))]
      + if includePass then [(KeyPass, JString(s.pass))] else [(KeyPassLen, JNumber(Number(|s.pass|)))]
  }

  /** How the decoder sees a document the encoder built. */
  function AsWifiDoc(m: Members): WifiDoc
  {
    WifiDoc(FieldOf(m, KeySsid), FieldOf(m, KeyPass))
  }

  /** Encoding then decoding returns stored credentials unchanged when the
      password is included, and with an empty password when only its length
      was written. */
  lemma WifiRoundTrip(s: SettingsWifi, includePass: bool)
    requires Fits(s) && s.ssid != ""
    ensures WifiFromJson(Parsed(AsWifiDoc(WifiJsonMembers(s, includePass))), true)
              == Some(if includePass then s else s.(pass := ""))
  {
    var doc := AsWifiDoc(WifiJsonMembers(s, includePass));
    assert doc.ssid == JString(s.ssid);
  }
}
