// The JSON-blob helpers over the "cfg" NVS namespace: what `nvs_load_json`,
// `nvs_save_json` and `nvs_erase_key_cfg` answer for the answers of the NVS
// calls they make.

module NvsHelpers {
  import opened Common

  /** `nvs_load_json`: a missing key, buffer or length is INVALID_ARG; a
      failed read-only open is returned as is; otherwise the read's answer,
      with ESP_ERR_NVS_NOT_FOUND turned into ESP_ERR_NOT_FOUND. */
  function LoadJsonErr(argsOk: bool, openErr: EspErr, getErr: EspErr): (e: EspErr)
    ensures e == Ok <==> argsOk && openErr == Ok && getErr == Ok
    ensures !argsOk ==> e == InvalidArg
    ensures argsOk && openErr != Ok ==> e == openErr
    ensures argsOk && openErr == Ok ==> (e == NotFound <==> getErr in {NvsNotFound, NotFound})
    ensures e == NvsNotFound <==> argsOk && openErr == NvsNotFound
  {
    if !argsOk then InvalidArg
    else if openErr != Ok then openErr
    else if getErr == NvsNotFound then NotFound
    else getErr
  }

  /** The load as its callers read it: a namespace that was never written,
      for which the read-only open answers ESP_ERR_NVS_NOT_FOUND, is no
      stored value, like a missing key. */
  function LoadJsonErrIntended(argsOk: bool, openErr: EspErr, getErr: EspErr): (e: EspErr)
    ensures e == Ok <==> argsOk && openErr == Ok && getErr == Ok
    ensures e != NvsNotFound
    ensures argsOk ==> (e == NotFound <==> openErr in {NvsNotFound, NotFound}
                                           || (openErr == Ok && getErr in {NvsNotFound, NotFound}))
  {
    if !argsOk then InvalidArg
    else if openErr == NvsNotFound then NotFound
    else LoadJsonErr(argsOk, openErr, getErr)
  }

  /** The two loads differ only for a namespace that does not exist. */
  lemma LoadJsonErrsAgree(argsOk: bool, openErr: EspErr, getErr: EspErr)
    ensures (LoadJsonErrIntended(argsOk, openErr, getErr) != LoadJsonErr(argsOk, openErr, getErr))
            <==> argsOk && openErr == NvsNotFound
  {
  }

  /** `nvs_save_json`: a missing key or text is INVALID_ARG; then the
      read-write open, the set and the commit, stopping at the first
      error. */
  function SaveJsonErr(argsOk: bool, openErr: EspErr, setErr: EspErr, commitErr: EspErr): (e: EspErr)
    ensures e == Ok <==> argsOk && openErr == Ok && setErr == Ok && commitErr == Ok
    ensures !argsOk ==> e == InvalidArg
    ensures argsOk && e != Ok ==> e == (if openErr != Ok then openErr else if setErr != Ok then setErr else commitErr)
  {
    if !argsOk then InvalidArg
    else if openErr != Ok then openErr
    else if setErr != Ok then setErr
    else commitErr
  }

  /** `nvs_erase_key_cfg`: after the open, the erase's own answer is
      ignored (a missing key is no error) and the commit's is returned. */
  function EraseKeyErr(keyPresent: bool, openErr: EspErr, eraseErr: EspErr, commitErr: EspErr): (e: EspErr)
    ensures !keyPresent ==> e == InvalidArg
    ensures keyPresent && openErr != Ok ==> e == openErr
    ensures keyPresent && openErr == Ok ==> e == commitErr
  {
    if !keyPresent then InvalidArg
    else if openErr != Ok then openErr
    else commitErr
  }
}
