/** Shared vocabulary of the firmware model: optional values, bytes, the
    ESP-IDF error codes the core returns, bounded C-string copies, and the
    opaque stand-in for the floating-point coordinates. */
module Common {

  datatype Option<T> = None | Some(value: T)

  /** An unsigned 8-bit value (`uint8_t`). */
  type Byte = x: int | 0 <= x < 256

  /** The `esp_err_t` codes the modelled code produces or passes on.
      `Other` stands for any further code a driver or NVS call may report. */
  datatype EspErr =
    | Ok                 // ESP_OK
    | Fail               // ESP_FAIL
    | NoMem              // ESP_ERR_NO_MEM
    | InvalidArg         // ESP_ERR_INVALID_ARG
    | InvalidState       // ESP_ERR_INVALID_STATE
    | InvalidSize        // ESP_ERR_INVALID_SIZE
    | NotFound           // ESP_ERR_NOT_FOUND
    | NvsNotFound        // ESP_ERR_NVS_NOT_FOUND
    | NvsInvalidLength   // ESP_ERR_NVS_INVALID_LENGTH
    | Other(code: int)

  /** A JSON number or C `double`, carried through unchanged. The model never
      computes with it: for latitude and longitude `raw` stands for the
      double's value opaquely, and an integer written as a number (the
      `pass_len` member) is `raw` itself, which a double holds exactly. */
  datatype Number = Number(raw: int)

  /** What `snprintf(dst, cap + 1, "%s", s)` or `strncpy` followed by a forced
      terminator leaves in a buffer of `cap + 1` chars: the longest prefix of
      `s` that has at most `cap` characters. */
  function Truncate(s: string, cap: nat): (r: string)
    ensures |r| <= cap && |r| <= |s|
    ensures r <= s
    ensures |s| <= cap ==> r == s
    ensures |s| > cap ==> |r| == cap
  {
    if |s| <= cap then s else s[..cap]
  }

  // The decimal reading of `atoi` and the decimal text of a number.

  predicate IsSpace(c: char)
  {
    c == ' ' || c == '\t' || c == '\n' || c == '\U{B}' || c == '\U{C}' || c == '\r'
  }

  predicate IsDigit(c: char)
  {
    '0' <= c <= '9'
  }

  /** The number of leading decimal digits of `s`. */
  function DigitRun(s: string): (n: nat)
    ensures n <= |s|
    ensures forall i :: 0 <= i < n ==> IsDigit(s[i])
    ensures n < |s| ==> !IsDigit(s[n])
  {
    if |s| == 0 || !IsDigit(s[0]) then 0 else 1 + DigitRun(s[1..])
  }

  /** The value of a string of decimal digits, most significant first. */
  function DigitsValue(s: string): (v: nat)
    requires forall i :: 0 <= i < |s| ==> IsDigit(s[i])
  {
    if |s| == 0 then 0
    else
      assert IsDigit(s[|s| - 1]);
      10 * DigitsValue(s[..|s| - 1]) + (s[|s| - 1] as int - '0' as int)
  }

  /** `atoi`: leading white space, an optional sign, then as many digits as
      follow; 0 when no digit follows. */
  function Atoi(s: string): int
    decreases |s|
  {
    if |s| > 0 && IsSpace(s[0]) then Atoi(s[1..])
    else if |s| > 0 && (s[0] == '-' || s[0] == '+') then
      var d := s[1..][..DigitRun(s[1..])];
      if s[0] == '-' then -(DigitsValue(d) as int) else DigitsValue(d)
    else DigitsValue(s[..DigitRun(s)])
  }

  /** The decimal text of a natural number, without leading zeros. */
  function Decimal(n: nat): (s: string)
    ensures |s| >= 1
    ensures forall i :: 0 <= i < |s| ==> IsDigit(s[i])
  {
    if n < 10 then [('0' as int + n) as char]
    else Decimal(n / 10) + [('0' as int + n % 10) as char]
  }

  /** Reading back the decimal text of `n` gives `n`. */
  lemma {:induction false} DigitsValueDecimal(n: nat)
    ensures DigitsValue(Decimal(n)) == n
  {
    if n >= 10 {
      DigitsValueDecimal(n / 10);
      var s := Decimal(n);
      assert s[..|s| - 1] == Decimal(n / 10);
    }
  }

  /** `atoi` reads back the decimal text of `n`, whatever non-digit text
      follows it. */
  lemma AtoiDecimal(n: nat, rest: string)
    requires |rest| == 0 || !IsDigit(rest[0])
    ensures Atoi(Decimal(n) + rest) == n
  {
    var d := Decimal(n);
    var s := d + rest;
    assert DigitRun(s) == |d| by {
      assert forall i :: 0 <= i < |d| ==> s[i] == d[i];
      if |rest| > 0 {
        assert s[|d|] == rest[0];
      }
    }
    assert s[..|d|] == d;
    DigitsValueDecimal(n);
  }
}
