/** The string operations of Go's strings, strconv and fmt packages that the model uses. */
module Text {
  import opened Results

  /** strings.HasPrefix */
  predicate HasPrefix(s: string, prefix: string) {
    prefix <= s
  }

  predicate IsDigit(c: char) {
    '0' <= c <= '9'
  }

  predicate IsDigits(s: string) {
    forall i | 0 <= i < |s| :: IsDigit(s[i])
  }

  function Digit(d: nat): (c: char)
    requires d < 10
    ensures IsDigit(c) && c as int - '0' as int == d
  {
    ('0' as int + d) as char
  }

  /** strconv.Itoa of a number that is not negative. */
  function Itoa(n: nat): (s: string)
    ensures |s| > 0 && IsDigits(s) && Value(s) == n
  {
    if n < 10 then [Digit(n)] else
      var high := Itoa(n / 10);
      var s := high + [Digit(n % 10)];
      assert s[..|s| - 1] == high;
      s
  }

  /** The number a string of decimal digits denotes. */
  function Value(s: string): nat
    requires IsDigits(s)
  {
    if s == [] then 0 else 10 * Value(s[..|s| - 1]) + (s[|s| - 1] as int - '0' as int)
  }

  /** strconv.ParseUint(s, 10, 64) */
  function ParseUint(s: string): Option<nat> {
    if s == [] || !IsDigits(s) || Value(s) >= 0x1_0000_0000_0000_0000 then None else Some(Value(s))
  }

  /** strconv.Atoi with its error ignored, for the unsigned strings a revision can be. */
  function Atoi(s: string): nat {
    if s == [] || !IsDigits(s) then 0 else Value(s)
  }

  /** fmt.Sprintf("%06d", n), for any width. */
  function ZeroPadded(n: nat, width: nat): (s: string)
    ensures IsDigits(s) && Value(s) == n
  {
    Padded(Itoa(n), width)
  }

  function Padded(digits: string, width: nat): (s: string)
    requires IsDigits(digits)
    ensures IsDigits(s) && Value(s) == Value(digits)
    decreases width - |digits|
  {
    if |digits| >= width then digits else
      ValueOfLeadingZero(digits);
      Padded("0" + digits, width)
  }

  lemma {:induction false} ValueOfLeadingZero(digits: string)
    requires IsDigits(digits)
    ensures IsDigits("0" + digits) && Value("0" + digits) == Value(digits)
  {
    if digits != [] {
      assert ("0" + digits)[..|digits|] == "0" + digits[..|digits| - 1];
      ValueOfLeadingZero(digits[..|digits| - 1]);
    }
  }

  /** unicode.IsControl */
  predicate IsControl(c: char) {
    c as int < 0x20 || 0x7f <= c as int <= 0x9f
  }

  /** A device ID: not empty, not a dot segment, no slash or backslash, no control character. */
  predicate ValidId(id: string) {
    && id != "" && id != "." && id != ".."
    && forall i | 0 <= i < |id| :: id[i] != '/' && id[i] != '\\' && !IsControl(id[i])
  }
}
