/**
 * The part of Python's `int(x, 0)` the partition tables need, and the
 * `{:X}` rendering of a non-negative integer.
 */
module PyInt {

  import opened Wrappers

  predicate IsDecDigit(c: char)
  {
    '0' <= c <= '9'
  }

  predicate IsHexDigit(c: char)
  {
    IsDecDigit(c) || 'a' <= c <= 'f' || 'A' <= c <= 'F'
  }

  predicate AllHex(s: string)
  {
    forall i :: 0 <= i < |s| ==> IsHexDigit(s[i])
  }

  predicate AllDec(s: string)
  {
    forall i :: 0 <= i < |s| ==> IsDecDigit(s[i])
  }

  function DigitValue(c: char): (d: nat)
    requires IsHexDigit(c)
    ensures d < 16 && (IsDecDigit(c) ==> d < 10)
  {
    if IsDecDigit(c) then c as int - '0' as int
    else if 'a' <= c <= 'f' then c as int - 'a' as int + 10
    else c as int - 'A' as int + 10
  }

  /** The value of a digit string in the given base, most significant digit first. */
  function Value(s: string, base: nat): nat
    requires AllHex(s)
  {
    if s == [] then 0 else Value(s[..|s| - 1], base) * base + DigitValue(s[|s| - 1])
  }

  /**
   * `int(s, 0)` for the spellings a partition table uses: `0x`/`0X` followed by
   * hex digits, or a decimal numeral, which base 0 refuses to write with a
   * leading zero unless it is all zeros. Anything else raises `ValueError`,
   * modelled as `None`.
   */
  function ParseInt(s: string): Option<nat>
  {
    if |s| >= 2 && s[0] == '0' && (s[1] == 'x' || s[1] == 'X') then
      if |s| > 2 && AllHex(s[2..]) then Some(Value(s[2..], 16)) else None
    else if s != [] && AllDec(s) && (s[0] != '0' || forall i :: 0 <= i < |s| ==> s[i] == '0') then
      Some(Value(s, 10))
    else None
  }

  function HexDigitUpper(d: nat): (c: char)
    requires d < 16
    ensures IsHexDigit(c) && DigitValue(c) == d && !('a' <= c <= 'z')
  {
    if d < 10 then (48 + d) as char else (55 + d) as char
  }

  /** Python's `f"{n:X}"`: upper-case hexadecimal digits, no padding, no prefix. */
  function HexUpper(n: nat): (r: string)
    ensures r != [] && AllHex(r)
    ensures forall i :: 0 <= i < |r| ==> !('a' <= r[i] <= 'z') && r[i] != ' ' && r[i] != '"'
    ensures n > 0 ==> r[0] != '0'
    ensures n == 0 ==> r == "0"
    decreases n
  {
    if n < 16 then [HexDigitUpper(n)] else HexUpper(n / 16) + [HexDigitUpper(n % 16)]
  }

  /** Reading the rendered digits back in base 16 gives the number. */
  lemma {:induction false} HexUpperValue(n: nat)
    ensures Value(HexUpper(n), 16) == n
    decreases n
  {
    var r := HexUpper(n);
    if n >= 16 {
      HexUpperValue(n / 16);
      assert r[..|r| - 1] == HexUpper(n / 16);
    }
  }

  /** `int("0x" + f"{n:X}", 0) == n`: the rendering and the parser agree. */
  lemma HexRoundTrip(n: nat)
    ensures ParseInt("0x" + HexUpper(n)) == Some(n)
  {
    var s := "0x" + HexUpper(n);
    assert s[2..] == HexUpper(n);
    HexUpperValue(n);
  }
}
