/** Bytes, and the decimal numerals that every length, count and deadline is written in. */
module ByteStrings {
  type byte = b: int | 0 <= b < 256
  type bytes = seq<byte>

  datatype Option<+T> = None | Some(value: T)

  const TAB: byte := 9
  const LF: byte := 10
  const CR: byte := 13
  const SPACE: byte := 32
  const QUOTE: byte := 34
  const DOLLAR: byte := 36
  const STAR: byte := 42
  const MINUS: byte := 45
  const BACKSLASH: byte := 92
  const CRLF: bytes := [CR, LF]

  const INT32_MIN: int := -0x8000_0000
  const INT32_MAX: int := 0x7fff_ffff
  const INT64_MIN: int := -0x8000_0000_0000_0000
  const INT64_MAX: int := 0x7fff_ffff_ffff_ffff

  /** A text, byte by byte. */
  function Ascii(s: string): bytes {
    seq(|s|, i requires 0 <= i < |s| => s[i] as int % 256)
  }

  predicate IsDigit(b: byte) { 48 <= b <= 57 }

  predicate AllDigits(s: bytes) { forall i :: 0 <= i < |s| ==> IsDigit(s[i]) }

  /** The numeral of a natural number, most significant digit first. */
  function Digits(n: nat): (s: bytes)
    ensures 0 < |s| && AllDigits(s)
  {
    if n < 10 then [48 + n] else Digits(n / 10) + [48 + n % 10]
  }

  function Value(s: bytes): nat
    requires AllDigits(s)
  {
    if s == [] then 0 else Value(s[..|s| - 1]) * 10 + (s[|s| - 1] - 48)
  }

  lemma {:induction false} ValueOfDigits(n: nat)
    ensures Value(Digits(n)) == n
  {
    if n >= 10 {
      var front := Digits(n / 10);
      ValueOfDigits(n / 10);
      assert Digits(n)[..|Digits(n)| - 1] == front;
    }
  }

  /** `std::to_string` on a signed number. */
  function Decimal(n: int): (s: bytes)
    ensures 0 < |s|
  {
    if n < 0 then [MINUS] + Digits(-n) else Digits(n)
  }

  /** `std::from_chars` into an `int64_t`, with the additional demand that the whole text is used. */
  function ParseDecimal(s: bytes): Option<int> {
    var negative := s != [] && s[0] == MINUS;
    var digits := if negative then s[1..] else s;
    if digits == [] || !AllDigits(digits) then None
    else
      var v: int := Value(digits) * (if negative then -1 else 1);
      if INT64_MIN <= v <= INT64_MAX then Some(v) else None
  }

  lemma ParseOfDecimal(n: int)
    requires INT64_MIN <= n <= INT64_MAX
    ensures ParseDecimal(Decimal(n)) == Some(n)
  {
    if n < 0 {
      ValueOfDigits(-n);
      assert Decimal(n)[1..] == Digits(-n);
    } else {
      ValueOfDigits(n);
      assert IsDigit(Digits(n)[0]);
    }
  }

  /** The numeral of a number holds no byte that could be taken for a line end. */
  lemma DecimalIsOneLine(n: int)
    ensures CR !in Decimal(n) && LF !in Decimal(n)
  {
    var s := Digits(if n < 0 then -n else n);
    assert forall i :: 0 <= i < |s| ==> IsDigit(s[i]);
  }

  predicate IsBlank(b: byte) { 9 <= b <= 13 || b == 32 }

  function DigitRun(s: bytes): (n: nat)
    ensures n <= |s| && AllDigits(s[..n])
  {
    if s != [] && IsDigit(s[0]) then
      var n := DigitRun(s[1..]);
      assert s[..n + 1] == [s[0]] + s[1..][..n];
      n + 1
    else 0
  }

  lemma {:induction false} DigitRunIsAll(s: bytes)
    requires AllDigits(s)
    ensures DigitRun(s) == |s|
  {
    if s != [] {
      DigitRunIsAll(s[1..]);
    }
  }

  /**
   * `std::stoll` and `std::stoi`: leading blanks and one sign are skipped, the longest digit run is
   * read and whatever follows is ignored; no digits, or a value outside lo..hi, is an exception (None).
   */
  function StringToNumber(s: bytes, lo: int, hi: int): Option<int> {
    if s != [] && IsBlank(s[0]) then StringToNumber(s[1..], lo, hi)
    else
      var signed := s != [] && (s[0] == MINUS || s[0] == 43);
      var text := if signed then s[1..] else s;
      var run := text[..DigitRun(text)];
      if run == [] then None
      else
        var v: int := Value(run) * (if signed && s[0] == MINUS then -1 else 1);
        if lo <= v <= hi then Some(v) else None
  }

  lemma StringToNumberOfDecimal(n: int, lo: int, hi: int)
    requires lo <= n <= hi
    ensures StringToNumber(Decimal(n), lo, hi) == Some(n)
  {
    hide Digits, Value, DigitRun;
    var ds := Digits(if n < 0 then -n else n);
    ValueOfDigits(if n < 0 then -n else n);
    DigitRunIsAll(ds);
    assert IsDigit(ds[0]);
    assert ds[..|ds|] == ds;
    if n < 0 {
      assert Decimal(n)[1..] == ds;
    }
  }

  /** Lengths and counts go up to the largest 64-bit number, and one more is no number. */
  lemma LargestNumbers()
    ensures ParseDecimal(Decimal(9223372036854775807)) == Some(9223372036854775807)
    ensures ParseDecimal(Decimal(9223372036854775808)) == None
    ensures ParseDecimal(Decimal(-9223372036854775808)) == Some(-9223372036854775808)
  {
    hide Digits;
    ParseOfDecimal(9223372036854775807);
    ParseOfDecimal(-9223372036854775808);
    ValueOfDigits(9223372036854775808);
    assert IsDigit(Digits(9223372036854775808)[0]);
  }
}
