/**
 formatMemorySize of macos/process/memory_info.cc and windows/process/process_memory_monitor.cpp,
 over exact rationals.
 */
module SizeFormat {
  import opened Words

  const UNITS: seq<string> := ["B", "KB", "MB", "GB"]

  /** The buffer snprintf writes to, terminator included. */
  const BUFFER: nat := 32

  function Power(unit: nat): (p: nat)
    ensures 1 <= p
  {
    if unit == 0 then 1 else 1024 * Power(unit - 1)
  }

  /** The scaled value and its unit mean the size, and no other allowed unit would do. */
  ghost predicate Scaled(bytes: nat, value: real, unit: nat) {
    && unit < |UNITS|
    && value * (Power(unit) as real) == bytes as real
    && (value < 1024.0 || unit == |UNITS| - 1)
    && (unit == 0 || 1.0 <= value)
  }

  lemma {:induction false} ScaleOnce(bytes: real, value: real, unit: nat)
    requires value * (Power(unit) as real) == bytes
    ensures (value / 1024.0) * (Power(unit + 1) as real) == bytes
  {
    var p := Power(unit) as real;
    assert Power(unit + 1) as real == 1024.0 * p;
    assert (value / 1024.0) * (1024.0 * p) == ((value / 1024.0) * 1024.0) * p;
  }

  lemma {:induction false} PowerGrows(a: nat, b: nat)
    requires a < b
    ensures 1024 * Power(a) <= Power(b)
  {
    if a + 1 < b {
      PowerGrows(a, b - 1);
    }
  }

  lemma {:induction false} RealMonotone(x: real, y: real, p: real)
    requires x <= y && 0.0 <= p
    ensures x * p <= y * p
  {
    assert (y - x) * p >= 0.0;
    assert y * p == x * p + (y - x) * p;
  }

  /** The size is less than 1024 of the unit, and at least one. */
  lemma {:induction false} UnitBounds(bytes: nat, value: real, unit: nat)
    requires Scaled(bytes, value, unit)
    ensures unit < |UNITS| - 1 ==> bytes < 1024 * Power(unit)
    ensures 0 < unit ==> Power(unit) <= bytes
  {
    var p := Power(unit) as real;
    if unit < |UNITS| - 1 {
      assert (1024.0 - value) * p > 0.0;
    }
    if 0 < unit {
      RealMonotone(1.0, value, p);
    }
  }

  lemma {:induction false} UnitOrder(bytes: nat, v: real, a: nat, w: real, b: nat)
    requires Scaled(bytes, v, a) && Scaled(bytes, w, b)
    ensures b <= a
  {
    UnitBounds(bytes, v, a);
    UnitBounds(bytes, w, b);
    if a < b {
      PowerGrows(a, b);
    }
  }

  lemma {:induction false} CancelReal(v: real, w: real, p: real, c: real)
    requires v * p == c && w * p == c && 0.0 < p
    ensures v == w
  {
    assert (v - w) * p == v * p - w * p;
  }

  lemma {:induction false} SameUnit(bytes: nat, v: real, w: real, unit: nat)
    requires Scaled(bytes, v, unit) && Scaled(bytes, w, unit)
    ensures v == w
  {
    CancelReal(v, w, Power(unit) as real, bytes as real);
  }

  /** Scaled fixes both: a larger unit would leave less than one of it, a smaller one 1024 or more. */
  lemma {:induction false} ScaledUnique(bytes: nat, v: real, a: nat, w: real, b: nat)
    requires Scaled(bytes, v, a) && Scaled(bytes, w, b)
    ensures a == b && v == w
  {
    UnitOrder(bytes, v, a, w, b);
    UnitOrder(bytes, w, b, v, a);
    SameUnit(bytes, v, w, a);
  }

  method Scale(bytes: u64) returns (value: real, unit: nat)
    ensures Scaled(bytes, value, unit)
  {
    unit := 0;
    value := bytes as real;
    while value >= 1024.0 && unit < 3
      invariant unit <= 3 && (unit == 0 || 1.0 <= value)
      invariant value * (Power(unit) as real) == bytes as real
      decreases 3 - unit
    {
      ScaleOnce(bytes as real, value, unit);
      value := value / 1024.0;
      unit := unit + 1;
    }
  }

  /** The hundredths %.2f prints: the nearest, and the even one of two equally near. */
  function Hundredths(value: real): int {
    var f := (value * 100.0).Floor;
    var d := value * 100.0 - f as real;
    if d > 0.5 || (d == 0.5 && f % 2 == 1) then f + 1 else f
  }

  function Digit(d: nat): char
    requires d < 10
  {
    ('0' as int + d) as char
  }

  function Decimal(n: nat): string {
    if n < 10 then [Digit(n)] else Decimal(n / 10) + [Digit(n % 10)]
  }

  function Cents(h: nat): string {
    [Digit(h / 10 % 10), Digit(h % 10)]
  }

  function Text(value: real, unit: nat): string
    requires 0 <= Hundredths(value) && unit < |UNITS|
  {
    var h := Hundredths(value);
    Decimal(h / 100) + "." + Cents(h) + " " + UNITS[unit]
  }

  function TenTo(k: nat): nat {
    if k == 0 then 1 else 10 * TenTo(k - 1)
  }

  lemma {:induction false} DecimalLength(n: nat, k: nat)
    requires 0 < k && n < TenTo(k)
    ensures |Decimal(n)| <= k
  {
    if n >= 10 {
      DecimalLength(n / 10, k - 1);
    }
  }

  lemma {:induction false} ValueBound(bytes: u64, value: real, unit: nat)
    requires Scaled(bytes, value, unit)
    ensures 0.0 <= value < 17179869185.0
  {
    var p := Power(unit) as real;
    if unit == 3 {
      assert Power(1) == 1024 && Power(2) == 1048576 && Power(3) == 1073741824;
    }
  }

  lemma {:induction false} TextFits(value: real, unit: nat)
    requires 0.0 <= value < 17179869185.0 && unit < |UNITS|
    ensures 0 <= Hundredths(value) && |Text(value, unit)| + 1 <= BUFFER
  {
    var h := Hundredths(value);
    assert 0 <= h <= 1717986918501;
    assert TenTo(4) == 10000 && TenTo(8) == 100000000 && TenTo(11) == 100000000000;
    DecimalLength(h / 100, 11);
  }

  /** Nothing is cut off for any 64-bit size. */
  method FormatMemorySize(bytes: u64) returns (value: real, unit: nat, text: string)
    ensures Scaled(bytes, value, unit)
    ensures 0 <= Hundredths(value) && text == Text(value, unit) && |text| + 1 <= BUFFER
  {
    value, unit := Scale(bytes);
    ValueBound(bytes, value, unit);
    TextFits(value, unit);
    text := Text(value, unit);
  }

  function DigitValue(c: char): nat {
    if '0' <= c <= '9' then c as int - '0' as int else 0
  }

  function Read(s: string): nat {
    if s == [] then 0 else 10 * Read(s[..|s| - 1]) + DigitValue(s[|s| - 1])
  }

  lemma {:induction false} ReadAppend(s: string, d: nat)
    requires d < 10
    ensures Read(s + [Digit(d)]) == 10 * Read(s) + d
  {
  }

  lemma {:induction false} DecimalReads(n: nat)
    ensures Read(Decimal(n)) == n
  {
    if n < 10 {
      assert Decimal(n) == [] + [Digit(n)];
      ReadAppend([], n);
    } else {
      DecimalReads(n / 10);
      ReadAppend(Decimal(n / 10), n % 10);
    }
  }

  /** Digits alone, and no leading zero. */
  lemma {:induction false} DecimalForm(n: nat)
    ensures Decimal(n) != "" && forall c | c in Decimal(n) :: '0' <= c <= '9'
    ensures 0 < n ==> Decimal(n)[0] != '0'
  {
    if n >= 10 {
      DecimalForm(n / 10);
    }
  }

  lemma {:induction false} LastTwoDigits(h: nat)
    ensures h / 10 / 10 == h / 100 && 10 * (h / 10) + h % 10 == h
    ensures 10 * (10 * (h / 100) + h / 10 % 10) + h % 10 == h
  {
    var tens := h / 10;
    assert 10 * (tens / 10) + tens % 10 == tens;
  }

  lemma {:induction false} CentsRead(h: nat)
    ensures Read(Decimal(h / 100) + Cents(h)) == h
  {
    var whole, tenths, hundredths := Decimal(h / 100), h / 10 % 10, h % 10;
    DecimalReads(h / 100);
    ReadAppend(whole, tenths);
    ReadAppend(whole + [Digit(tenths)], hundredths);
    assert whole + Cents(h) == whole + [Digit(tenths)] + [Digit(hundredths)];
    LastTwoDigits(h);
  }

  lemma {:induction false} HundredthsNear(value: real)
    ensures -0.5 <= Hundredths(value) as real - 100.0 * value <= 0.5
  {
  }

  /** Read without its point, the number printed is the value in hundredths, to within half of one. */
  lemma {:induction false} TextMeans(value: real)
    requires 0 <= Hundredths(value)
    ensures var h := Hundredths(value);
            && Read(Decimal(h / 100) + Cents(h)) == h
            && -0.5 <= h as real - 100.0 * value <= 0.5
  {
    CentsRead(Hundredths(value));
    HundredthsNear(value);
  }

  lemma {:induction false} HundredthsReach(value: real)
    requires 0.0 <= value < 1024.0
    ensures Hundredths(value) == 102400 <==> 1023.995 <= value
  {
  }

  lemma {:induction false} NonNegative(bytes: nat, value: real, unit: nat)
    requires Scaled(bytes, value, unit)
    ensures 0.0 <= value
  {
  }

  /** Rounding happens after the unit is chosen, so "1024.00 KB" and "1024.00 MB" are printed where a
      larger unit was meant, for exactly these sizes. */
  lemma {:induction false} Prints1024Iff(bytes: nat, value: real, unit: nat)
    requires Scaled(bytes, value, unit)
    ensures unit < |UNITS| - 1 && Hundredths(value) == 102400
       <==> 1048571 <= bytes < 1048576 || 1073736582 <= bytes < 1073741824
  {
    assert Power(1) == 1024 && Power(2) == 1048576 && Power(3) == 1073741824;
    UnitBounds(bytes, value, unit);
    if unit < |UNITS| - 1 {
      NonNegative(bytes, value, unit);
      HundredthsReach(value);
    }
  }

  /** The unit printed for a size. */
  function Suffix(bytes: nat): string {
    if bytes < 1024 then " B"
    else if bytes < 1024 * 1024 then " KB"
    else if bytes < 1024 * 1024 * 1024 then " MB"
    else " GB"
  }

  lemma {:induction false} SuffixOfUnit(bytes: nat, unit: nat)
    requires unit < 4 && (0 < unit ==> Power(unit) <= bytes) && (unit < 3 ==> bytes < 1024 * Power(unit))
    ensures Suffix(bytes) == " " + UNITS[unit] && (bytes < 1024 <==> unit == 0)
  {
    assert Power(1) == 1024 && Power(2) == 1048576 && Power(3) == 1073741824;
    assert unit == 0 || unit == 1 || unit == 2 || unit == 3;
  }

  lemma {:induction false} WholeHundredths(value: real, n: int)
    requires value * 100.0 == n as real
    ensures Hundredths(value) == n
  {
  }

  lemma {:induction false} LastTwoZeros(n: nat)
    ensures 100 * n % 10 == 0 && 100 * n / 10 % 10 == 0 && 100 * n / 100 == n
  {
    assert 100 * n / 10 == 10 * n;
  }

  lemma {:induction false} WholeBytes(bytes: nat, value: real)
    requires Scaled(bytes, value, 0)
    ensures Hundredths(value) == 100 * bytes && Cents(100 * bytes) == "00"
  {
    assert value == bytes as real && value * 100.0 == (100 * bytes) as real;
    WholeHundredths(value, 100 * bytes);
    LastTwoZeros(bytes);
  }

  /** The text is a whole number, a point, two digits and the unit of the size; and is the number of bytes
      itself below 1024. */
  lemma {:induction false} TextOfSize(bytes: nat, value: real, unit: nat)
    requires Scaled(bytes, value, unit) && 0 <= Hundredths(value)
    ensures var h := Hundredths(value);
            && |Cents(h)| == 2 && Text(value, unit) == Decimal(h / 100) + "." + Cents(h) + Suffix(bytes)
            && (bytes < 1024 ==> Text(value, unit) == Decimal(bytes) + ".00 B")
  {
    assert Power(1) == 1024 && Power(2) == 1048576 && Power(3) == 1073741824;
    UnitBounds(bytes, value, unit);
    SuffixOfUnit(bytes, unit);
    if unit == 0 {
      WholeBytes(bytes, value);
    }
  }

  /** Two equally near: the even one. */
  lemma {:induction false} TiesGoToEven(value: real)
    requires value * 100.0 - (value * 100.0).Floor as real == 0.5
    ensures Hundredths(value) % 2 == 0
  {
  }

  /** One byte short of a megabyte. */
  lemma {:induction false} Prints1024Example(value: real, unit: nat)
    requires Scaled(1048575, value, unit)
    ensures 0 <= Hundredths(value) && Text(value, unit) == "1024.00 KB"
  {
    assert Power(1) == 1024 && Power(2) == 1048576;
    UnitBounds(1048575, value, unit);
    Prints1024Iff(1048575, value, unit);
    assert Decimal(1024) == "1024";
    assert Text(value, unit) == Decimal(1024) + "." + Cents(102400) + " " + UNITS[1];
  }
}
