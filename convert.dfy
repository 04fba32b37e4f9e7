/**
  Choosing the SI unit of a byte count: `ByteCountSI` of internal/util and
  its older copy `ByteRepr` in main.go.

  Both print counts below 1000 as an integer followed by " B". Larger counts
  are divided by a power of 1000 chosen by an integer loop and printed with
  `%.1f` and a one-letter prefix. The floating-point division and its `%.1f`
  rendering are not modelled: a scaled result keeps the count, the divisor
  and the unit, which determine the text.
 */
module ByteUnits {
  import opened NetStats
  import opened Wrappers

  /** `unit` in both functions. */
  const Unit: nat := 1000

  /** The prefixes `ByteCountSI` indexes. */
  const SIPrefixes: string := "kMGTPE"

  /** The prefixes `ByteRepr` indexes. */
  const ReprPrefixes: string := "kM"

  function Pow1000(e: nat): (r: nat)
    ensures r >= 1
  {
    if e == 0 then 1 else Unit * Pow1000(e - 1)
  }

  /** The text of a byte count: exact below 1000, otherwise scaled by `div`. */
  datatype ByteText =
    | Exact(text: string)
    /** `%.1f` of `bytes / div`, a space, then `unit`. */
    | Scaled(bytes: u64, div: u64, unit: string)

  /** The digit character for `d`. */
  function DigitChar(d: nat): (c: char)
    requires d < 10
    ensures '0' <= c <= '9'
  {
    "0123456789"[d]
  }

  /** `%d` of a non-negative integer: its decimal digits, most significant first. */
  function Decimal(n: nat): (s: string)
    ensures |s| >= 1
    ensures forall i :: 0 <= i < |s| ==> '0' <= s[i] <= '9'
    ensures s[0] == '0' ==> n == 0
    decreases n
  {
    if n < 10 then [DigitChar(n)] else Decimal(n / 10) + [DigitChar(n % 10)]
  }

  /** The value of a string of decimal digits. */
  function DecimalValue(s: string): nat
    requires forall i :: 0 <= i < |s| ==> '0' <= s[i] <= '9'
  {
    if s == [] then 0 else DecimalValue(s[..|s| - 1]) * 10 + (s[|s| - 1] as int - '0' as int)
  }

  /** Reading back the digits `%d` printed gives the number. */
  lemma {:induction false} DecimalRoundTrip(n: nat)
    ensures DecimalValue(Decimal(n)) == n
    decreases n
  {
    var s := Decimal(n);
    if n < 10 {
      DigitValue(n);
      assert s[..0] == [];
    } else {
      DecimalRoundTrip(n / 10);
      DigitValue(n % 10);
      assert s == Decimal(n / 10) + [DigitChar(n % 10)];
      assert s[..|s| - 1] == Decimal(n / 10);
    }
  }

  /** A digit character reads back as its digit. */
  lemma DigitValue(d: nat)
    requires d < 10
    ensures DigitChar(d) as int - '0' as int == d
  {
  }

  /**
    How many times a count of at least 1000 can be divided by 1000 and stay at
    least 1000: the index of its prefix.
   */
  function Magnitude(bytes: nat): nat
  {
    Steps(bytes / Unit)
  }

  /** How many times `n` can be divided by 1000 before it drops below 1000. */
  function Steps(n: nat): nat
  {
    if n < Unit then 0 else 1 + Steps(n / Unit)
  }

  lemma {:induction false} Pow1000Monotone(a: nat, b: nat)
    requires a <= b
    ensures Pow1000(a) <= Pow1000(b)
    decreases b
  {
    if a < b {
      Pow1000Monotone(a, b - 1);
    }
  }

  /** `x / a / b == x / (a * b)` for positive divisors. */
  lemma DivDiv(x: nat, a: nat, b: nat)
    requires a > 0 && b > 0
    ensures x / a / b == x / (a * b)
  {
    var q, r := x / a, x % a;
    var q2, r2 := q / b, q % b;
    assert x == a * q + r;
    assert q == b * q2 + r2;
    Regroup(a, b, q2, r2);
    assert x == (a * b) * q2 + (a * r2 + r);
    RemainderBound(a, b, r2, r);
    DivUnique(x, a * b, q2, a * r2 + r);
  }

  /** `a * (b * q2 + r2)` regrouped around `a * b`. */
  lemma Regroup(a: nat, b: nat, q2: nat, r2: nat)
    ensures a * (b * q2 + r2) == (a * b) * q2 + a * r2
  {
    assert a * (b * q2 + r2) == a * (b * q2) + a * r2;
  }

  /** The combined remainder of two divisions stays below the combined divisor. */
  lemma RemainderBound(a: nat, b: nat, r2: nat, r: nat)
    requires r < a && r2 < b
    ensures a * r2 + r < a * b
  {
    assert a * (r2 + 1) <= a * b;
  }

  /** The quotient is the unique `q` with `x == m * q + r` and `0 <= r < m`. */
  lemma DivUnique(x: nat, m: nat, q: nat, r: nat)
    requires m > 0 && r < m && x == m * q + r
    ensures x / m == q
  {
    var q', r' := x / m, x % m;
    assert x == m * q' + r';
    assert m * (q - q') == r' - r;
    SmallMultiple(m, q - q');
  }

  /** The only multiple of `m` strictly between `-m` and `m` is zero. */
  lemma SmallMultiple(m: int, d: int)
    requires m > 0 && -m < m * d < m
    ensures d == 0
  {
    if d > 0 {
      MultipleAtLeast(m, d);
    } else if d < 0 {
      MultipleAtLeast(m, -d);
    }
  }

  /** A positive multiple of `m` is at least `m`. */
  lemma {:induction false} MultipleAtLeast(m: int, d: int)
    requires m > 0 && d >= 1
    ensures m * d >= m
    decreases d
  {
    if d > 1 {
      MultipleAtLeast(m, d - 1);
      assert m * d == m * (d - 1) + m;
    }
  }

  /** A count whose quotient by `div` is below 1000 is below `1000 * div`. */
  lemma QuotientBound(x: nat, div: nat)
    requires div > 0 && x / div < Unit
    ensures x < Unit * div
  {
    var q, r := x / div, x % div;
    assert x == div * q + r;
    assert div * q <= div * (Unit - 1);
  }

  /** A count whose quotient by `div` is at least 1000 is at least `1000 * div`. */
  lemma QuotientFloor(x: nat, div: nat)
    requires div > 0 && x / div >= Unit
    ensures x >= Unit * div
  {
    var q, r := x / div, x % div;
    assert x == div * q + r;
    assert div * q >= div * Unit;
  }

  /**
    The divisor loop shared by `ByteCountSI` and `ByteRepr`: for a count of at
    least 1000, `div` is the largest power of 1000 not above it and `exp` is
    one less than that power's exponent. The multiplication `div *= unit`
    never wraps, and `exp` never exceeds 5.
   */
  method ScaleDivisor(bytes: u64) returns (div: u64, exp: nat)
    requires bytes >= Unit
    ensures exp == Magnitude(bytes)
    ensures div == Pow1000(exp + 1)
    ensures div <= bytes < Unit * div
    ensures exp <= 5 && div <= Pow1000(6)
  {
    div, exp := Unit, 0;
    var n: u64 := bytes / Unit;
    while n >= Unit
      invariant div == Pow1000(exp + 1) && div <= bytes
      invariant n == bytes / div
      invariant exp + Steps(n) == Magnitude(bytes)
      decreases n
    {
      QuotientFloor(bytes, div);
      DivDiv(bytes, div, Unit);
      div := div * Unit;
      exp := exp + 1;
      n := n / Unit;
    }
    QuotientBound(bytes, div);
    if exp > 5 {
      Pow1000Monotone(7, exp + 1);
      assert false;
    }
    Pow1000Monotone(exp + 1, 6);
  }

  /** A larger count never gets a smaller prefix. */
  lemma MagnitudeMonotone(a: nat, b: nat)
    requires a <= b
    ensures Magnitude(a) <= Magnitude(b)
  {
    StepsMonotone(a / Unit, b / Unit);
  }

  lemma {:induction false} StepsMonotone(a: nat, b: nat)
    requires a <= b
    ensures Steps(a) <= Steps(b)
    decreases b
  {
    if a >= Unit {
      StepsMonotone(a / Unit, b / Unit);
    }
  }

  /**
    `ByteCountSI`: below 1000 the decimal count and " B"; otherwise the count
    scaled by the largest power of 1000 not above it, with the prefix from
    "kMGTPE" that names that power.
   */
  method ByteCountSI(bytes: u64) returns (r: ByteText)
    ensures bytes < Unit ==> r == Exact(Decimal(bytes) + " B")
    ensures bytes >= Unit ==>
      && r.Scaled? && r.bytes == bytes
      && r.div <= bytes < Unit * r.div
      && r.div == Pow1000(Magnitude(bytes) + 1)
      && Magnitude(bytes) < |SIPrefixes|
      && r.unit == [SIPrefixes[Magnitude(bytes)], 'B']
  {
    if bytes < Unit {
      return Exact(Decimal(bytes) + " B");
    }
    var div, exp := ScaleDivisor(bytes);
    r := Scaled(bytes, div, [SIPrefixes[exp], 'B']);
  }

  /** Why `ByteRepr` fails: the prefix index runs past "kM". */
  datatype ReprError = IndexOutOfRange(index: nat)

  /**
    `ByteRepr` of main.go: the same as `ByteCountSI` up to the megabytes, but
    its prefix table holds only "kM", so every count of 10^9 bytes or more
    makes the index expression panic.
   */
  method ByteRepr(bytes: u64) returns (r: Result<ByteText, ReprError>)
    ensures r.Ok? <==> bytes < Pow1000(3)
    ensures bytes < Unit ==> r == Ok(Exact(Decimal(bytes) + " B"))
    ensures Unit <= bytes < Pow1000(2) ==> r == Ok(Scaled(bytes, Unit, "kB"))
    ensures Pow1000(2) <= bytes < Pow1000(3) ==> r == Ok(Scaled(bytes, Pow1000(2), "MB"))
    ensures bytes >= Pow1000(3) ==> r == Err(IndexOutOfRange(Magnitude(bytes)))
  {
    if bytes < Unit {
      return Ok(Exact(Decimal(bytes) + " B"));
    }
    var div, exp := ScaleDivisor(bytes);
    if exp >= |ReprPrefixes| {
      Pow1000Monotone(3, exp + 1);
      return Err(IndexOutOfRange(exp));
    }
    if exp == 1 {
      assert Pow1000(2) <= bytes;
    } else if bytes >= Pow1000(2) {
      assert false;
    }
    r := Ok(Scaled(bytes, div, [ReprPrefixes[exp], 'B']));
  }

  /** The repository's unit tests of `ByteCountSI`, and the boundaries of its first two units. */
  method ByteCountSIExamples() returns (small: seq<ByteText>, kilo: seq<ByteText>, mega: ByteText)
    ensures small == [Exact("0 B"), Exact("1 B"), Exact("999 B")]
    ensures kilo == [Scaled(1000, 1000, "kB"), Scaled(1024, 1000, "kB"), Scaled(4792, 1000, "kB"), Scaled(10240, 1000, "kB")]
    ensures mega == Scaled(1234500, 1000000, "MB")
  {
    var zero := ByteCountSI(0);
    var one := ByteCountSI(1);
    var most := ByteCountSI(999);
    assert Decimal(0) + " B" == "0 B" && Decimal(1) + " B" == "1 B";
    assert Decimal(999) + " B" == "999 B";
    small := [zero, one, most];
    var a := ByteCountSI(1000);
    var b := ByteCountSI(1024);
    var c := ByteCountSI(4792);
    var d := ByteCountSI(10240);
    kilo := [a, b, c, d];
    mega := ByteCountSI(1234500);
    assert Magnitude(1234500) == 1;
  }

  /**
    One gigabyte: `ByteRepr` runs its prefix index off the end of "kM",
    while `ByteCountSI`, whose table goes up to "E", names it in "GB".
   */
  method GigabyteExample() returns (repr: Result<ByteText, ReprError>, si: ByteText)
    ensures repr == Err(IndexOutOfRange(2))
    ensures si == Scaled(1000000000, 1000000000, "GB")
  {
    assert Steps(1) == 0 && Steps(1000) == 1 && Steps(1000000) == 2;
    assert Magnitude(1000000000) == 2;
    repr := ByteRepr(1000000000);
    si := ByteCountSI(1000000000);
  }
}
