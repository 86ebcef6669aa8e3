/** The reference functions the test driver compares the simulator's
    registers against (testfunctions.py, and `triangleNumber` again in
    simdriver.py). Python integers are unbounded, as here. */
module TestFunctions {
  import opened Options

  /** 1 + 2 + ... + n, and 0 when `n` is not positive. */
  function Triangle(n: int): int
    decreases if n < 0 then 0 else n
  {
    if n <= 0 then 0 else Triangle(n - 1) + n
  }

  /** Gauss's closed form of the triangle numbers. */
  lemma {:induction false} TriangleClosedForm(n: int)
    ensures 2 * Triangle(n) == if n <= 0 then 0 else n * (n + 1)
    decreases if n < 0 then 0 else n
  {
    if n > 0 {
      TriangleClosedForm(n - 1);
    }
  }

  /** `triangleNumber`: `s += i` for `i` in `range(1, n + 1)`. */
  method TriangleNumber(n: int) returns (s: int)
    ensures s == Triangle(n)
  {
    s := 0;
    var i := 1;
    while i < n + 1
      invariant 1 <= i <= if n < 1 then 1 else n + 1
      invariant s == Triangle(i - 1)
    {
      s := s + i;
      i := i + 1;
    }
  }

  /** The sum of a sequence, `sum` in Python. */
  function Sum(s: seq<int>): int
  {
    if s == [] then 0 else Sum(s[..|s| - 1]) + s[|s| - 1]
  }

  /** The sequence `C` of `arrayAddition`: `i + (i - 1)` at each `i`. */
  function OddsFrom(n: nat): seq<int>
  {
    seq(n, j => 2 * j - 1)
  }

  /** -1 + 1 + 3 + ... + (2n - 3) == n^2 - 2n. */
  lemma {:induction false} SumOdds(n: nat)
    ensures Sum(OddsFrom(n)) == n * n - 2 * n
  {
    if n > 0 {
      assert OddsFrom(n)[..n - 1] == OddsFrom(n - 1);
      SumOdds(n - 1);
    }
  }

  /** The first loop: `A[i] = i` and `B[i] = i - 1`. */
  method Fill(a: array<int>, b: array<int>)
    requires a != b && a.Length == b.Length
    modifies a, b
    ensures forall j :: 0 <= j < a.Length ==> a[j] == j && b[j] == j - 1
  {
    var i := 0;
    while i < a.Length
      invariant 0 <= i <= a.Length
      invariant forall j :: 0 <= j < i ==> a[j] == j && b[j] == j - 1
    {
      a[i] := i;
      b[i] := i - 1;
      i := i + 1;
    }
  }

  /** The second loop: `C[i] = A[i] + B[i]`. */
  method AddInto(a: array<int>, b: array<int>, c: array<int>)
    requires c != a && c != b && a.Length == c.Length && b.Length == c.Length
    modifies c
    ensures forall j :: 0 <= j < c.Length ==> c[j] == a[j] + b[j]
  {
    var i := 0;
    while i < c.Length
      invariant 0 <= i <= c.Length
      invariant forall j :: 0 <= j < i ==> c[j] == a[j] + b[j]
    {
      c[i] := a[i] + b[i];
      i := i + 1;
    }
  }

  /** The third loop: `s += C[i]`. */
  method SumOf(c: array<int>) returns (s: int)
    ensures s == Sum(c[..])
  {
    s := 0;
    var i := 0;
    while i < c.Length
      invariant 0 <= i <= c.Length
      invariant s == Sum(c[..i])
    {
      assert c[..i + 1][..i] == c[..i];
      s := s + c[i];
      i := i + 1;
    }
    assert c[..i] == c[..];
  }

  /** The lists `A`, `B` and `C` of `arrayAddition`, built as `[0] * n` and
      filled by the first two loops: `C` is `OddsFrom(n)`. */
  method BuildLists(n: nat) returns (c: array<int>)
    ensures c[..] == OddsFrom(n)
  {
    var a := new int[n](_ => 0);
    var b := new int[n](_ => 0);
    c := new int[n](_ => 0);
    Fill(a, b);
    AddInto(a, b, c);
  }

  /** `arrayAddition`: the three loops over lists of `n` zeros (none when
      `n` is not positive); the sum is n^2 - 2n. */
  method ArrayAddition(n: int) returns (s: int)
    ensures s == if n <= 0 then 0 else n * n - 2 * n
  {
    var len := if n < 0 then 0 else n;
    var c := BuildLists(len);
    s := SumOf(c);
    SumOdds(len);
  }
  /** 2^n. */
  function Pow2(n: nat): (p: nat)
    ensures p >= 1
  {
    if n == 0 then 1 else 2 * Pow2(n - 1)
  }

  /** The powers the test values cross. */
  lemma Pow2Values()
    ensures Pow2(10) == 1024 && Pow2(11) == 2048
    ensures Pow2(16) == 65536 && Pow2(17) == 131072
  {
    assert Pow2(4) == 16;
    assert Pow2(8) == 256;
    assert Pow2(10) == 1024;
    assert Pow2(12) == 4096;
    assert Pow2(14) == 16384;
    assert Pow2(16) == 65536;
  }

  lemma {:induction false} Pow2Monotone(m: nat, n: nat)
    requires m <= n
    ensures Pow2(m) <= Pow2(n)
    decreases n
  {
    if m < n {
      Pow2Monotone(m, n - 1);
    }
  }

  lemma MulAtLeast(k: int, d: int)
    requires k >= 1 && d > 0
    ensures k * d >= d
  {
  }

  /** A multiple of `d` strictly between `-d` and `d` is 0 times `d`. */
  lemma MulBetween(k: int, d: int)
    requires d > 0 && -d < k * d < d
    ensures k == 0
  {
    if k >= 1 {
      MulAtLeast(k, d);
      assert false;
    } else if k <= -1 {
      MulAtLeast(-k, d);
      assert false;
    }
  }

  /** The quotient of Euclidean division is the only `q` with a remainder
      in `0 .. d - 1`. */
  lemma DivUnique(x: int, d: int, q: int, r: int)
    requires d > 0 && x == q * d + r && 0 <= r < d
    ensures x / d == q
  {
    var q', r' := x / d, x % d;
    assert x == q' * d + r' && 0 <= r' < d;
    assert (q - q') * d == r' - r by {
      assert (q - q') * d == q * d - q' * d;
    }
    MulBetween(q - q', d);
  }

  /** Floor division by a positive `p` keeps the sign and does not grow. */
  lemma DivRange(x: int, p: int)
    requires p >= 1
    ensures x >= 0 ==> 0 <= x / p <= x
    ensures x < 0 ==> x <= x / p <= -1
  {
    if x >= 0 {
      DivRangeNonNegative(x, p);
    } else {
      DivRangeNegative(x, p);
    }
  }

  lemma DivRangeNonNegative(x: int, p: int)
    requires p >= 1 && x >= 0
    ensures 0 <= x / p <= x
  {
    var q, r := x / p, x % p;
    assert x == q * p + r && 0 <= r < p;
    if q >= 1 {
      MulAtLeast(p, q);
      assert p * q == q * p;
    } else if q <= -1 {
      MulAtLeast(-q, p);
      assert false;
    }
  }

  lemma DivRangeNegative(x: int, p: int)
    requires p >= 1 && x < 0
    ensures x <= x / p <= -1
  {
    var q, r := x / p, x % p;
    assert x == q * p + r && 0 <= r < p;
    if q <= -2 {
      MulAtLeast(p, -(q + 1));
      assert p * (-(q + 1)) == -(q * p) - p;
    } else if q >= 0 {
      assert false;
    }
  }

  /** The quotient is 0 only below the divisor, and -1 only from `-p` on. */
  lemma DivSmall(x: int, p: int)
    requires p >= 1
    ensures x >= 0 ==> (x / p == 0 <==> x < p)
    ensures x < 0 ==> (x / p == -1 <==> -p <= x)
  {
    var q, r := x / p, x % p;
    assert x == q * p + r && 0 <= r < p;
    if 0 <= x < p {
      DivUnique(x, p, 0, x);
    } else if -p <= x < 0 {
      DivUnique(x, p, -1, x + p);
    }
  }

  /** Python's `x << n`: `x * 2^n`; a negative count raises `ValueError`. */
  function ShiftLeft(x: int, n: int): (r: Option<int>)
    ensures r.Some? <==> n >= 0
  {
    if n < 0 then None else Some(x * Pow2(n))
  }

  /** Python's `x >> n`: `x / 2^n` rounded toward minus infinity, which is
      Dafny's `/` for a positive divisor; a negative count raises
      `ValueError`. */
  function ShiftRight(x: int, n: int): (r: Option<int>)
    ensures r.Some? <==> n >= 0
  {
    if n < 0 then None else Some(x / Pow2(n))
  }

  /** One more place to the left doubles. */
  lemma ShiftLeftStep(x: int, n: nat)
    ensures ShiftLeft(x, n + 1).value == 2 * ShiftLeft(x, n).value
  {
  }

  /** One more place to the right halves, rounding toward minus infinity:
      the shift moves the bits of a two's-complement number. */
  lemma ShiftRightStep(x: int, n: nat)
    ensures ShiftRight(x, n + 1).value == ShiftRight(x, n).value / 2
  {
    var p := Pow2(n);
    var q, r := x / p, x % p;
    var q2, r2 := q / 2, q % 2;
    assert x == q2 * (2 * p) + (r2 * p + r) by {
      assert x == q * p + r;
      assert q == 2 * q2 + r2;
      assert q * p == (2 * q2 + r2) * p == q2 * (2 * p) + r2 * p;
    }
    assert 0 <= r2 * p + r < 2 * p by {
      assert r2 == 0 || r2 == 1;
    }
    DivUnique(x, 2 * p, q2, r2 * p + r);
  }

  /** Shifting right undoes shifting left. */
  lemma ShiftRoundTrip(x: int, n: nat)
    ensures ShiftRight(ShiftLeft(x, n).value, n) == Some(x)
  {
    DivUnique(x * Pow2(n), Pow2(n), x, 0);
  }

  /** `shl`: `1234 << n`. */
  function Shl(n: int): (r: Option<int>)
  {
    ShiftLeft(1234, n)
  }

  /** `lshr`: `1234 >> n`. */
  function Lshr(n: int): (r: Option<int>)
  {
    ShiftRight(1234, n)
  }

  /** `ashr`: `-123456 >> n`. */
  function Ashr(n: int): (r: Option<int>)
  {
    ShiftRight(-123456, n)
  }

  /** `shl` gives 1234 times a power of two, positive and growing. */
  lemma ShlGrows(n: nat)
    ensures Shl(n).value >= 1234 && Shl(n + 1).value == 2 * Shl(n).value
  {
    ShiftLeftStep(1234, n);
  }

  /** The quotient of `x` by a positive `p`: within 0 .. x and 0 exactly
      when `p` exceeds `x`, for `x >= 0`; within x .. -1 and -1 exactly when
      `p` reaches `-x`, for `x < 0`. */
  lemma Quotient(x: int, p: int)
    requires p >= 1
    ensures x >= 0 ==> 0 <= x / p <= x && (x / p == 0 <==> p > x)
    ensures x < 0 ==> x <= x / p <= -1 && (x / p == -1 <==> p >= -x)
  {
    DivRange(x, p);
    DivSmall(x, p);
  }

  /** `lshr` stays within 0 .. 1234 and reaches 0 exactly from 11 places on
      (2^10 <= 1234 < 2^11); `lshr(10)` is 1. */
  lemma LshrRange(n: nat)
    ensures 0 <= Lshr(n).value <= 1234
    ensures Lshr(n).value == 0 <==> n >= 11
    ensures Lshr(10) == Some(1)
  {
    Quotient(1234, Pow2(n));
    if n >= 11 {
      Pow2Monotone(11, n);
      Pow2Values();
    } else {
      Pow2Monotone(n, 10);
      Pow2Values();
    }
  }

  /** `ashr` keeps the sign: it stays within -123456 .. -1 and reaches -1
      exactly from 17 places on (2^16 <= 123456 < 2^17); `ashr(16)` is -2. */
  lemma AshrRange(n: nat)
    ensures -123456 <= Ashr(n).value <= -1
    ensures Ashr(n).value == -1 <==> n >= 17
    ensures Ashr(16) == Some(-2)
  {
    Quotient(-123456, Pow2(n));
    if n >= 17 {
      Pow2Monotone(17, n);
      Pow2Values();
    } else {
      Pow2Monotone(n, 16);
      Pow2Values();
    }
  }
}
