/**
 * Number predicates on registration numbers: trial division over 6k±1 candidates,
 * the "5n² ± 4 is a square" Fibonacci test, and the digit sum.
 *
 * `usize` arithmetic is modelled with checked operations against an arbitrary word
 * maximum, so every result is either a value or the overflow the source would hit.
 */
module RegistrationNumber {

  /** A `usize` computation: a value, or an arithmetic overflow or underflow. */
  datatype Checked<+T> = Value(value: T) | Overflow

  // ----- Primality -----------------------------------------------------------

  /** `d` divides `n`: repeated subtraction of `d` reaches zero. */
  ghost predicate Divides(d: nat, n: nat)
    requires d > 0
    decreases n
  {
    n == 0 || (n >= d && Divides(d, n - d))
  }

  /** The remainder test the source uses decides divisibility. */
  lemma {:induction false} DividesIffRemainderZero(d: nat, n: nat)
    requires d > 0
    ensures Divides(d, n) <==> n % d == 0
    decreases n
  {
    if n >= d {
      DividesIffRemainderZero(d, n - d);
      RemainderStep(d, n);
    }
  }

  lemma RemainderStep(d: nat, n: nat)
    requires 0 < d <= n
    ensures n % d == (n - d) % d
  {
    var q, r := n / d, n % d;
    var q', r' := (n - d) / d, (n - d) % d;
    assert r - r' == d * (q' + 1 - q);
    SmallMultiple(d, q' + 1 - q);
  }

  lemma SmallMultiple(d: int, m: int)
    requires d > 0
    ensures m >= 1 ==> d * m >= d
    ensures m <= -1 ==> d * m <= -d
  {
    if m >= 1 {
      assert d * m == d * (m - 1) + d;
    } else if m <= -1 {
      assert d * m == d * (m + 1) - d;
    }
  }

  /** At least 2, with no divisor strictly between 1 and itself. */
  ghost predicate Prime(n: nat) {
    n >= 2 && forall d: nat {:trigger Divides(d, n)} :: 2 <= d < n ==> !Divides(d, n)
  }

  /** The candidate squares `i * i` that the loop compares with `number`. */
  ghost predicate StoppingCandidate(i: nat, number: nat, max: nat) {
    i >= 5 && i % 6 == 5 && number < i * i <= max
  }

  /** No divisor among the numbers from 2 up to (not including) `limit`. */
  ghost predicate NoDivisorBelow(n: nat, limit: nat) {
    forall d: nat {:trigger Divides(d, n)} :: 2 <= d < limit ==> !Divides(d, n)
  }

  lemma {:induction false} DividesSum(d: nat, a: nat, b: nat)
    requires d > 0 && Divides(d, a) && Divides(d, b)
    ensures Divides(d, a + b)
    decreases b
  {
    if b > 0 { DividesSum(d, a, b - d); }
  }

  lemma {:induction false} DividesTransitive(d: nat, e: nat, n: nat)
    requires d > 0 && e > 0 && Divides(d, e) && Divides(e, n)
    ensures Divides(d, n)
    decreases n
  {
    if n > 0 {
      DividesTransitive(d, e, n - e);
      DividesSum(d, n - e, e);
    }
  }

  /** The cofactor of a proper divisor is a proper divisor. */
  lemma {:induction false} Cofactor(d: nat, n: nat) returns (q: nat)
    requires d > 0 && Divides(d, n)
    ensures d * q == n
    ensures q > 0 ==> Divides(q, n)
    decreases n
  {
    if n == 0 {
      q := 0;
    } else {
      q := Cofactor(d, n - d);
      assert d * (q + 1) == d * q + d;
      q := q + 1;
      MultipleDivides(q, d);
    }
  }

  lemma {:induction false} MultipleDivides(q: nat, d: nat)
    requires q > 0
    ensures Divides(q, d * q)
  {
    if d > 0 {
      MultipleDivides(q, d - 1);
      assert d * q - q == (d - 1) * q;
      DividesSum(q, (d - 1) * q, q);
      assert Divides(q, q);
    }
  }

  /** A number without divisors up to its square root is prime. */
  lemma SquareRootBound(n: nat, i: nat)
    requires n >= 2 && NoDivisorBelow(n, i) && n < i * i
    ensures Prime(n)
  {
    forall d: nat | 2 <= d < n
      ensures !Divides(d, n)
    {
      if Divides(d, n) {
        var q := Cofactor(d, n);
        assert q >= 2;
        SquareMonotone(i, d, q);
      }
    }
  }

  lemma SquareMonotone(i: nat, d: nat, q: nat)
    requires d >= i && q >= i
    ensures d * q >= i * i
  {
    assert d * q == (d - i) * q + i * q;
    assert i * q == i * (q - i) + i * i;
  }

  /** Testing `i` and `i + 2` clears the six residues from `i` to `i + 5`. */
  lemma SixStep(n: nat, i: nat)
    requires i % 6 == 5 && NoDivisorBelow(n, i)
    requires !Divides(2, n) && !Divides(3, n) && !Divides(i, n) && !Divides(i + 2, n)
    ensures NoDivisorBelow(n, i + 6)
  {
    var m := i / 6;
    NoMultipleDivides(n, 2, 3 * m + 3);
    NoMultipleDivides(n, 2, 3 * m + 4);
    NoMultipleDivides(n, 3, 2 * m + 3);
    NoMultipleDivides(n, 2, 3 * m + 5);
  }

  lemma NoMultipleDivides(n: nat, f: nat, k: nat)
    requires f > 0 && k > 0 && !Divides(f, n)
    ensures k * f > 0 && !Divides(k * f, n)
  {
    MultipleDivides(f, k);
    SmallMultiple(k, f);
    if Divides(k * f, n) { DividesTransitive(f, k * f, n); }
  }

  lemma RootBelow(i: nat, n: nat)
    requires i >= 5 && i * i <= n
    ensures i + 2 < n
  {
    assert i * i == 5 * i + (i - 5) * i;
  }

  /** What holds each time the loop condition is evaluated. */
  ghost predicate Searching(number: nat, i: nat) {
    i >= 5 && i % 6 == 5 && NoDivisorBelow(number, i) && (i == 5 || (i - 6) * (i - 6) <= number)
  }

  lemma SearchStarts(number: nat)
    requires !Divides(2, number) && !Divides(3, number)
    ensures Searching(number, 5)
  {
    DividesIffRemainderZero(2, 4);
    if Divides(4, number) { DividesTransitive(2, 4, number); }
  }

  lemma SearchContinues(number: nat, i: nat)
    requires Searching(number, i) && i * i <= number
    requires !Divides(2, number) && !Divides(3, number) && !Divides(i, number) && !Divides(i + 2, number)
    ensures Searching(number, i + 6)
  {
    SixStep(number, i);
  }

  /** Consecutive candidates enclose every square between `number` and `max`. */
  lemma NoCandidate(number: nat, i: nat, max: nat)
    requires Searching(number, i) && i * i > max
    ensures forall j: nat :: !StoppingCandidate(j, number, max)
  {
    forall j: nat
      ensures !StoppingCandidate(j, number, max)
    {
      if j >= i {
        SquareMonotone(i, j, j);
      } else if i > 5 && j <= i - 6 {
        SquareMonotone(j, i - 6, i - 6);
      }
    }
  }

  /**
   * Whenever some candidate square lies above `number` and is representable the answer is
   * exact; otherwise the loop overflows, and it does so only on primes.
   */
  method IsPrime(number: nat, max: nat) returns (r: Checked<bool>)
    requires number <= max
    ensures r.Value? ==> (r.value <==> Prime(number))
    ensures r.Overflow? <==> number > 3 && Prime(number) && forall i: nat :: !StoppingCandidate(i, number, max)
  {
    DividesIffRemainderZero(2, number);
    DividesIffRemainderZero(3, number);
    if number == 2 || number == 3 {
      assert Prime(number);
      return Value(true);
    }
    if number <= 1 || number % 2 == 0 || number % 3 == 0 {
      return Value(false);
    }
    SearchStarts(number);
    var i := 5;
    while i * i <= max && i * i <= number
      invariant Searching(number, i)
      decreases number - i
    {
      RootBelow(i, number);
      DividesIffRemainderZero(i, number);
      DividesIffRemainderZero(i + 2, number);
      if number % i == 0 || number % (i + 2) == 0 {
        return Value(false);
      }
      SearchContinues(number, i);
      i := i + 6;
    }
    SquareRootBound(number, i);
    if i * i > max {
      NoCandidate(number, i, max);
      return Overflow;
    }
    assert StoppingCandidate(i, number, max);
    return Value(true);
  }

  // ----- Fibonacci numbers ---------------------------------------------------

  /** The largest integer whose square does not exceed `n` (`num_integer::Roots::sqrt`). */
  function FloorSqrt(n: nat): (r: nat)
    ensures r * r <= n < (r + 1) * (r + 1)
  {
    if n == 0 then 0 else
      var r := FloorSqrt(n - 1);
      if (r + 1) * (r + 1) <= n then r + 1 else r
  }

  predicate IsPerfectSquare(n: nat) {
    var r := FloorSqrt(n);
    r * r == n
  }

  lemma PerfectSquareExact(n: nat)
    ensures IsPerfectSquare(n) <==> exists x: nat :: x * x == n
  {
    forall x: nat | x * x == n
      ensures x == FloorSqrt(n)
    {
      RootUnique(x, FloorSqrt(n), n);
    }
  }

  lemma RootUnique(x: nat, r: nat, n: nat)
    requires x * x == n && r * r <= n < (r + 1) * (r + 1)
    ensures x == r
  {
    if x < r { SquareBelow(x, r); }
    if x > r { SquareMonotone(r + 1, x, x); }
  }

  lemma SquareBelow(x: nat, r: nat)
    requires x < r
    ensures x * x < r * r
  {
    calc {
      r * r;
      (r - x) * (r + x) + x * x;
    }
    FactorGrows(r + x, r - x);
  }

  /** `a + b`, `a - b` and `a * b` as the machine evaluates them. */
  function CheckedAdd(a: nat, b: nat, max: nat): Checked<nat> { if a + b <= max then Value(a + b) else Overflow }
  function CheckedSub(a: nat, b: nat): Checked<nat> { if b <= a then Value(a - b) else Overflow }
  function CheckedMul(a: nat, b: nat, max: nat): Checked<nat> { if a * b <= max then Value(a * b) else Overflow }

  /** `5 * number * number`, evaluated left to right. */
  function FiveSquares(number: nat, max: nat): Checked<nat> {
    var five := CheckedMul(5, number, max);
    if five.Overflow? then Overflow else CheckedMul(five.value, number, max)
  }

  function IsFibonacci(number: nat, max: nat): Checked<bool> {
    var upper := FiveSquares(number, max);
    if upper.Overflow? then Overflow else
    var plus := CheckedAdd(upper.value, 4, max);
    if plus.Overflow? then Overflow else
    if IsPerfectSquare(plus.value) then Value(true) else
    var minus := CheckedSub(upper.value, 4);
    if minus.Overflow? then Overflow else Value(IsPerfectSquare(minus.value))
  }

  ghost function Fib(k: nat): nat {
    if k < 2 then k else Fib(k - 1) + Fib(k - 2)
  }

  /** The companion (Lucas) sequence 2, 1, 3, 4, 7, ... */
  ghost function Lucas(k: nat): nat {
    if k == 0 then 2 else if k == 1 then 1 else Lucas(k - 1) + Lucas(k - 2)
  }

  ghost predicate InFibonacciSequence(n: nat) { exists k :: Fib(k) == n }

  /** Four times (-1)^k. */
  ghost function Sign(k: nat): int { if k % 2 == 0 then 4 else -4 }

  /** Both sequences advance by (x, y) -> ((x + 5y) / 2, (x + y) / 2). */
  lemma {:induction false} Advance(k: nat)
    ensures 2 * Fib(k + 1) == Lucas(k) + Fib(k)
    ensures 2 * Lucas(k + 1) == Lucas(k) + 5 * Fib(k)
  {
    if k >= 2 {
      Advance(k - 1);
      Advance(k - 2);
    } else {
      assert Fib(2) == 1 && Lucas(2) == 3;
    }
  }

  /** x², built from the odd numbers so that reasoning about it stays linear. */
  ghost function Sq(x: nat): (r: nat) {
    if x == 0 then 0 else Sq(x - 1) + 2 * x - 1
  }

  lemma {:induction false} SqIsSquare(x: nat)
    ensures Sq(x) == x * x
  {
    if x > 0 {
      SqIsSquare(x - 1);
      assert x * x == (x - 1) * (x - 1) + 2 * x - 1;
    }
  }

  lemma {:induction false} SqGrows(x: nat, y: nat)
    ensures x < y ==> Sq(x) < Sq(y)
  {
    if x < y { SqGrows(x, y - 1); }
  }

  lemma {:induction false} SqParity(x: nat) returns (h: nat)
    ensures Sq(x) == x + 2 * h
  {
    if x == 0 {
      h := 0;
    } else {
      h := SqParity(x - 1);
      h := h + x - 1;
    }
  }

  /** x² - 5y² = s. */
  ghost predicate Solves(x: nat, y: nat, s: int) { Sq(x) - 5 * Sq(y) == s }

  lemma {:induction false} LucasIdentity(k: nat)
    ensures Solves(Lucas(k), Fib(k), Sign(k))
  {
    if k == 0 {
      assert Sq(2) == 4;
    } else {
      LucasIdentity(k - 1);
      SignFlips(k - 1, Lucas(k - 1), Fib(k - 1), Lucas(k), Fib(k));
    }
  }

  lemma SignFlips(k: nat, x: nat, y: nat, x': nat, y': nat)
    requires x == Lucas(k) && y == Fib(k) && x' == Lucas(k + 1) && y' == Fib(k + 1)
    requires Solves(x, y, Sign(k))
    ensures Solves(x', y', Sign(k + 1))
  {
    Advance(k);
    Norm(x, y, x', y');
    SignAlternates(k);
  }

  lemma SignAlternates(k: nat)
    ensures Sign(k + 1) == -Sign(k)
  {
  }

  /** The advance map negates x² - 5y². */
  lemma Norm(x: nat, y: nat, x': nat, y': nat)
    requires 2 * x' == x + 5 * y && 2 * y' == x + y
    ensures Sq(x') - 5 * Sq(y') == 5 * Sq(y) - Sq(x)
  {
    SqIsSquare(x);
    SqIsSquare(y);
    SqIsSquare(x');
    SqIsSquare(y');
    NormOfProducts(x, y, x', y');
  }

  lemma NormOfProducts(x: int, y: int, x': int, y': int)
    requires 2 * x' == x + 5 * y && 2 * y' == x + y
    ensures x' * x' - 5 * (y' * y') == 5 * (y * y) - x * x
  {
    calc {
      4 * (x' * x' - 5 * (y' * y'));
      (2 * x') * (2 * x') - 5 * ((2 * y') * (2 * y'));
      (x + 5 * y) * (x + 5 * y) - 5 * ((x + y) * (x + y));
      4 * (5 * (y * y) - x * x);
    }
  }

  /** Bounds that make the descent step land strictly below, on natural numbers. */
  lemma DescentBounds(x: nat, y: nat)
    requires y >= 2 && (Solves(x, y, 4) || Solves(x, y, -4))
    ensures y < x < 3 * y
  {
    SqGrows(1, y);
    assert Sq(1) == 1;
    assert y < x by { SqGrows(x, y); }
    assert x < 3 * y by {
      SqTriple(y);
      SqGrows(3 * y, x);
    }
  }

  lemma SameParity(x: nat, y: nat) returns (h: int)
    requires Solves(x, y, 4) || Solves(x, y, -4)
    ensures x - y == 2 * h
  {
    var a := SqParity(x);
    var b := SqParity(y);
    h := 2 * y + 5 * b - a + if Solves(x, y, 4) then 2 else -2;
  }

  lemma SqTriple(y: nat)
    ensures Sq(3 * y) == 9 * Sq(y)
  {
    SqIsSquare(3 * y);
    SqIsSquare(y);
    assert (3 * y) * (3 * y) == 9 * (y * y);
  }

  /** Every solution of x² - 5y² = ±4 is a (Lucas, Fibonacci) pair, by descent on y. */
  lemma {:induction false} Descent(x: nat, y: nat) returns (k: nat)
    requires Solves(x, y, 4) || Solves(x, y, -4)
    ensures Fib(k) == y && Lucas(k) == x
    decreases y
  {
    if y == 0 {
      SqGrows(2, x);
      SqGrows(x, 2);
      assert Sq(2) == 4 && Fib(0) == 0 && Lucas(0) == 2;
      return 0;
    }
    if y == 1 {
      SqGrows(3, x);
      SqGrows(x, 1);
      assert Sq(1) == 1 && Sq(2) == 4 && Sq(3) == 9;
      assert Fib(1) == 1 && Lucas(1) == 1 && Fib(2) == 1 && Lucas(2) == 3;
      return if x == 1 then 1 else 2;
    }
    DescentBounds(x, y);
    var y' := SameParity(x, y);
    var x' := 2 * y - y';
    Norm(x', y', x, y);
    k := Descent(x', y');
    Advance(k);
    k := k + 1;
  }

  /**
   * The Fibonacci test is exact on every number for which 5n² + 4 is representable, and
   * overflows on every other; in particular the subtraction never underflows.
   */
  lemma FibonacciTestExact(number: nat, max: nat)
    ensures 5 * number * number + 4 <= max ==>
              IsFibonacci(number, max) == Value(InFibonacciSequence(number))
    ensures 5 * number * number + 4 > max ==> IsFibonacci(number, max).Overflow?
  {
    var v := 5 * (number * number);
    assert 5 * number * number == v;
    TestUnfolded(number, v, max);
    NeighbourTest(number, v);
  }

  lemma NeighbourTest(n: nat, v: nat)
    requires v == 5 * (n * n) && (n > 0 ==> v >= 5)
    ensures IsPerfectSquare(v + 4) || (n > 0 && IsPerfectSquare(v - 4)) <==> InFibonacciSequence(n)
  {
    SquareNeighbours(n);
    SquareNear(n, v + 4, 4);
    if n > 0 {
      SquareNear(n, v - 4, -4);
    } else {
      assert Sq(0) == 0 && Sq(2) == 4;
      assert Solves(2, n, 4);
    }
  }

  /** The checked evaluation, step by step; at zero the first square already decides. */
  lemma TestUnfolded(number: nat, v: nat, max: nat)
    requires v == 5 * (number * number)
    ensures v + 4 > max ==> IsFibonacci(number, max).Overflow?
    ensures number > 0 ==> v >= 5
    ensures v + 4 <= max ==> IsFibonacci(number, max) ==
                               Value(IsPerfectSquare(v + 4) || (number > 0 && IsPerfectSquare(v - 4)))
  {
    FiveSquaresExact(number, v, max);
    if number == 0 { FourIsSquare(); }
  }

  lemma FiveSquaresExact(number: nat, v: nat, max: nat)
    requires v == 5 * (number * number)
    ensures FiveSquares(number, max) == if v <= max then Value(v) else Overflow
    ensures number > 0 ==> v >= 5
  {
    assert (5 * number) * number == v;
    if number > 0 { FactorGrows(5 * number, number); }
  }

  lemma SquareNear(n: nat, v: nat, s: int)
    requires v == 5 * (n * n) + s
    ensures IsPerfectSquare(v) <==> exists x: nat :: Solves(x, n, s)
  {
    SqIsSquare(n);
    PerfectSquareExact(v);
    forall x: nat ensures Solves(x, n, s) <==> x * x == v { SqIsSquare(x); }
    if IsPerfectSquare(v) { assert Solves(FloorSqrt(v), n, s); }
  }

  /** n is a Fibonacci number exactly when 5n² + 4 or 5n² - 4 is a square. */
  lemma SquareNeighbours(n: nat)
    ensures InFibonacciSequence(n) <==> exists x: nat :: Solves(x, n, 4) || Solves(x, n, -4)
  {
    if k :| Fib(k) == n {
      LucasIdentity(k);
    }
    if x: nat :| Solves(x, n, 4) || Solves(x, n, -4) {
      var k := Descent(x, n);
    }
  }

  lemma FactorGrows(a: nat, b: nat)
    requires b >= 1
    ensures a <= a * b
  {
    assert a * b == a + a * (b - 1);
  }

  /** The same expression under wrap-around arithmetic, as a release build evaluates it. */
  function IsFibonacciWrapping(number: nat, modulus: nat): bool
    requires modulus > 0
  {
    NearSquareWrapping(5 * number * number, modulus)
  }

  predicate NearSquareWrapping(v: nat, modulus: nat)
    requires modulus > 0
  {
    IsPerfectSquare((v + 4) % modulus) || IsPerfectSquare((v - 4) % modulus)
  }

  lemma NearSquareUnwrapped(n: nat, v: nat, modulus: nat)
    requires v + 4 < modulus && (if n == 0 then v == 0 else v >= 5)
    ensures NearSquareWrapping(v, modulus) <==> IsPerfectSquare(v + 4) || (n > 0 && IsPerfectSquare(v - 4))
  {
    SquareUnwrapped(v + 4, modulus);
    if n == 0 { FourIsSquare(); } else { SquareUnwrapped(v - 4, modulus); }
  }

  lemma SquareUnwrapped(n: nat, modulus: nat)
    requires n < modulus
    ensures n % modulus == n && IsPerfectSquare(n % modulus) == IsPerfectSquare(n)
  {
    SmallRemainder(n, modulus);
  }

  lemma SmallRemainder(n: nat, modulus: nat)
    requires n < modulus
    ensures n % modulus == n
  {
  }

  lemma FourIsSquare()
    ensures IsPerfectSquare(4)
  {
    PerfectSquareExact(4);
    assert 2 * 2 == 4;
  }

  /** While 5n² + 4 does not wrap the test is exact, under wrap-around too. */
  lemma WrappingTestExact(number: nat, modulus: nat)
    requires 5 * number * number + 4 < modulus
    ensures IsFibonacciWrapping(number, modulus) <==> InFibonacciSequence(number)
  {
    var v := 5 * (number * number);
    assert v == 5 * number * number;
    assert number == 0 ==> v == 0;
    FiveSquaresExact(number, v, v);
    NearSquareUnwrapped(number, v, modulus);
    NeighbourTest(number, v);
  }

  lemma RemainderUnique(x: nat, m: nat, q: nat, r: nat)
    requires r < m && x == m * q + r
    ensures x % m == r
  {
    var q', r' := x / m, x % m;
    assert m * (q' - q) == r - r';
    SmallMultiple(m, q' - q);
  }

  /** Under any modulus that is a square the wrapped test accepts its root, Fibonacci number or not. */
  lemma WrappingAcceptsRoot(root: nat, modulus: nat)
    requires root >= 3 && modulus == root * root
    ensures IsFibonacciWrapping(root, modulus)
  {
    assert modulus >= 9 by { SquareMonotone(3, root, root); }
    assert 5 * root * root == modulus * 5;
    RemainderUnique(modulus * 5 + 4, modulus, 5, 4);
    FourIsSquare();
  }

  /** 5·2⁶⁴ ± 4 lie strictly between two consecutive squares. */
  lemma RootOfWordNotFibonacci()
    ensures !InFibonacciSequence(0x1_0000_0000)
  {
    var n := 0x1_0000_0000;
    SquareNeighbours(n);
    forall x: nat
      ensures !Solves(x, n, 4) && !Solves(x, n, -4)
    {
      var r := 9603838834;
      SqIsSquare(n);
      SqIsSquare(r);
      SqIsSquare(r + 1);
      SqGrows(x, r);
      SqGrows(r + 1, x);
    }
  }

  /** On 64 bits the wrapped test accepts 2³², which is no Fibonacci number. */
  lemma WrappingTestFails()
    ensures IsFibonacciWrapping(0x1_0000_0000, 0x1_0000_0000_0000_0000)
    ensures !InFibonacciSequence(0x1_0000_0000)
  {
    WrappingAcceptsRoot(0x1_0000_0000, 0x1_0000_0000_0000_0000);
    RootOfWordNotFibonacci();
  }

  // ----- Digit sum -----------------------------------------------------------

  /** The number written with decimal digits, least significant first. */
  ghost function FromDigits(ds: seq<nat>): nat {
    if ds == [] then 0 else ds[0] + 10 * FromDigits(ds[1..])
  }

  ghost function Sum(ds: seq<nat>): nat {
    if ds == [] then 0 else ds[0] + Sum(ds[1..])
  }

  ghost predicate Digits(ds: seq<nat>) { forall i :: 0 <= i < |ds| ==> ds[i] < 10 }

  /** The digits of `n`, peeled off from the least significant end, added up. */
  ghost function DigitSumOf(n: nat): nat {
    if n == 0 then 0 else n % 10 + DigitSumOf(n / 10)
  }

  method DigitSum(number: nat) returns (sum: nat)
    ensures sum == DigitSumOf(number)
  {
    sum := 0;
    var value := number;
    while value > 0
      invariant sum + DigitSumOf(value) == DigitSumOf(number)
    {
      sum := sum + value % 10;
      value := value / 10;
    }
  }

  /** It is the sum of any decimal representation of the number, leading zeros included. */
  lemma {:induction false} DigitSumOfAnyRepresentation(ds: seq<nat>)
    requires Digits(ds)
    ensures DigitSumOf(FromDigits(ds)) == Sum(ds)
  {
    if ds != [] {
      DigitSumOfAnyRepresentation(ds[1..]);
      var rest := FromDigits(ds[1..]);
      assert (ds[0] + 10 * rest) % 10 == ds[0] && (ds[0] + 10 * rest) / 10 == rest;
    }
  }

  lemma NinesCast(t: nat, q: nat, r: nat)
    requires t % 9 == q % 9
    ensures (r + t) % 9 == (10 * q + r) % 9
  {
    var m := t / 9 - q / 9 - q;
    assert r + t == 10 * q + r + 9 * m;
  }

  /** Casting out nines. */
  lemma {:induction false} DigitSumModNine(n: nat)
    ensures DigitSumOf(n) % 9 == n % 9
  {
    if n > 0 {
      var q := n / 10;
      DigitSumModNine(q);
      NinesCast(DigitSumOf(q), q, n % 10);
    }
  }
}
