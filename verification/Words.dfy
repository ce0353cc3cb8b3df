/** Machine words: 64-bit wrap-around, little-endian byte strings and bitwise or. */
module Words {

  datatype Option<+T> = None | Some(value: T) {
    /** The value, or `default` when there is none. */
    function GetOr(default: T): T {
      match this
      case Some(v) => v
      case None => default
    }
  }

  type Byte = x: int | 0 <= x < 0x100

  type Word64 = x: int | 0 <= x < 0x1_0000_0000_0000_0000

  /** Reduction to an unsigned 64-bit word. */
  function Wrap(x: int): Word64 {
    x % 0x1_0000_0000_0000_0000
  }

  /** Reading an unsigned 64-bit word as a signed one. */
  function Signed64(x: Word64): int {
    if x < 0x8000_0000_0000_0000 then x else x - 0x1_0000_0000_0000_0000
  }

  lemma WrapAdd(x: int, y: int)
    ensures Wrap(Wrap(x) + y) == Wrap(x + y)
  {
  }

  lemma WrapShift(x: int, k: int)
    ensures Wrap(x + 0x1_0000_0000_0000_0000 * k) == Wrap(x)
  {
  }

  lemma WrapMul(x: int, y: int)
    ensures Wrap(Wrap(x) * y) == Wrap(x * y)
  {
    var q := x / 0x1_0000_0000_0000_0000;
    assert x == Wrap(x) + 0x1_0000_0000_0000_0000 * q;
    assert x * y == Wrap(x) * y + 0x1_0000_0000_0000_0000 * (q * y);
    WrapShift(Wrap(x) * y, q * y);
  }

  lemma MulMonotone(a: int, b: int, k: nat)
    requires a <= b
    ensures a * k <= b * k
  {
  }

  /** Integer division is the one quotient that leaves a remainder below the divisor. */
  lemma DivUnique(x: int, k: nat, q: int)
    requires k > 0 && q * k <= x < q * k + k
    ensures x / k == q
  {
    var d := x / k;
    if d < q {
      MulMonotone(d + 1, q, k);
    } else if q < d {
      MulMonotone(q + 1, d, k);
    }
  }

  function Pow256(n: nat): (p: nat)
    ensures p >= 1
  {
    if n == 0 then 1 else 256 * Pow256(n - 1)
  }

  /** How often b fits into a. A divisor of zero, which is undefined in the program, counts as
      fitting zero times. */
  function Quotient(a: nat, b: nat): nat {
    if b == 0 || a < b then 0 else 1 + Quotient(a - b, b)
  }

  predicate EvenMultiple(a: nat, b: nat) {
    a == 0 || (0 < b <= a && EvenMultiple(a - b, b))
  }

  lemma {:induction false} QuotientBounds(a: nat, b: nat)
    requires b > 0
    ensures Quotient(a, b) * b <= a < Quotient(a, b) * b + b
    ensures EvenMultiple(a, b) <==> a == Quotient(a, b) * b
  {
    if a >= b {
      var q := Quotient(a - b, b);
      QuotientBounds(a - b, b);
      assert (1 + q) * b == q * b + b;
    }
  }

  /** Quotient and EvenMultiple are integer division and divisibility. */
  lemma QuotientIsDivision(a: nat, b: nat)
    requires b > 0
    ensures Quotient(a, b) == a / b
    ensures EvenMultiple(a, b) <==> a % b == 0
  {
    QuotientBounds(a, b);
    DivUnique(a, b, Quotient(a, b));
  }

  lemma {:induction false} QuotientOfProduct(k: nat, b: nat)
    requires b > 0
    ensures Quotient(k * b, b) == k && EvenMultiple(k * b, b)
    decreases k
  {
    if k != 0 {
      assert k * b == (k - 1) * b + b;
      QuotientOfProduct(k - 1, b);
    }
  }

  /** The n low-order bytes of x, least significant first. */
  function ToLE(x: nat, n: nat): (s: seq<Byte>)
    ensures |s| == n
  {
    if n == 0 then [] else [x % 256] + ToLE(x / 256, n - 1)
  }

  /** Byte i is digit i of the number to the base 256. */
  lemma {:induction false} ToLEByte(x: nat, n: nat, i: nat)
    requires i < n
    ensures ToLE(x, n)[i] == x / Pow256(i) % 256
  {
    if i == 0 {
      assert x / 1 == x;
    } else {
      ToLEByte(x / 256, n - 1, i - 1);
      DivTwice(x, 256, Pow256(i - 1));
    }
  }

  lemma DivTwice(x: nat, a: nat, b: nat)
    requires a > 0 && b > 0
    ensures a * b > 0 && x / a / b == x / (a * b)
  {
    var q := x / a;
    var r := q / b;
    MulMonotone(1, a, b);
    assert x == q * a + x % a && q == r * b + q % b;
    var d := q % b;
    MulMonotone(d, b - 1, a);
    assert (r * b + d) * a == r * b * a + d * a;
    assert r * b * a == r * (a * b);
    assert (b - 1) * a == a * b - a;
    DivUnique(x, a * b, r);
  }

  /** Four and eight bytes, spelled out. */
  lemma ToLE4(x: nat)
    ensures ToLE(x, 4) == [x % 256, x / 256 % 256, x / 0x1_0000 % 256, x / 0x100_0000 % 256]
  {
    assert Pow256(1) == 256 && Pow256(2) == 0x1_0000 && Pow256(3) == 0x100_0000;
    ToLEByte(x, 4, 0);
    ToLEByte(x, 4, 1);
    ToLEByte(x, 4, 2);
    ToLEByte(x, 4, 3);
    assert x / 1 == x;
  }

  function FromLE(s: seq<Byte>): nat {
    if s == [] then 0 else s[0] + 256 * FromLE(s[1..])
  }

  lemma {:induction false} FromLEBound(s: seq<Byte>)
    ensures FromLE(s) < Pow256(|s|)
  {
    if s != [] {
      FromLEBound(s[1..]);
    }
  }

  /** Writing n bytes and reading them back gives the number modulo 256^n. */
  lemma {:induction false} LERoundTrip(x: nat, n: nat)
    requires x < Pow256(n)
    ensures FromLE(ToLE(x, n)) == x
  {
    if n != 0 {
      LERoundTrip(x / 256, n - 1);
      assert ToLE(x, n)[1..] == ToLE(x / 256, n - 1);
    }
  }

  lemma Pow256Values()
    ensures Pow256(4) == 0x1_0000_0000
    ensures Pow256(8) == 0x1_0000_0000_0000_0000
  {
    assert Pow256(2) == 0x1_0000;
    assert Pow256(4) == 0x1_0000_0000;
    assert Pow256(6) == 0x1_0000_0000_0000;
  }

  /** The bytes lo..lo+n of s, cut short where s ends. */
  function Clip(s: seq<Byte>, lo: nat, n: nat): (r: seq<Byte>)
    ensures lo + n <= |s| ==> r == s[lo..lo + n]
  {
    if |s| <= lo then [] else if |s| < lo + n then s[lo..] else s[lo..lo + n]
  }

  /** Bitwise or of two naturals. */
  function BitOr(a: nat, b: nat): nat {
    if a == 0 then b else if b == 0 then a else
      (if a % 2 == 1 || b % 2 == 1 then 1 else 0) + 2 * BitOr(a / 2, b / 2)
  }

  lemma {:induction false} BitOrCommutes(a: nat, b: nat)
    ensures BitOr(a, b) == BitOr(b, a)
  {
    if a != 0 && b != 0 {
      BitOrCommutes(a / 2, b / 2);
    }
  }

  lemma BitOrStep(a: nat, b: nat)
    ensures BitOr(a, b) == (if a % 2 == 1 || b % 2 == 1 then 1 else 0) + 2 * BitOr(a / 2, b / 2)
  {
  }

  /** u shifted left by k bits. */
  function Shl(u: nat, k: nat): nat
    decreases k
  {
    if k == 0 then u else 2 * Shl(u, k - 1)
  }

  /** Or-ing above the k low bits leaves the k low bits alone. */
  lemma {:induction false} BitOrAbove(low: nat, u: nat, v: nat, k: nat)
    requires low < Shl(1, k)
    ensures BitOr(low + Shl(u, k), Shl(v, k)) == low + Shl(BitOr(u, v), k)
  {
    if k != 0 {
      BitOrStep(low + Shl(u, k), Shl(v, k));
      BitOrAbove(low / 2, u, v, k - 1);
    }
  }
}
