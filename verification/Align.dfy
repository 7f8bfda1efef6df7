/** `APR_ALIGN`: rounding up by adding and masking, in a machine word. */
module Align {

  function Pow2(n: nat): (r: nat)
    ensures r >= 1
  {
    if n == 0 then 1 else 2 * Pow2(n - 1)
  }

  /** The bitwise and of two words of `w` bits. */
  function And(w: nat, a: nat, b: nat): nat {
    if w == 0 then 0 else (a % 2) * (b % 2) + 2 * And(w - 1, a / 2, b / 2)
  }

  /** The bitwise complement of a word of `w` bits. */
  function Not(w: nat, a: nat): nat {
    if w == 0 then 0 else (1 - a % 2) + 2 * Not(w - 1, a / 2)
  }

  /** `((size) + ((boundary) - 1)) & ~((boundary) - 1)`, the sum wrapping round at `w` bits. */
  function AprAlign(w: nat, size: nat, boundary: nat): nat
    requires boundary > 0
  {
    And(w, (size + (boundary - 1)) % Pow2(w), Not(w, boundary - 1))
  }

  /** `APR_ALIGN_DEFAULT` */
  function AprAlignDefault(w: nat, size: nat): nat {
    AprAlign(w, size, 8)
  }

  ghost predicate IsMultiple(n: nat, boundary: nat)
    requires boundary > 0
  {
    n % boundary == 0
  }

  /** `n` is the least multiple of `boundary` that is not below `size`. */
  ghost predicate IsLeastMultiple(n: nat, size: nat, boundary: nat)
    requires boundary > 0
  {
    IsMultiple(n, boundary) && size <= n < size + boundary
  }

  ghost predicate IsPow2(boundary: nat) {
    exists k: nat :: boundary == Pow2(k)
  }

  lemma {:induction false} NotIsComplement(w: nat, a: nat)
    requires a < Pow2(w)
    ensures Not(w, a) == Pow2(w) - 1 - a
  {
    if w > 0 {
      NotIsComplement(w - 1, a / 2);
    }
  }

  lemma {:induction false} AndZero(w: nat, a: nat)
    ensures And(w, a, 0) == 0
  {
    if w > 0 {
      AndZero(w - 1, a / 2);
    }
  }

  lemma {:induction false} AndOnes(w: nat, a: nat)
    requires a < Pow2(w)
    ensures And(w, a, Pow2(w) - 1) == a
  {
    if w > 0 {
      AndOnes(w - 1, a / 2);
      assert (Pow2(w) - 1) / 2 == Pow2(w - 1) - 1;
    }
  }

  /** A mask whose lowest bit is clear. */
  lemma AndShifted(w: nat, x: nat, mask: nat, half: nat)
    requires w > 0 && mask == 2 * half
    ensures And(w, x, mask) == 2 * And(w - 1, x / 2, half)
  {
    assert mask % 2 == 0 && mask / 2 == half;
  }

  lemma MaskStep(w: nat, x: nat, top: nat, p: nat)
    requires w > 0 && 0 < p <= top && And(w - 1, x / 2, top - p) == x / 2 - (x / 2) % p
    ensures And(w, x, 2 * top - 2 * p) == x - x % (2 * p)
  {
    AndShifted(w, x, 2 * top - 2 * p, top - p);
    HalfRemainder(x, p);
  }

  /** Masking the low `k` bits away takes off the remainder. */
  lemma {:induction false} MaskIsRemainder(w: nat, k: nat, x: nat)
    requires k <= w && x < Pow2(w)
    ensures Pow2(k) <= Pow2(w) && And(w, x, Pow2(w) - Pow2(k)) == x - x % Pow2(k)
  {
    if k == 0 {
      MaskNone(w, x);
    } else {
      MaskIsRemainder(w - 1, k - 1, x / 2);
      MaskStep(w, x, Pow2(w - 1), Pow2(k - 1));
    }
  }

  lemma MaskNone(w: nat, x: nat)
    requires x < Pow2(w)
    ensures And(w, x, Pow2(w) - Pow2(0)) == x - x % Pow2(0)
  {
    AndOnes(w, x);
  }

  lemma HalfRemainder(x: nat, p: nat)
    requires p > 0
    ensures 2 * ((x / 2) - (x / 2) % p) == x - x % (2 * p)
  {
    var q, r := (x / 2) / p, (x / 2) % p;
    assert x / 2 == q * p + r;
    var low := x % 2;
    assert x == (2 * p) * q + (2 * r + low);
    RemainderIs(x, 2 * p, q, 2 * r + low);
  }

  lemma RemainderIs(x: nat, d: nat, q: nat, r: nat)
    requires d > 0 && r < d && x == d * q + r
    ensures x % d == r && x / d == q
  {
    QuotientAtMost(d, q, r, x / d, x % d);
    QuotientAtMost(d, x / d, x % d, q, r);
  }

  lemma QuotientAtMost(d: nat, q: nat, r: nat, q': nat, r': nat)
    requires r < d && r' < d && d * q + r == d * q' + r'
    ensures q <= q'
  {
    if q > q' {
      TimesMonotone(d, q' + 1, q);
    }
  }

  lemma TimesMonotone(d: nat, a: nat, b: nat)
    requires a <= b
    ensures d * a <= d * b
  {
  }

  lemma {:induction false} Pow2Monotone(j: nat, k: nat)
    requires j <= k
    ensures Pow2(j) <= Pow2(k)
  {
    if j < k {
      Pow2Monotone(j, k - 1);
    }
  }

  /** Masking with the complement of `2^k - 1`. */
  lemma ComplementMask(w: nat, k: nat, x: nat)
    requires k <= w && x < Pow2(w)
    ensures And(w, x, Not(w, Pow2(k) - 1)) == x - x % Pow2(k)
  {
    Pow2Monotone(k, w);
    NotIsComplement(w, Pow2(k) - 1);
    MaskIsRemainder(w, k, x);
  }

  lemma AlignIs(w: nat, size: nat, k: nat)
    requires k <= w && size < Pow2(w)
    ensures var x := (size + (Pow2(k) - 1)) % Pow2(w);
            AprAlign(w, size, Pow2(k)) == x - x % Pow2(k)
  {
    ComplementMask(w, k, (size + (Pow2(k) - 1)) % Pow2(w));
  }

  /** Rounding down what has wrapped round at `top`. */
  lemma LeastIff(size: nat, b: nat, top: nat)
    requires 0 < b <= top && size < top
    ensures var x := (size + (b - 1)) % top;
            IsLeastMultiple(x - x % b, size, b) <==> size + (b - 1) < top
  {
    var sum := size + (b - 1);
    if sum < top {
      RemainderIs(sum, top, 0, sum);
      TakenOff(sum, b);
    } else {
      RemainderIs(sum, top, 1, sum - top);
    }
  }

  /** For a boundary that is a power of two: the macro is the least multiple not below the size,
      exactly when the sum it forms fits in the word. */
  lemma AlignIsLeastMultipleIff(w: nat, size: nat, k: nat)
    requires k <= w && size < Pow2(w)
    ensures IsLeastMultiple(AprAlign(w, size, Pow2(k)), size, Pow2(k)) <==> size + (Pow2(k) - 1) < Pow2(w)
  {
    AlignIs(w, size, k);
    Pow2Monotone(k, w);
    LeastIff(size, Pow2(k), Pow2(w));
  }

  lemma TakenOff(x: nat, d: nat)
    requires d > 0
    ensures (x - x % d) % d == 0 && x - d < x - x % d <= x
  {
    RemainderIs(x - x % d, d, x / d, 0);
  }

  lemma LeastMultipleIsUnique(n: nat, m: nat, size: nat, boundary: nat)
    requires boundary > 0 && IsLeastMultiple(n, size, boundary) && IsLeastMultiple(m, size, boundary)
    ensures n == m
  {
    if n < m {
      MultiplesApart(n, m, boundary);
    } else if m < n {
      MultiplesApart(m, n, boundary);
    }
  }

  lemma MultiplesApart(n: nat, m: nat, b: nat)
    requires b > 0 && n % b == 0 && m % b == 0 && n < m
    ensures m - n >= b
  {
    assert n == b * (n / b) && m == b * (m / b);
    if m / b <= n / b {
      TimesMonotone(b, m / b, n / b);
    }
    TimesMonotone(b, n / b + 1, m / b);
  }

  lemma {:induction false} Pow2Divides(k: nat, w: nat)
    requires k <= w
    ensures Pow2(w) % Pow2(k) == 0
  {
    if k < w {
      Pow2Divides(k, w - 1);
      TwiceMultiple(Pow2(w - 1), Pow2(k));
    } else {
      RemainderIs(Pow2(w), Pow2(k), 1, 0);
    }
  }

  lemma TwiceMultiple(n: nat, d: nat)
    requires d > 0 && n % d == 0
    ensures (2 * n) % d == 0
  {
    var q := n / d;
    assert n == d * q;
    assert 2 * n == d * (2 * q);
    RemainderIs(2 * n, d, 2 * q, 0);
  }

  /** What is aligned is so far below the end of the word that it can be aligned again. */
  lemma AlignedFits(w: nat, size: nat, k: nat)
    requires k <= w && size + (Pow2(k) - 1) < Pow2(w)
    ensures AprAlign(w, size, Pow2(k)) + (Pow2(k) - 1) < Pow2(w)
  {
    var b, n := Pow2(k), AprAlign(w, size, Pow2(k));
    AlignIsLeastMultipleIff(w, size, k);
    Pow2Divides(k, w);
    MultiplesApart(n, Pow2(w), b);
  }

  /** Where the sums fit: aligning twice is aligning once, and it keeps the order of sizes. */
  lemma AlignLaws(w: nat, size: nat, larger: nat, k: nat)
    requires k <= w && size <= larger && larger + (Pow2(k) - 1) < Pow2(w)
    ensures AprAlign(w, size, Pow2(k)) <= AprAlign(w, larger, Pow2(k))
    ensures AprAlign(w, AprAlign(w, size, Pow2(k)), Pow2(k)) == AprAlign(w, size, Pow2(k))
  {
    var b := Pow2(k);
    AlignIsLeastMultipleIff(w, size, k);
    AlignIsLeastMultipleIff(w, larger, k);
    var n, m := AprAlign(w, size, b), AprAlign(w, larger, b);
    if m < n {
      MultiplesApart(m, n, b);
    }
    AlignedFits(w, size, k);
    AlignIsLeastMultipleIff(w, n, k);
    LeastMultipleIsUnique(AprAlign(w, n, b), n, n, b);
  }

  /** The default boundary: the least multiple of 8, exactly when seven more than the size fits. */
  lemma AlignDefaultIff(w: nat, size: nat)
    requires 3 <= w && size < Pow2(w)
    ensures IsLeastMultiple(AprAlignDefault(w, size), size, 8) <==> size + 7 < Pow2(w)
  {
    assert Pow2(0) == 1 && Pow2(1) == 2 && Pow2(2) == 4 && Pow2(3) == 8;
    AlignIsLeastMultipleIff(w, size, 3);
  }

  // Other boundaries.

  lemma {:induction false} AndNot(w: nat, a: nat)
    ensures And(w, a, Not(w, a)) == 0
  {
    if w > 0 {
      AndNot(w - 1, a / 2);
    }
  }

  /** `b & ~(b - 1)` is `b` for powers of two only. */
  lemma {:induction false} OneBit(w: nat, b: nat)
    requires 1 <= b < Pow2(w) && And(w, b, Not(w, b - 1)) == b
    ensures IsPow2(b)
  {
    var c := b / 2;
    if b % 2 == 1 {
      assert (b - 1) / 2 == c;
      AndNot(w - 1, c);
      assert b == Pow2(0);
    } else {
      assert (b - 1) / 2 == c - 1;
      OneBit(w - 1, c);
      var k: nat :| c == Pow2(k);
      assert b == Pow2(k + 1);
    }
  }

  lemma {:induction false} ExponentFits(w: nat, k: nat)
    requires Pow2(k) < Pow2(w)
    ensures k <= w
  {
    if k > w {
      Pow2Monotone(w, k);
    }
  }

  /** The macro aligns every size for which its sum fits just when the boundary is a power of two:
      the header's "only to be used to align on a power of 2 boundary". */
  lemma AlignsIffPow2(w: nat, boundary: nat)
    requires 1 <= boundary < Pow2(w)
    ensures (forall size: nat {:trigger AprAlign(w, size, boundary)} | size + (boundary - 1) < Pow2(w) ::
               IsLeastMultiple(AprAlign(w, size, boundary), size, boundary))
            <==> IsPow2(boundary)
  {
    if IsPow2(boundary) {
      var k: nat :| boundary == Pow2(k);
      ExponentFits(w, k);
      forall size: nat | size + (boundary - 1) < Pow2(w)
        ensures IsLeastMultiple(AprAlign(w, size, boundary), size, boundary)
      {
        AlignIsLeastMultipleIff(w, size, k);
      }
    } else if IsLeastMultiple(AprAlign(w, 1, boundary), 1, boundary) {
      RemainderIs(boundary, Pow2(w), 0, boundary);
      RemainderIs(boundary, boundary, 1, 0);
      LeastMultipleIsUnique(AprAlign(w, 1, boundary), boundary, 1, boundary);
      OneBit(w, boundary);
    }
  }
}
