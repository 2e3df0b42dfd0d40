/** 16-bit ring indices. An index is the low half of an unbounded count. */
module Words {

  type Byte = x: int | 0 <= x < 256

  function Min(a: nat, b: nat): nat { if a < b then a else b }

  const TWO16: nat := 0x1_0000

  type u16 = x: int | 0 <= x < TWO16

  function Wrap16(x: int): (r: u16) { x % TWO16 }

  /** vring_need_event (section 2.7.10 of VirtIO 1.2): did the step from `old` to `new` pass `event`? */
  predicate NeedEvent(event: u16, new_: u16, old_: u16) {
    Wrap16(new_ - event - 1) < Wrap16(new_ - old_)
  }

  lemma {:induction false} WrapStep(d: int)
    requires Wrap16(d) + 1 < TWO16
    ensures Wrap16(d + 1) == Wrap16(d) + 1
  {
    ModShift(d % TWO16 + 1, d / TWO16);
  }

  lemma {:induction false} WrapDiff(a: int, b: int)
    ensures Wrap16(Wrap16(a) - Wrap16(b)) == Wrap16(a - b)
  {
    assert (a % TWO16 - b % TWO16) % TWO16 == (a - b) % TWO16 by {
      var qa, qb := a / TWO16, b / TWO16;
      assert a == qa * TWO16 + a % TWO16 && b == qb * TWO16 + b % TWO16;
      assert a - b == (qa - qb) * TWO16 + (a % TWO16 - b % TWO16);
      ModShift(a % TWO16 - b % TWO16, qa - qb);
    }
  }

  lemma {:induction false} ModShift(x: int, k: int)
    ensures (k * TWO16 + x) % TWO16 == x % TWO16
    decreases if k < 0 then -k else k
  {
    if k > 0 {
      ModShift(x, k - 1);
      assert k * TWO16 + x == ((k - 1) * TWO16 + x) + TWO16;
    } else if k < 0 {
      ModShift(x, k + 1);
      assert k * TWO16 + x == ((k + 1) * TWO16 + x) - TWO16;
    }
  }

  lemma {:induction false} WrapAdd(a: int, b: int)
    ensures Wrap16(Wrap16(a) + b) == Wrap16(a + b)
  {
    var qa := a / TWO16;
    assert a + b == qa * TWO16 + (a % TWO16 + b);
    ModShift(a % TWO16 + b, qa);
  }

  /** Indices of counts less than 2^16 apart agree only if the counts do. */
  lemma {:induction false} WrapInjective(a: int, b: int)
    requires a <= b < a + TWO16
    ensures Wrap16(a) == Wrap16(b) <==> a == b
  {
    if Wrap16(a) == Wrap16(b) {
      WrapDiff(b, a);
      assert Wrap16(b - a) == b - a;
    }
  }

  /** The newest count below `new` whose index is `event`. */
  lemma {:induction false} NewestBelow(event: u16, new_: nat)
    ensures Wrap16(new_ - 1 - Wrap16(Wrap16(new_) - event - 1)) == event
  {
    var x := Wrap16(new_) - event - 1;
    var k := new_ / TWO16 + x / TWO16;
    assert new_ == (new_ / TWO16) * TWO16 + Wrap16(new_);
    assert x == (x / TWO16) * TWO16 + Wrap16(x);
    assert new_ - 1 - Wrap16(x) == k * TWO16 + event;
    ModShift(event, k);
  }

  /** The event test is exact on counts: for a step of fewer than 2^16 from `old` to `new`,
      it fires if and only if a count with the index `event` lies in [old, new). */
  lemma {:induction false} NeedEventExact(event: u16, new_: nat, old_: nat)
    requires old_ <= new_ < old_ + TWO16
    ensures NeedEvent(event, Wrap16(new_), Wrap16(old_)) <==> exists c: int :: old_ <= c < new_ && Wrap16(c) == event
  {
    WrapDiff(new_, old_);
    assert Wrap16(new_ - old_) == new_ - old_;
    NewestBelow(event, new_);
    var c := new_ - 1 - Wrap16(Wrap16(new_) - event - 1);
    if e: int :| old_ <= e < new_ && Wrap16(e) == event {
      SameIndexNewest(c, e, new_);
    }
  }

  lemma {:induction false} SameIndexNewest(c: int, e: int, new_: int)
    requires new_ - TWO16 <= c < new_ && new_ - TWO16 <= e < new_ && Wrap16(c) == Wrap16(e)
    ensures c == e
  {
    if c <= e { WrapInjective(c, e); } else { WrapInjective(e, c); }
  }

  // ------------------------------------------------------------------ masks

  function Pow2(k: nat): (r: nat)
    ensures r >= 1
  {
    if k == 0 then 1 else 2 * Pow2(k - 1)
  }

  /** Bitwise and of two unsigned numbers. */
  function And(x: nat, y: nat): nat {
    if x == 0 || y == 0 then 0 else (if x % 2 == 1 && y % 2 == 1 then 1 else 0) + 2 * And(x / 2, y / 2)
  }

  lemma {:induction false} HalfMod(x: nat, m: nat)
    requires m > 0
    ensures x % (2 * m) == x % 2 + 2 * ((x / 2) % m)
  {
    var h := x / 2;
    var q, r := h / m, h % m;
    assert h == q * m + r;
    assert x == q * (2 * m) + (x % 2 + 2 * r) by {
      assert x == 2 * h + x % 2;
      assert 2 * (q * m) == q * (2 * m);
    }
    ModOf(x, q, 2 * m, x % 2 + 2 * r);
  }

  /** Quotient and remainder are unique. */
  lemma {:induction false} ModOf(x: nat, q: nat, m: nat, r: nat)
    requires m > 0 && r < m && x == q * m + r
    ensures x % m == r && x / m == q
  {
    var q', r' := x / m, x % m;
    assert x == q' * m + r';
    if q' < q { AtLeast(q', q, m); }
    if q < q' { AtLeast(q, q', m); }
  }

  lemma {:induction false} AtLeast(a: nat, b: nat, m: nat)
    requires a < b
    ensures a * m + m <= b * m
  {
    assert b * m == a * m + (b - a) * m;
    assert (b - a) * m >= 1 * m by { MulMono(1, b - a, m); }
  }

  lemma {:induction false} MulMono(a: nat, b: nat, m: nat)
    requires a <= b
    ensures a * m <= b * m
  {}

  lemma {:induction false} AndOdd(x: nat, z: nat)
    ensures And(x, 2 * z + 1) == x % 2 + 2 * And(x / 2, z)
  {
    assert (2 * z + 1) % 2 == 1 && (2 * z + 1) / 2 == z;
  }

  /** Masking with a power of two minus one is the remainder. */
  lemma {:induction false} MaskIsMod(x: nat, k: nat)
    ensures And(x, Pow2(k) - 1) == x % Pow2(k)
  {
    if k > 0 {
      var z := Pow2(k - 1) - 1;
      assert Pow2(k) - 1 == 2 * z + 1;
      AndOdd(x, z);
      MaskIsMod(x / 2, k - 1);
      HalfMod(x, Pow2(k - 1));
    }
  }

  /** A larger power of two does not disturb the remainder by a smaller one. */
  lemma {:induction false} ModMod(x: nat, k: nat, j: nat)
    ensures (x % Pow2(k + j)) % Pow2(k) == x % Pow2(k)
  {
    if k > 0 {
      HalfMod(x, Pow2(k + j - 1));
      var y := x % Pow2(k + j);
      assert y % 2 == x % 2 && y / 2 == (x / 2) % Pow2(k + j - 1);
      HalfMod(y, Pow2(k - 1));
      HalfMod(x, Pow2(k - 1));
      ModMod(x / 2, k - 1, j);
    }
  }

  lemma {:induction false} Divide(x: nat, m: nat) returns (q: nat, r: nat)
    requires m > 0
    ensures x == q * m + r && r < m && x % m == r
  {
    q, r := x / m, x % m;
  }

  lemma {:induction false} ModDistinct(i: nat, j: nat, m: nat)
    requires i < j < i + m
    ensures i % m != j % m
  {
    var q, r := Divide(i, m);
    var q', r' := Divide(j, m);
    if q < q' { AtLeast(q, q', m); }
    if q' < q { AtLeast(q', q, m); }
  }
}
