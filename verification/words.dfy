/** Fixed-width words and the two bitwise operations of the machine. */
module Words {
  type u8 = x: int | 0 <= x < 0x100
  type u16 = x: int | 0 <= x < 0x1_0000
  type u18 = x: int | 0 <= x < 0x4_0000
  type u32 = x: int | 0 <= x < 0x1_0000_0000

  datatype Option<+T> = None | Some(value: T)

  /** Reading a 16-bit pattern as a two's complement number: the cast `(s16)`. */
  function Signed(x: u16): (r: int)
    ensures -0x8000 <= r < 0x8000 && r % 0x1_0000 == x
  {
    if x < 0x8000 then x else x - 0x1_0000
  }

  function And(a: nat, b: nat): (r: nat)
    ensures r <= a && r <= b
  {
    if a == 0 || b == 0 then 0 else 2 * And(a / 2, b / 2) + (if a % 2 == 1 && b % 2 == 1 then 1 else 0)
  }

  function Or(a: nat, b: nat): (r: nat)
    ensures a <= r && b <= r <= a + b
  {
    if a == 0 && b == 0 then 0 else 2 * Or(a / 2, b / 2) + (if a % 2 == 1 || b % 2 == 1 then 1 else 0)
  }

  function Pow2(k: nat): (r: nat)
    ensures r > 0
  {
    if k == 0 then 1 else 2 * Pow2(k - 1)
  }

  ghost predicate Bit(a: nat, i: nat) {
    if i == 0 then a % 2 == 1 else Bit(a / 2, i - 1)
  }

  /** And and Or really are the bitwise operations. */
  lemma {:induction false} BitwiseMeaning(a: nat, b: nat, i: nat)
    ensures Bit(And(a, b), i) <==> Bit(a, i) && Bit(b, i)
    ensures Bit(Or(a, b), i) <==> Bit(a, i) || Bit(b, i)
    decreases i
  {
    Halves(a, b);
    hide And, Or;
    if i > 0 {
      BitwiseMeaning(a / 2, b / 2, i - 1);
    }
  }

  lemma Halves(a: nat, b: nat)
    ensures And(a, b) / 2 == And(a / 2, b / 2) && (And(a, b) % 2 == 1 <==> a % 2 == 1 && b % 2 == 1)
    ensures Or(a, b) / 2 == Or(a / 2, b / 2) && (Or(a, b) % 2 == 1 <==> a % 2 == 1 || b % 2 == 1)
  {
    assert And(0, b / 2) == And(a / 2, 0) == 0;
  }

  lemma {:induction false} OrBound(k: nat, a: nat, b: nat)
    requires a < Pow2(k) && b < Pow2(k)
    ensures Or(a, b) < Pow2(k)
  {
    if k > 0 {
      OrBound(k - 1, a / 2, b / 2);
    }
  }

  lemma Pow2Values()
    ensures Pow2(1) == 2 && Pow2(5) == 0x20 && Pow2(10) == 0x400 && Pow2(11) == 0x800 && Pow2(12) == 0x1000
    ensures Pow2(15) == 0x8000 && Pow2(16) == 0x1_0000 && Pow2(32) == 0x1_0000_0000
  {
    assert Pow2(4) == 16;
    assert Pow2(8) == 256;
    assert Pow2(12) == 4096;
    assert Pow2(20) == 0x10_0000;
    assert Pow2(26) == 0x400_0000;
  }

  function And16(a: u16, b: u16): u16 { And(a, b) }

  function Add16(a: u16, b: u16): u16 { (a as int + b as int) % 0x1_0000 }

  function Or16(a: u16, b: u16): u16 {
    Pow2Values();
    OrBound(16, a, b);
    Or(a, b)
  }

  lemma {:induction false} AndPow2(k: nat, a: nat)
    ensures And(a, Pow2(k)) == if a / Pow2(k) % 2 == 1 then Pow2(k) else 0
  {
    if k > 0 && a > 0 {
      var p := Pow2(k - 1);
      AndPow2(k - 1, a / 2);
      HalfDiv(a, p);
      assert And(a, 2 * p) == 2 * And(a / 2, p);
    } else if a == 0 {
      assert 0 / Pow2(k) == 0;
    }
  }

  lemma HalfDiv(a: nat, p: nat)
    requires p > 0
    ensures a / (2 * p) == a / 2 / p
  {
    var h := a / 2;
    var q, r := h / p, h % p;
    assert h == q * p + r;
    assert q * (2 * p) == 2 * (q * p);
    QuotientUnique(a, 2 * p, q, 2 * r + a % 2);
  }

  lemma QuotientUnique(a: nat, d: nat, q: nat, r: nat)
    requires d > 0 && a == q * d + r && r < d
    ensures a / d == q && a % d == r
  {
    var q', r' := a / d, a % d;
    assert q' * d + r' == a;
    if q' < q {
      RowsDiffer(q', q, d);
    }
    if q < q' {
      RowsDiffer(q, q', d);
    }
  }

  lemma RowsDiffer(q: nat, q': nat, d: nat)
    requires q < q'
    ensures q * d + d <= q' * d
  {
    var x: nat := q' - q - 1;
    assert q' * d == q * d + d + x * d;
  }

  /** Testing the busy bit: `x & 0x8000`. */
  lemma AndBusy(x: u16)
    ensures And16(x, 0x8000) == if x >= 0x8000 then 0x8000 else 0
  {
    Pow2Values();
    AndPow2(15, x);
  }

  lemma {:induction false} OrDisjoint(k: nat, hi: nat, lo: nat)
    requires lo < Pow2(k)
    ensures Or(hi * Pow2(k), lo) == hi * Pow2(k) + lo
  {
    if k == 0 {
      OrZero(hi);
    } else {
      var p := Pow2(k - 1);
      var a := hi * Pow2(k);
      assert a == 2 * (hi * p);
      OrDisjoint(k - 1, hi, lo / 2);
    }
  }

  lemma {:induction false} OrZero(a: nat)
    ensures Or(a, 0) == a && Or(0, a) == a
  {
    if a > 0 { OrZero(a / 2); }
  }

  lemma {:induction false} OrCommutes(a: nat, b: nat)
    ensures Or(a, b) == Or(b, a)
    decreases a + b
  {
    if a > 0 || b > 0 { OrCommutes(a / 2, b / 2); }
  }

  lemma {:induction false} AndOnes(k: nat, a: nat)
    requires a < Pow2(k)
    ensures And(Pow2(k) - 1, a) == a
  {
    if k > 0 && a > 0 {
      AndOnes(k - 1, a / 2);
      assert (Pow2(k) - 1) / 2 == Pow2(k - 1) - 1;
    }
  }

  lemma {:induction false} AndCommutes(a: nat, b: nat)
    ensures And(a, b) == And(b, a)
  {
    if a > 0 && b > 0 { AndCommutes(a / 2, b / 2); }
  }

  lemma TwiceProduct(a: nat, p: nat)
    ensures a * (2 * p) == 2 * (a * p) >= 0
  {
  }

  lemma {:induction false} AndShift(k: nat, hi: nat, lo: nat, m: nat)
    requires lo < Pow2(k)
    ensures And(hi * Pow2(k) + lo, m * Pow2(k)) == And(hi, m) * Pow2(k)
  {
    hide And;
    if k > 0 {
      var p := Pow2(k - 1);
      assert Pow2(k) == 2 * p;
      hide Pow2;
      TwiceProduct(hi, p);
      TwiceProduct(m, p);
      TwiceProduct(And(hi, m), p);
      AndShift(k - 1, hi, lo / 2, m);
      AndEven(2 * (hi * p) + lo, m * p);
      assert (2 * (hi * p) + lo) / 2 == hi * p + lo / 2;
    }
  }

  lemma AndEven(a: nat, b: nat)
    ensures And(a, 2 * b) == 2 * And(a / 2, b)
  {
    if a == 0 || b == 0 {
      assert And(0, b) == And(a / 2, 0) == And(a, 0) == 0;
    } else {
      var d := 2 * b;
      assert d / 2 == b && d % 2 == 0;
      assert And(a, d) == 2 * And(a / 2, d / 2);
    }
  }

  /** Keeping the upper four bits of a word and filling in the others. */
  lemma UpperNibble(x: u16, low: u16)
    requires low < 0x1000
    ensures Or16(And16(x, 0xf000), low) == x / 0x1000 * 0x1000 + low
  {
    hide And, Or;
    Pow2Values();
    assert Pow2(4) == 16;
    hide Pow2;
    AndShift(12, x / 0x1000, x % 0x1000, 15);
    AndCommutes(x / 0x1000, 15);
    AndOnes(4, x / 0x1000);
    OrDisjoint(12, x / 0x1000, low);
  }

  // ---- the machine's words, bit by bit -------------------------------------

  /** A bit is the digit of its power of two, and the sixteen lowest bits are all
      there is of a word: equal bits make equal words. */
  lemma {:induction false} BitIsDigit(a: nat, i: nat)
    ensures Bit(a, i) <==> a / Pow2(i) % 2 == 1
    decreases i
  {
    if i > 0 {
      BitIsDigit(a / 2, i - 1);
      HalfDiv(a, Pow2(i - 1));
    }
  }

  lemma {:induction false} BitsDetermine(n: nat, a: nat, b: nat)
    requires a < Pow2(n) && b < Pow2(n)
    requires forall i | 0 <= i < n :: Bit(a, i) <==> Bit(b, i)
    ensures a == b
    decreases n
  {
    if n > 0 {
      forall i | 0 <= i < n - 1 ensures Bit(a / 2, i) <==> Bit(b / 2, i) {
        assert Bit(a, i + 1) <==> Bit(b, i + 1);
      }
      BitsDetermine(n - 1, a / 2, b / 2);
      assert Bit(a, 0) <==> Bit(b, 0);
    }
  }

  /** What AND, OR and ADD leave in a 16-bit register. */
  lemma RegisterArithmetic(a: u16, b: u16)
    ensures forall i: nat :: Bit(And16(a, b), i) <==> Bit(a, i) && Bit(b, i)
    ensures forall i: nat :: Bit(Or16(a, b), i) <==> Bit(a, i) || Bit(b, i)
    ensures Add16(a, b) == if a as int + b as int < 0x1_0000 then a as int + b as int else a as int + b as int - 0x1_0000
  {
    hide And, Or, Bit;
    forall i: nat
      ensures Bit(And16(a, b), i) <==> Bit(a, i) && Bit(b, i)
      ensures Bit(Or16(a, b), i) <==> Bit(a, i) || Bit(b, i)
    {
      BitwiseMeaning(a, b, i);
    }
  }

  lemma {:induction false} NoBits(i: nat)
    ensures !Bit(0, i)
    decreases i
  {
    if i > 0 { NoBits(i - 1); }
  }

  /** Every bit of (old & mask) | val. */
  lemma MaskedBits(before: u16, val: u16, mask: u16)
    ensures forall i: nat :: Bit(Or16(And16(before, mask), val), i) <==> Bit(val, i) || (Bit(before, i) && Bit(mask, i))
    ensures mask == 0 ==> forall i: nat :: Bit(val, i) <==> Bit(val, i) || (Bit(before, i) && Bit(mask, i))
  {
    hide And16, Or16, Bit;
    forall i: nat ensures !Bit(0, i) {
      NoBits(i);
    }
    RegisterArithmetic(before, mask);
    RegisterArithmetic(And16(before, mask), val);
  }
}
