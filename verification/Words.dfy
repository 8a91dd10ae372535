/** 32-bit words as natural numbers, their bits, and the bitwise operations of
    section 3.2 of FIPS 180-4. */
module Words {
  const TWO_31 := 0x8000_0000
  const TWO_32 := 0x1_0000_0000

  type Word = x: nat | x < 0x1_0000_0000 witness 0
  type Byte = x: nat | x < 256 witness 0

  function Pow2(n: nat): (p: nat)
    ensures p > 0
  {
    if n == 0 then 1 else 2 * Pow2(n - 1)
  }

  lemma {:induction false} Pow2Add(m: nat, n: nat)
    ensures Pow2(m + n) == Pow2(m) * Pow2(n)
  {
    if m == 0 {
    } else {
      Pow2Add(m - 1, n);
      assert Pow2(m + n) == 2 * (Pow2(m - 1) * Pow2(n));
    }
  }

  lemma Pow2At32()
    ensures Pow2(8) == 256 && Pow2(16) == 0x1_0000 && Pow2(32) == TWO_32
  {
    assert Pow2(4) == 16;
    Pow2Add(4, 4);
    Pow2Add(8, 8);
    Pow2Add(16, 16);
  }

  /** Bit i of x, counted from the least significant one. */
  predicate Bit(x: nat, i: nat) {
    if i == 0 then x % 2 == 1 else Bit(x / 2, i - 1)
  }

  datatype BoolOp = Conjunction | Disjunction | Exclusive {
    predicate On(a: bool, b: bool) {
      match this
      case Conjunction => a && b
      case Disjunction => a || b
      case Exclusive => a != b
    }
  }

  /** Applies a boolean operation bit by bit; it maps two zero bits to zero. */
  function Bitwise(op: BoolOp, x: nat, y: nat): nat
    decreases x + y
  {
    if x == 0 && y == 0 then 0
    else 2 * Bitwise(op, x / 2, y / 2) + (if op.On(x % 2 == 1, y % 2 == 1) then 1 else 0)
  }

  lemma {:induction false} BitwiseBound(n: nat, op: BoolOp, x: nat, y: nat)
    requires x < Pow2(n) && y < Pow2(n)
    ensures Bitwise(op, x, y) < Pow2(n)
    decreases n
  {
    if n > 0 && !(x == 0 && y == 0) {
      BitwiseBound(n - 1, op, x / 2, y / 2);
    }
  }

  function WordOp(op: BoolOp, x: Word, y: Word): Word {
    Pow2At32(); BitwiseBound(32, op, x, y); Bitwise(op, x, y)
  }

  function And(x: Word, y: Word): Word { WordOp(Conjunction, x, y) }

  function Or(x: Word, y: Word): Word { WordOp(Disjunction, x, y) }

  function Xor(x: Word, y: Word): Word { WordOp(Exclusive, x, y) }

  function Not(x: Word): Word { TWO_32 - 1 - x }

  function ShiftDown(x: nat, n: nat): nat { DivShrinks(x, n); x / Pow2(n) }

  /** SHR and the left shift that discards bits, section 3.2 of FIPS 180-4. */
  function Shr(x: Word, n: nat): Word { DivShrinks(x, n); ShiftDown(x, n) }

  function Shl(x: Word, n: nat): Word { (x * Pow2(n)) % TWO_32 }

  /** ROTR, section 3.2 of FIPS 180-4. */
  function Rotr(x: Word, n: nat): Word
    requires n <= 32
  {
    Or(Shr(x, n), Shl(x, 32 - n))
  }

  lemma DivShrinks(x: nat, n: nat)
    ensures 0 <= x / Pow2(n) <= x
  {
    QuotientBound(x, Pow2(n));
  }

  lemma QuotientBound(x: nat, p: nat)
    requires p > 0
    ensures 0 <= x / p <= x
  {
    var q, r := x / p, x % p;
    assert x == p * q + r;
    MulAtLeast(p, q);
  }

  lemma MulAtLeast(p: nat, q: nat)
    requires p > 0
    ensures p * q >= q
  {
    assert p * q == q + (p - 1) * q;
  }

  /** Every bitwise operation acts on each bit by itself. */
  lemma {:induction false} BitwiseBit(op: BoolOp, x: nat, y: nat, i: nat)
    ensures Bit(Bitwise(op, x, y), i) == op.On(Bit(x, i), Bit(y, i))
    decreases i
  {
    if x == 0 && y == 0 {
      ZeroBit(i);
    } else if i > 0 {
      BitwiseBit(op, x / 2, y / 2, i - 1);
    }
  }

  lemma {:induction false} ShrBit(x: nat, n: nat, i: nat)
    ensures Bit(ShiftDown(x, n), i) == Bit(x, n + i)
  {
    if n > 0 {
      ShrBit(x / 2, n - 1, i);
      DivDiv(x, Pow2(n - 1));
    }
  }

  lemma DivDiv(x: nat, p: nat)
    requires p > 0
    ensures x / (2 * p) == (x / 2) / p
  {
    var q := (x / 2) / p;
    var r := (x / 2) % p;
    assert x / 2 == p * q + r;
    var s := 2 * r + x % 2;
    assert x == (2 * p) * q + s by {
      assert x == 2 * (p * q + r) + x % 2;
      assert 2 * (p * q) == (2 * p) * q;
    }
    DivUnique(x, 2 * p, q, s);
  }

  lemma DivUnique(x: int, d: int, q: int, r: int)
    requires d > 0 && 0 <= r < d && x == d * q + r
    ensures x / d == q && x % d == r
  {
    var q', r' := x / d, x % d;
    assert x == d * q' + r' && 0 <= r' < d;
    assert d * (q - q') == r' - r;
    if q - q' >= 1 {
      MulAtLeast(q - q', d);
      assert false;
    } else if q' - q >= 1 {
      MulAtLeast(q' - q, d);
      assert false;
    }
  }

  lemma {:induction false} ShlBit(x: nat, n: nat, i: nat)
    ensures Bit(x * Pow2(n), i) == (n <= i && Bit(x, i - n))
  {
    if n > 0 {
      assert x * Pow2(n) == 2 * (x * Pow2(n - 1));
      if i > 0 {
        ShlBit(x, n - 1, i - 1);
      }
    }
  }

  lemma {:induction false} ModBit(x: nat, n: nat, i: nat)
    ensures Bit(x % Pow2(n), i) == (i < n && Bit(x, i))
  {
    if n == 0 {
      ZeroBit(i);
    } else {
      ModPow2Step(x, Pow2(n - 1));
      if i > 0 {
        ModBit(x / 2, n - 1, i - 1);
      }
    }
  }

  lemma ModPow2Step(x: nat, p: nat)
    requires p > 0
    ensures (x % (2 * p)) / 2 == (x / 2) % p
    ensures (x % (2 * p)) % 2 == x % 2
  {
    var q := (x / 2) / p;
    var r := (x / 2) % p;
    assert x / 2 == p * q + r;
    var s := 2 * r + x % 2;
    assert x == (2 * p) * q + s by {
      assert x == 2 * (p * q + r) + x % 2;
      assert 2 * (p * q) == (2 * p) * q;
    }
    DivUnique(x, 2 * p, q, s);
  }

  lemma {:induction false} ZeroBit(i: nat)
    ensures !Bit(0, i)
  {
    if i > 0 { ZeroBit(i - 1); }
  }

  lemma {:induction false} HighBit(x: nat, n: nat, i: nat)
    requires x < Pow2(n) && n <= i
    ensures !Bit(x, i)
  {
    if n == 0 {
      ZeroBit(i);
    } else {
      HighBit(x / 2, n - 1, i - 1);
    }
  }

  lemma {:induction false} NotBitN(n: nat, x: nat, i: nat)
    requires x < Pow2(n) && i < n
    ensures Bit(Pow2(n) - 1 - x, i) == !Bit(x, i)
  {
    var p := Pow2(n - 1);
    assert Pow2(n) == 2 * p;
    assert (2 * p - 1 - x) / 2 == p - 1 - x / 2;
    if i > 0 {
      NotBitN(n - 1, x / 2, i - 1);
    }
  }

  /** And, Or, Xor and Not are the bit-by-bit operations of section 3.2 of FIPS 180-4. */
  lemma OperationBits(x: Word, y: Word, i: nat)
    requires i < 32
    ensures Bit(And(x, y), i) == (Bit(x, i) && Bit(y, i))
    ensures Bit(Or(x, y), i) == (Bit(x, i) || Bit(y, i))
    ensures Bit(Xor(x, y), i) == (Bit(x, i) != Bit(y, i))
    ensures Bit(Not(x), i) == !Bit(x, i)
  {
    Pow2At32();
    BitwiseBit(Conjunction, x, y, i);
    BitwiseBit(Disjunction, x, y, i);
    BitwiseBit(Exclusive, x, y, i);
    NotBitN(32, x, i);
  }

  lemma WordBit(x: nat, i: nat)
    requires i < 32
    ensures Bit(x % TWO_32, i) == Bit(x, i)
  {
    var w: nat := 32;
    Pow2At32();
    ModBit(x, w, i);
  }

  lemma ShiftBits(x: Word, n: nat, i: nat)
    requires i < 32
    ensures Bit(Shr(x, n), i) == Bit(x, n + i)
    ensures Bit(Shl(x, n), i) == (n <= i && Bit(x, i - n))
  {
    ShrBit(x, n, i);
    assert Bit(Shl(x, n), i) == Bit(x * Pow2(n), i) by {
      WordBit(x * Pow2(n), i);
    }
    ShlBit(x, n, i);
  }

  lemma WordHighBit(x: Word, i: nat)
    requires 32 <= i
    ensures !Bit(x, i)
  {
    var w: nat := 32;
    Pow2At32();
    HighBit(x, w, i);
  }

  /** Rotation moves bit (i + n) mod 32 to place i. */
  lemma RotrBit(x: Word, n: nat, i: nat)
    requires 0 < n < 32 && i < 32
    ensures Bit(Rotr(x, n), i) == Bit(x, (i + n) % 32)
  {
    ShiftBits(x, n, i);
    ShiftBits(x, 32 - n, i);
    OperationBits(Shr(x, n), Shl(x, 32 - n), i);
    if i + n >= 32 {
      WordHighBit(x, i + n);
      assert (i + n) % 32 == i - (32 - n);
    } else {
      assert (i + n) % 32 == i + n;
    }
  }

  /** A word is determined by its 32 bits. */
  lemma {:induction false} BitsDetermine(n: nat, x: nat, y: nat)
    requires x < Pow2(n) && y < Pow2(n)
    requires forall i: nat :: i < n ==> Bit(x, i) == Bit(y, i)
    ensures x == y
  {
    if n > 0 {
      assert Bit(x, 0) == Bit(y, 0);
      forall i: nat | i < n - 1
        ensures Bit(x / 2, i) == Bit(y / 2, i)
      {
        assert Bit(x, i + 1) == Bit(y, i + 1);
      }
      BitsDetermine(n - 1, x / 2, y / 2);
    }
  }
}
