/** JavaScript numbers as used by integer code: doubles that hold integers, and
    the operators that reduce them to 32 bits (ECMAScript, sections 7.1.6 and 7.1.7). */
module JsNumbers {
  import opened Words

  /** The integers a double holds exactly, together with all their neighbours. */
  type JsInteger = x: int | -0x20_0000_0000_0000 < x < 0x20_0000_0000_0000 witness 0

  type Int32 = x: int | -0x8000_0000 <= x < 0x8000_0000 witness 0

  /** `+` on doubles. The precondition is what makes it integer addition: the sum needs no rounding. */
  function Plus(x: JsInteger, y: JsInteger): JsInteger
    requires -0x20_0000_0000_0000 < x + y < 0x20_0000_0000_0000
  {
    x + y
  }

  function ToUint32(x: int): Word { x % TWO_32 }

  function ToInt32(x: int): Int32 {
    var u := x % TWO_32;
    if u >= TWO_31 then u - TWO_32 else u
  }

  function BitAnd(x: JsInteger, y: JsInteger): Int32 { ToInt32(And(ToUint32(x), ToUint32(y))) }

  function BitOr(x: JsInteger, y: JsInteger): Int32 { ToInt32(Or(ToUint32(x), ToUint32(y))) }

  function BitXor(x: JsInteger, y: JsInteger): Int32 { ToInt32(Xor(ToUint32(x), ToUint32(y))) }

  function BitNot(x: JsInteger): Int32 { ToInt32(Not(ToUint32(x))) }

  /** `x << n`; the shift count is taken modulo 32. */
  function ShiftLeft(x: JsInteger, n: nat): Int32 { ToInt32(Shl(ToUint32(x), n % 32)) }

  /** `x >>> n`: the one shift whose result is unsigned. */
  function ShiftRightUnsigned(x: JsInteger, n: nat): Word { Shr(ToUint32(x), n % 32) }

  /** The signed and the unsigned reading of a number are the same 32 bits. */
  lemma SameBits(x: int)
    ensures ToUint32(ToInt32(x)) == ToUint32(x)
    ensures ToUint32(ToUint32(x)) == ToUint32(x)
  {
  }

  /** Reducing once, after an exact sum, is addition modulo 2^32. */
  lemma SumReduces(x: int, y: int)
    ensures ToUint32(x + y) == (ToUint32(x) + ToUint32(y)) % TWO_32
  {
  }

  /** The bitwise operators are the word operations on the 32 bits of their operands. */
  lemma OperatorWords(x: JsInteger, y: JsInteger)
    ensures ToUint32(BitAnd(x, y)) == And(ToUint32(x), ToUint32(y))
    ensures ToUint32(BitOr(x, y)) == Or(ToUint32(x), ToUint32(y))
    ensures ToUint32(BitXor(x, y)) == Xor(ToUint32(x), ToUint32(y))
    ensures ToUint32(BitNot(x)) == Not(ToUint32(x))
  {
    hide And, Or, Xor, Not, ToUint32, ToInt32;
    WordSurvives(And(ToUint32(x), ToUint32(y)));
    WordSurvives(Or(ToUint32(x), ToUint32(y)));
    WordSurvives(Xor(ToUint32(x), ToUint32(y)));
    WordSurvives(Not(ToUint32(x)));
  }

  lemma WordSurvives(w: Word)
    ensures ToUint32(w) == w
    ensures ToUint32(ToInt32(w)) == w
  {
  }
}
