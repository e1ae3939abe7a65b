/** Bytes as eight bits, with the bitwise operations of the wire format. */
module FujiBits {

  datatype Byte = Byte(b7: bool, b6: bool, b5: bool, b4: bool, b3: bool, b2: bool, b1: bool, b0: bool)

  /** A byte whose top bit is clear: what a temperature field can hold. */
  type SevenBit = b: Byte | !b.b7 witness ZERO

  const I := true
  const O := false

  const ZERO: Byte := Byte(O, O, O, O, O, O, O, O)

  function And(x: Byte, y: Byte): Byte {
    Byte(x.b7 && y.b7, x.b6 && y.b6, x.b5 && y.b5, x.b4 && y.b4,
         x.b3 && y.b3, x.b2 && y.b2, x.b1 && y.b1, x.b0 && y.b0)
  }

  function Or(x: Byte, y: Byte): Byte {
    Byte(x.b7 || y.b7, x.b6 || y.b6, x.b5 || y.b5, x.b4 || y.b4,
         x.b3 || y.b3, x.b2 || y.b2, x.b1 || y.b1, x.b0 || y.b0)
  }

  function Not(x: Byte): Byte {
    Byte(!x.b7, !x.b6, !x.b5, !x.b4, !x.b3, !x.b2, !x.b1, !x.b0)
  }

  function Shl1(x: Byte): Byte {
    Byte(x.b6, x.b5, x.b4, x.b3, x.b2, x.b1, x.b0, O)
  }

  function Shl2(x: Byte): Byte {
    Byte(x.b5, x.b4, x.b3, x.b2, x.b1, x.b0, O, O)
  }

  function Shl4(x: Byte): Byte {
    Byte(x.b3, x.b2, x.b1, x.b0, O, O, O, O)
  }

  function Shl7(x: Byte): Byte {
    Byte(x.b0, O, O, O, O, O, O, O)
  }

  function Shr1(x: Byte): Byte {
    Byte(O, x.b7, x.b6, x.b5, x.b4, x.b3, x.b2, x.b1)
  }

  function Shr4(x: Byte): Byte {
    Byte(O, O, O, O, x.b7, x.b6, x.b5, x.b4)
  }

  /** A boolean cast to a byte. */
  function Bit(b: bool): Byte {
    Byte(O, O, O, O, O, O, O, b)
  }

  function Digit(b: bool): (d: int) {
    if b then 1 else 0
  }

  /** The value of a byte. */
  function ToInt(x: Byte): (n: int)
    ensures 0 <= n < 256
    ensures n < 128 <==> !x.b7
  {
    128 * Digit(x.b7) + 64 * Digit(x.b6) + 32 * Digit(x.b5) + 16 * Digit(x.b4)
    + 8 * Digit(x.b3) + 4 * Digit(x.b2) + 2 * Digit(x.b1) + Digit(x.b0)
  }

  lemma Multiple(z: int, d: int)
    requires d > 0
    ensures z >= 1 ==> z * d >= d
    ensures z <= -1 ==> z * d <= -d
  {
    if z >= 1 {
      assert (z - 1) * d >= 0;
    } else if z <= -1 {
      assert (-1 - z) * d >= 0;
    }
  }

  lemma Quotient(n: int, q: int, d: int, r: int)
    requires d > 0 && n == q * d + r && 0 <= r < d
    ensures n / d == q && n % d == r
  {
    assert (n / d - q) * d == r - n % d;
    Multiple(n / d - q, d);
  }

  /** A field of a number: `hi` above it and `lo` below. */
  lemma Field(n: int, hi: int, field: int, lo: int, d: int, m: int)
    requires d > 0 && m > 0 && n == (hi * m + field) * d + lo && 0 <= lo < d && 0 <= field < m
    ensures n / d % m == field
  {
    Quotient(n, hi * m + field, d, lo);
    Quotient(hi * m + field, hi, m, field);
  }

  lemma LowDigits(n: int, q4: int, d3: int, d2: int, d1: int, d0: int)
    requires n == 16 * q4 + 8 * d3 + 4 * d2 + 2 * d1 + d0
    requires IsBit(d3) && IsBit(d2) && IsBit(d1) && IsBit(d0)
    ensures n % 2 == d0 && n / 2 % 2 == d1 && n / 4 % 2 == d2 && n / 8 % 2 == d3
    ensures n / 2 % 8 == 4 * d3 + 2 * d2 + d1
    ensures n / 16 == q4
  {
    Quotient(n, 8 * q4 + 4 * d3 + 2 * d2 + d1, 2, d0);
    Field(n, 4 * q4 + 2 * d3 + d2, d1, d0, 2, 2);
    Field(n, 2 * q4 + d3, d2, 2 * d1 + d0, 4, 2);
    Field(n, q4, d3, 4 * d2 + 2 * d1 + d0, 8, 2);
    Field(n, q4, 4 * d3 + 2 * d2 + d1, d0, 2, 8);
    Quotient(n, q4, 16, 8 * d3 + 4 * d2 + 2 * d1 + d0);
  }

  lemma HighDigits(n: int, d7: int, d6: int, d5: int, d4: int, low: int)
    requires n == 128 * d7 + 64 * d6 + 32 * d5 + 16 * d4 + low && 0 <= low < 16
    requires IsBit(d7) && IsBit(d6) && IsBit(d5) && IsBit(d4)
    ensures n / 16 % 4 == 2 * d5 + d4 && n / 16 % 8 == 4 * d6 + 2 * d5 + d4 && n / 32 % 2 == d5
  {
    Field(n, 2 * d7 + d6, 2 * d5 + d4, low, 16, 4);
    Field(n, d7, 4 * d6 + 2 * d5 + d4, low, 16, 8);
    Field(n, 2 * d7 + d6, d5, 16 * d4 + low, 32, 2);
  }

  /** The fields of the wire format, read off the value of their byte. */
  lemma LowFields(x: Byte)
    ensures ToInt(x) % 2 == Digit(x.b0)
    ensures ToInt(x) / 2 % 2 == Digit(x.b1)
    ensures ToInt(x) / 2 % 8 == 4 * Digit(x.b3) + 2 * Digit(x.b2) + Digit(x.b1)
    ensures ToInt(x) / 4 % 2 == Digit(x.b2)
    ensures ToInt(x) / 8 % 2 == Digit(x.b3)
    ensures ToInt(x) / 16 == 8 * Digit(x.b7) + 4 * Digit(x.b6) + 2 * Digit(x.b5) + Digit(x.b4)
  {
    LowDigits(ToInt(x), 8 * Digit(x.b7) + 4 * Digit(x.b6) + 2 * Digit(x.b5) + Digit(x.b4),
              Digit(x.b3), Digit(x.b2), Digit(x.b1), Digit(x.b0));
  }

  lemma HighFields(x: Byte)
    ensures ToInt(x) / 16 % 4 == 2 * Digit(x.b5) + Digit(x.b4)
    ensures ToInt(x) / 16 % 8 == 4 * Digit(x.b6) + 2 * Digit(x.b5) + Digit(x.b4)
    ensures ToInt(x) / 32 % 2 == Digit(x.b5)
  {
    HighDigits(ToInt(x), Digit(x.b7), Digit(x.b6), Digit(x.b5), Digit(x.b4),
               8 * Digit(x.b3) + 4 * Digit(x.b2) + 2 * Digit(x.b1) + Digit(x.b0));
  }

  lemma LowSeven(x: Byte)
    ensures ToInt(x) % 128 == ToInt(x.(b7 := O))
  {
    Quotient(ToInt(x), Digit(x.b7), 128, ToInt(x.(b7 := O)));
  }

  /** Narrowing an integer to a byte keeps its low eight bits, also of a negative one. */
  function Narrow(n: int): Byte {
    var n1 := n / 2;
    var n2 := n1 / 2;
    var n3 := n2 / 2;
    var n4 := n3 / 2;
    var n5 := n4 / 2;
    var n6 := n5 / 2;
    var n7 := n6 / 2;
    Byte(n7 % 2 == 1, n6 % 2 == 1, n5 % 2 == 1, n4 % 2 == 1, n3 % 2 == 1, n2 % 2 == 1, n1 % 2 == 1, n % 2 == 1)
  }

  predicate IsBit(d: int) {
    d == 0 || d == 1
  }

  lemma ValueOfBits(d7: int, d6: int, d5: int, d4: int, d3: int, d2: int, d1: int, d0: int)
    requires IsBit(d7) && IsBit(d6) && IsBit(d5) && IsBit(d4) && IsBit(d3) && IsBit(d2) && IsBit(d1) && IsBit(d0)
    ensures ToInt(Byte(d7 == 1, d6 == 1, d5 == 1, d4 == 1, d3 == 1, d2 == 1, d1 == 1, d0 == 1))
         == 128 * d7 + 64 * d6 + 32 * d5 + 16 * d4 + 8 * d3 + 4 * d2 + 2 * d1 + d0
  {
  }

  lemma Telescope(
      n: int, n1: int, n2: int, n3: int, n4: int, n5: int, n6: int, n7: int, n8: int,
      d0: int, d1: int, d2: int, d3: int, d4: int, d5: int, d6: int, d7: int)
    requires n == 2 * n1 + d0 && n1 == 2 * n2 + d1 && n2 == 2 * n3 + d2 && n3 == 2 * n4 + d3
    requires n4 == 2 * n5 + d4 && n5 == 2 * n6 + d5 && n6 == 2 * n7 + d6 && n7 == 2 * n8 + d7
    ensures n == 256 * n8 + (128 * d7 + 64 * d6 + 32 * d5 + 16 * d4 + 8 * d3 + 4 * d2 + 2 * d1 + d0)
  {
  }

  lemma RemainderIsUnique(n: int, q: int, r: int)
    requires n == 256 * q + r && 0 <= r < 256
    ensures n % 256 == r
  {
  }

  /** Narrowing reduces modulo 256. */
  lemma NarrowIsModulo(n: int)
    ensures ToInt(Narrow(n)) == n % 256
  {
    var n1 := n / 2;
    var n2 := n1 / 2;
    var n3 := n2 / 2;
    var n4 := n3 / 2;
    var n5 := n4 / 2;
    var n6 := n5 / 2;
    var n7 := n6 / 2;
    ValueOfBits(n7 % 2, n6 % 2, n5 % 2, n4 % 2, n3 % 2, n2 % 2, n1 % 2, n % 2);
    Telescope(n, n1, n2, n3, n4, n5, n6, n7, n7 / 2, n % 2, n1 % 2, n2 % 2, n3 % 2, n4 % 2, n5 % 2, n6 % 2, n7 % 2);
    RemainderIsUnique(n, n7 / 2, ToInt(Narrow(n)));
  }
}
