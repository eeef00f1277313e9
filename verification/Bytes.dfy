/** Octets, the character constants the parsers test for, and small helpers shared by every component. */
module Bytes {

  /** u_char: an unsigned octet; arithmetic on it is written out as integer arithmetic. */
  type byte = x: int | 0 <= x < 256

  const NUL: byte := 0
  const LF: byte := 10
  const CR: byte := 13
  const SPACE: byte := 32
  const HASH: byte := 35
  const DOLLAR: byte := 36
  const PERCENT: byte := 37
  const PLUS: byte := 43
  const MINUS: byte := 45
  const DOT: byte := 46
  const SLASH: byte := 47
  const ZERO: byte := 48
  const NINE: byte := 57
  const COLON: byte := 58
  const QUESTION: byte := 63
  const UPPER_A: byte := 65
  const UPPER_F: byte := 70
  const UPPER_Z: byte := 90
  const UNDERSCORE: byte := 95
  const LOWER_A: byte := 97
  const LOWER_F: byte := 102
  const LOWER_Z: byte := 122

  datatype Option<+T> = None | Some(value: T)

  /** The C expression `ch | 0x20`: sets bit five and leaves the others alone. */
  function OrBit5(ch: byte): (c: byte)
    ensures LOWER_A <= c <= LOWER_Z <==> UPPER_A <= ch <= UPPER_Z || LOWER_A <= ch <= LOWER_Z
    ensures LOWER_A <= ch <= LOWER_Z ==> c == ch
    ensures UPPER_A <= ch <= UPPER_Z ==> c == ch + 32
  {
    if (ch / 32) % 2 == 0 then ch + 32 else ch
  }

  predicate IsDigit(ch: byte) {
    ZERO <= ch <= NINE
  }

  const TWO64 := 0x1_0000_0000_0000_0000

  function Zeros(n: nat): (z: seq<byte>)
    ensures |z| == n && forall i | 0 <= i < n :: z[i] == 0
  {
    if n == 0 then [] else [0] + Zeros(n - 1)
  }

  lemma {:induction false} SubsetSize<T>(x: set<T>, y: set<T>)
    requires x <= y
    ensures |x| <= |y|
    decreases |x|
  {
    if x != {} {
      var e :| e in x;
      SubsetSize(x - {e}, y - {e});
    }
  }
}
