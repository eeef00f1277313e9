/** MD5 in pieces (src/core/ngx_md5.c): any number of updates and a final block. */
module Md5 {
  import opened Bytes
  import opened Md5Functions
  import Md5Stream

  /** Four registers. */
  datatype Four<+T> = Four(a: T, b: T, c: T, d: T)

  type Chain = Four<Word>

  const INIT: Chain := Four(0x6745_2301, 0xefcd_ab89, 0x98ba_dcfe, 0x1032_5476)

  // ---------------------------------------------------------------- one block

  /** The basic functions as the code computes them. */
  function F(x: Word, y: Word, z: Word): Word { z ^ (x & (y ^ z)) }
  function G(x: Word, y: Word, z: Word): Word { y ^ (z & (x ^ y)) }
  function H(x: Word, y: Word, z: Word): Word { x ^ y ^ z }
  function I(x: Word, y: Word, z: Word): Word { y ^ (x | !z) }

  /** F and G as section 3.4 of RFC 1321 defines them. */
  function RfcF(x: Word, y: Word, z: Word): Word { (x & y) | (!x & z) }
  function RfcG(x: Word, y: Word, z: Word): Word { (x & z) | (y & !z) }

  lemma FAgrees(x: Word, y: Word, z: Word)
    ensures F(x, y, z) == RfcF(x, y, z)
  {
    OptimisedF(x, y, z);
  }

  lemma GAgrees(x: Word, y: Word, z: Word)
    ensures G(x, y, z) == RfcG(x, y, z)
  {
    OptimisedG(x, y, z);
  }

  lemma BasicAgrees(i: nat, x: Word, y: Word, z: Word)
    ensures Basic(i, x, y, z) == RfcBasic(i, x, y, z)
  {
    if i < 16 {
      FAgrees(x, y, z);
    } else if i < 32 {
      GAgrees(x, y, z);
    }
  }

  /** A step adds the k-th word of the block and the constant t and rotates by s. */
  datatype Op = Op(k: nat, t: Word, s: nat)

  const ROUND1: seq<Op> := [
    Op(0, 0xd76a_a478, 7), Op(1, 0xe8c7_b756, 12), Op(2, 0x2420_70db, 17), Op(3, 0xc1bd_ceee, 22),
    Op(4, 0xf57c_0faf, 7), Op(5, 0x4787_c62a, 12), Op(6, 0xa830_4613, 17), Op(7, 0xfd46_9501, 22),
    Op(8, 0x6980_98d8, 7), Op(9, 0x8b44_f7af, 12), Op(10, 0xffff_5bb1, 17), Op(11, 0x895c_d7be, 22),
    Op(12, 0x6b90_1122, 7), Op(13, 0xfd98_7193, 12), Op(14, 0xa679_438e, 17), Op(15, 0x49b4_0821, 22)
  ]

  const ROUND2: seq<Op> := [
    Op(1, 0xf61e_2562, 5), Op(6, 0xc040_b340, 9), Op(11, 0x265e_5a51, 14), Op(0, 0xe9b6_c7aa, 20),
    Op(5, 0xd62f_105d, 5), Op(10, 0x0244_1453, 9), Op(15, 0xd8a1_e681, 14), Op(4, 0xe7d3_fbc8, 20),
    Op(9, 0x21e1_cde6, 5), Op(14, 0xc337_07d6, 9), Op(3, 0xf4d5_0d87, 14), Op(8, 0x455a_14ed, 20),
    Op(13, 0xa9e3_e905, 5), Op(2, 0xfcef_a3f8, 9), Op(7, 0x676f_02d9, 14), Op(12, 0x8d2a_4c8a, 20)
  ]

  const ROUND3: seq<Op> := [
    Op(5, 0xfffa_3942, 4), Op(8, 0x8771_f681, 11), Op(11, 0x6d9d_6122, 16), Op(14, 0xfde5_380c, 23),
    Op(1, 0xa4be_ea44, 4), Op(4, 0x4bde_cfa9, 11), Op(7, 0xf6bb_4b60, 16), Op(10, 0xbebf_bc70, 23),
    Op(13, 0x289b_7ec6, 4), Op(0, 0xeaa1_27fa, 11), Op(3, 0xd4ef_3085, 16), Op(6, 0x0488_1d05, 23),
    Op(9, 0xd9d4_d039, 4), Op(12, 0xe6db_99e5, 11), Op(15, 0x1fa2_7cf8, 16), Op(2, 0xc4ac_5665, 23)
  ]

  const ROUND4: seq<Op> := [
    Op(0, 0xf429_2244, 6), Op(7, 0x432a_ff97, 10), Op(14, 0xab94_23a7, 15), Op(5, 0xfc93_a039, 21),
    Op(12, 0x655b_59c3, 6), Op(3, 0x8f0c_cc92, 10), Op(10, 0xffef_f47d, 15), Op(1, 0x8584_5dd1, 21),
    Op(8, 0x6fa8_7e4f, 6), Op(15, 0xfe2c_e6e0, 10), Op(6, 0xa301_4314, 15), Op(13, 0x4e08_11a1, 21),
    Op(4, 0xf753_7e82, 6), Op(11, 0xbd3a_f235, 10), Op(2, 0x2ad7_d2bb, 15), Op(9, 0xeb86_d391, 21)
  ]

  /** The i-th of the 64 steps. */
  function OpAt(i: nat): Op
    requires i < 64
  {
    if i < 16 then ROUND1[i] else if i < 32 then ROUND2[i - 16] else if i < 48 then ROUND3[i - 32] else ROUND4[i - 48]
  }

  /** The k-th word of a block, little-endian. */
  function Get(block: seq<byte>, k: nat): Word {
    if 4 * k + 3 < |block| then
      (block[4 * k] as Word) | ((block[4 * k + 1] as Word) << 8)
      | ((block[4 * k + 2] as Word) << 16) | ((block[4 * k + 3] as Word) << 24)
    else 0
  }

  function Rotated(x: Word, s: nat): Word
    requires s <= 32
  {
    (x << s) | (x >> (32 - s))
  }

  function Basic(i: nat, x: Word, y: Word, z: Word): Word {
    if i < 16 then F(x, y, z) else if i < 32 then G(x, y, z) else if i < 48 then H(x, y, z) else I(x, y, z)
  }

  function RfcBasic(i: nat, x: Word, y: Word, z: Word): Word {
    if i < 16 then RfcF(x, y, z) else if i < 32 then RfcG(x, y, z) else if i < 48 then H(x, y, z) else I(x, y, z)
  }

  /** b + ((a + f + X[k] + t) <<< s) */
  function Mixed(f: Word, a: Word, b: Word, op: Op, block: seq<byte>): Word {
    b + if op.s <= 32 then Rotated(a + f + Get(block, op.k) + op.t, op.s) else 0
  }

  function Stepped(f: Word, r: Chain, op: Op, block: seq<byte>): Chain {
    Four(r.d, Mixed(f, r.a, r.b, op, block), r.b, r.c)
  }

  /** The steps from the i-th on; the roles of the registers move on with every step. */
  function Steps<T>(step: (nat, Four<T>) -> Four<T>, r: Four<T>, i: nat): Four<T>
    decreases 64 - i
  {
    if i >= 64 then r else Steps(step, step(i, r), i + 1)
  }

  function CodeStep(i: nat, r: Chain, block: seq<byte>): Chain {
    if i < 64 then Stepped(Basic(i, r.b, r.c, r.d), r, OpAt(i), block) else r
  }

  // Section 3.4 of RFC 1321, in its own terms: the word and the rotation of a step are given by its number, and the
  // registers keep their names.

  function RfcWord(i: nat): nat {
    if i < 16 then i else if i < 32 then (5 * i + 1) % 16 else if i < 48 then (3 * i + 5) % 16 else 7 * i % 16
  }

  function RfcShift(i: nat): (s: nat)
    ensures s <= 32
  {
    var row := if i < 16 then [7, 12, 17, 22] else if i < 32 then [5, 9, 14, 20]
               else if i < 48 then [4, 11, 16, 23] else [6, 10, 15, 21];
    row[i % 4]
  }

  /** The registers that play a, b, c and d in the steps of a group of four: [ABCD], [DABC], [CDAB] and [BCDA]. */
  function InRoles<T>(r: Four<T>, m: nat): Four<T> {
    if m == 0 then r
    else if m == 1 then Four(r.d, r.a, r.b, r.c)
    else if m == 2 then Four(r.c, r.d, r.a, r.b)
    else Four(r.b, r.c, r.d, r.a)
  }

  /** The register that plays a is set. */
  function Put<T>(r: Four<T>, m: nat, x: T): Four<T> {
    if m == 0 then r.(a := x) else if m == 1 then r.(d := x) else if m == 2 then r.(c := x) else r.(b := x)
  }

  /** The steps from the i-th on, given what each of them adds up. */
  function RfcSteps<T>(step: (nat, Four<T>) -> T, r: Four<T>, i: nat): Four<T>
    decreases 64 - i
  {
    if i >= 64 then r else RfcSteps(step, Put(r, i % 4, step(i, InRoles(r, i % 4))), i + 1)
  }

  /** a = b + ((a + f(b, c, d) + X[k] + T[i]) <<< s) */
  function RfcStep(i: nat, q: Chain, block: seq<byte>): Word {
    if i < 64 then Mixed(RfcBasic(i, q.b, q.c, q.d), q.a, q.b, Op(RfcWord(i), OpAt(i).t, RfcShift(i)), block) else 0
  }

  function Plus(x: Chain, y: Chain): Chain {
    Four(x.a + y.a, x.b + y.b, x.c + y.c, x.d + y.d)
  }

  /** One turn of the loop of ngx_md5_body. */
  function Compress(h: Chain, block: seq<byte>): Chain {
    Plus(h, Steps((i, r) => CodeStep(i, r, block), h, 0))
  }

  /** The transformation of section 3.4 of RFC 1321. */
  function RfcCompress(h: Chain, block: seq<byte>): Chain {
    Plus(h, RfcSteps((i, q) => RfcStep(i, q, block), h, 0))
  }

  /** The table lists the word and the rotation of the RFC. */
  predicate AgreesAt(i: nat)
    requires i < 64
  {
    OpAt(i).k == RfcWord(i) && OpAt(i).s == RfcShift(i)
  }

  lemma RoundAgrees1(i: nat)
    requires 0 <= i < 16
    ensures AgreesAt(i)
  {
    assert AgreesAt(0) && AgreesAt(1) && AgreesAt(2) && AgreesAt(3) && AgreesAt(4) && AgreesAt(5) && AgreesAt(6) && AgreesAt(7);
    assert AgreesAt(8) && AgreesAt(9) && AgreesAt(10) && AgreesAt(11) && AgreesAt(12) && AgreesAt(13) && AgreesAt(14) && AgreesAt(15);
  }

  lemma RoundAgrees2(i: nat)
    requires 16 <= i < 32
    ensures AgreesAt(i)
  {
    assert AgreesAt(16) && AgreesAt(17) && AgreesAt(18) && AgreesAt(19) && AgreesAt(20) && AgreesAt(21) && AgreesAt(22) && AgreesAt(23);
    assert AgreesAt(24) && AgreesAt(25) && AgreesAt(26) && AgreesAt(27) && AgreesAt(28) && AgreesAt(29) && AgreesAt(30) && AgreesAt(31);
  }

  lemma RoundAgrees3(i: nat)
    requires 32 <= i < 48
    ensures AgreesAt(i)
  {
    assert AgreesAt(32) && AgreesAt(33) && AgreesAt(34) && AgreesAt(35) && AgreesAt(36) && AgreesAt(37) && AgreesAt(38) && AgreesAt(39);
    assert AgreesAt(40) && AgreesAt(41) && AgreesAt(42) && AgreesAt(43) && AgreesAt(44) && AgreesAt(45) && AgreesAt(46) && AgreesAt(47);
  }

  lemma RoundAgrees4(i: nat)
    requires 48 <= i < 64
    ensures AgreesAt(i)
  {
    assert AgreesAt(48) && AgreesAt(49) && AgreesAt(50) && AgreesAt(51) && AgreesAt(52) && AgreesAt(53) && AgreesAt(54) && AgreesAt(55);
    assert AgreesAt(56) && AgreesAt(57) && AgreesAt(58) && AgreesAt(59) && AgreesAt(60) && AgreesAt(61) && AgreesAt(62) && AgreesAt(63);
  }

  lemma TableAgrees(i: nat)
    requires i < 64
    ensures AgreesAt(i)
  {
    if i < 16 {
      RoundAgrees1(i);
    } else if i < 32 {
      RoundAgrees2(i);
    } else if i < 48 {
      RoundAgrees3(i);
    } else {
      RoundAgrees4(i);
    }
  }

  lemma StepAgrees(i: nat, q: Chain, block: seq<byte>)
    requires i < 64
    ensures CodeStep(i, q, block) == Four(q.d, RfcStep(i, q, block), q.b, q.c)
  {
    TableAgrees(i);
    BasicAgrees(i, q.b, q.c, q.d);
  }

  /** The registers the macro is given move on as the roles do. */
  lemma RolesMove<T>(r: Four<T>, m: nat, x: T)
    requires m < 4
    ensures var q := InRoles(r, m); Four(q.d, x, q.b, q.c) == InRoles(Put(r, m, x), if m == 3 then 0 else m + 1)
  {
  }

  /** Moving the registers on and moving the roles on is the same. */
  lemma {:induction false} StepsAgree<T>(code: (nat, Four<T>) -> Four<T>, rfc: (nat, Four<T>) -> T, r: Four<T>, i: nat)
    requires i <= 64
    requires forall k: nat, q | k < 64 :: code(k, q) == Four(q.d, rfc(k, q), q.b, q.c)
    ensures Steps(code, InRoles(r, i % 4), i) == RfcSteps(rfc, r, i)
    decreases 64 - i
  {
    if i < 64 {
      var q := InRoles(r, i % 4);
      RolesMove(r, i % 4, rfc(i, q));
      StepsAgree(code, rfc, Put(r, i % 4, rfc(i, q)), i + 1);
    }
  }

  /** The table and the optimised functions of the code compute the transformation of the RFC. */
  lemma CompressAgrees(h: Chain, block: seq<byte>)
    ensures Compress(h, block) == RfcCompress(h, block)
  {
    forall k: nat, q: Chain | k < 64
      ensures CodeStep(k, q, block) == Four(q.d, RfcStep(k, q, block), q.b, q.c)
    {
      StepAgrees(k, q, block);
    }
    StepsAgree((i, r) => CodeStep(i, r, block), (i, q) => RfcStep(i, q, block), h, 0);
  }

  // ---------------------------------------------------------------- whole messages

  lemma {:induction false} FoldAgrees(h: Chain, text: seq<byte>)
    ensures Md5Stream.Fold(Compress, h, text) == Md5Stream.Fold(RfcCompress, h, text)
    decreases |text|
  {
    if |text| >= Md5Stream.BLOCK {
      var block := text[..Md5Stream.BLOCK];
      CompressAgrees(h, block);
      FoldAgrees(Compress(h, block), text[Md5Stream.BLOCK..]);
    }
  }

  // ---------------------------------------------------------------- the result

  /** The lowest octet of a word. */
  function LowOctet(x: Word): bv8 {
    (x & 0xff) as bv8
  }

  /** The word whose octets these are, the lowest first. */
  function WordOf(p: bv8, q: bv8, r: bv8, s: bv8): Word {
    (p as Word) | ((q as Word) << 8) | ((r as Word) << 16) | ((s as Word) << 24)
  }

  /** Section 3.5 of RFC 1321: the registers that these sixteen octets give. */
  function Registers(r: seq<bv8>): Chain
    requires |r| == 16
  {
    Four(WordOf(r[0], r[1], r[2], r[3]), WordOf(r[4], r[5], r[6], r[7]),
         WordOf(r[8], r[9], r[10], r[11]), WordOf(r[12], r[13], r[14], r[15]))
  }

  lemma OctetsMakeWord(x: Word)
    ensures WordOf(LowOctet(x), LowOctet(x >> 8), LowOctet(x >> 16), LowOctet(x >> 24)) == x
  {
  }

  lemma WordHasOctets(p: bv8, q: bv8, r: bv8, s: bv8)
    ensures var x := WordOf(p, q, r, s);
      LowOctet(x) == p && LowOctet(x >> 8) == q && LowOctet(x >> 16) == r && LowOctet(x >> 24) == s
  {
  }

  /** There is one result for each state of the registers. */
  lemma ResultIsUnique(r: seq<bv8>, q: seq<bv8>)
    requires |r| == |q| == 16 && Registers(r) == Registers(q)
    ensures r == q
  {
    WordHasOctets(r[0], r[1], r[2], r[3]);
    WordHasOctets(r[4], r[5], r[6], r[7]);
    WordHasOctets(r[8], r[9], r[10], r[11]);
    WordHasOctets(r[12], r[13], r[14], r[15]);
    WordHasOctets(q[0], q[1], q[2], q[3]);
    WordHasOctets(q[4], q[5], q[6], q[7]);
    WordHasOctets(q[8], q[9], q[10], q[11]);
    WordHasOctets(q[12], q[13], q[14], q[15]);
  }

  /** The end of ngx_md5_final */
  method Store(h: Chain, result: array<bv8>)
    requires result.Length == 16
    modifies result
    ensures Registers(result[..]) == h
  {
    StoreWord(h.a, result, 0);
    StoreWord(h.b, result, 4);
    StoreWord(h.c, result, 8);
    StoreWord(h.d, result, 12);
  }

  method StoreWord(x: Word, result: array<bv8>, at: nat)
    requires at + 4 <= result.Length
    modifies result
    ensures WordOf(result[at], result[at + 1], result[at + 2], result[at + 3]) == x
    ensures forall k | 0 <= k < result.Length && !(at <= k < at + 4) :: result[k] == old(result[k])
  {
    OctetsMakeWord(x);
    result[at] := LowOctet(x);
    result[at + 1] := LowOctet(x >> 8);
    result[at + 2] := LowOctet(x >> 16);
    result[at + 3] := LowOctet(x >> 24);
  }

  /** The MD5 of a message given in pieces is that of RFC 1321: its transformation over the blocks of the padded
    * message, and the octets of the registers in its order. */
  method Sum(pieces: seq<seq<byte>>, result: array<bv8>)
    requires result.Length == 16
    modifies result
    ensures Registers(result[..]) == Md5Stream.Fold(RfcCompress, INIT, Md5Stream.Pad(Md5Stream.Joined(pieces)))
  {
    var h := Md5Stream.Digest(Compress, INIT, pieces);
    FoldAgrees(INIT, Md5Stream.Pad(Md5Stream.Joined(pieces)));
    Store(h, result);
  }
}
