/** Feeding a message to MD5 in pieces (src/core/ngx_md5.c).
  *
  * The compression function is a parameter here: what is proved is which 64-byte blocks it is given, in which order.
  */
module Md5Stream {
  import opened Bytes

  type Text = seq<byte>

  const BLOCK := 64

  // ---------------------------------------------------------------- the message as blocks

  /** The blocks of a text, one after the other; a last incomplete one is left out. */
  function Fold<H>(step: (H, Text) -> H, h: H, text: Text): H
    decreases |text|
  {
    if |text| < BLOCK then h else Fold(step, step(h, text[..BLOCK]), text[BLOCK..])
  }

  /** n bytes of a number, the lowest first. */
  function LittleEndian(x: nat, n: nat): (r: Text)
    ensures |r| == n
    decreases n, x
  {
    if n == 0 then [] else [x % 256] + LittleEndian(x / 256, n - 1)
  }

  /** How many zero bytes make the length congruent to 56, modulo 64. */
  function Gap(used: nat): (n: nat)
    requires used < BLOCK
    ensures (used + 1 + n + 8) % BLOCK == 0 && n < BLOCK
  {
    if used < 56 then 55 - used else 119 - used
  }

  /** Sections 3.1 and 3.2 of RFC 1321: a one bit, zero bits, and the length in bits, modulo 2^64. */
  function Pad(m: Text): Text {
    m + [0x80] + Zeros(Gap(|m| % BLOCK)) + LittleEndian(8 * |m| % TWO64, 8)
  }

  lemma PadIsWhole(m: Text)
    ensures |Pad(m)| % BLOCK == 0
  {
    var used, k := |m| % BLOCK, |m| / BLOCK;
    BlockAdded(BLOCK * k, used + 1 + Gap(used) + 8);
  }

  lemma {:induction false} FoldAppend<H>(step: (H, Text) -> H, h: H, a: Text, b: Text)
    requires |a| % BLOCK == 0
    ensures Fold(step, h, a + b) == Fold(step, Fold(step, h, a), b)
    decreases |a|
  {
    if |a| == 0 {
      assert a + b == b;
    } else {
      assert |a| >= BLOCK;
      assert (a + b)[..BLOCK] == a[..BLOCK] && (a + b)[BLOCK..] == a[BLOCK..] + b;
      FoldAppend(step, step(h, a[..BLOCK]), a[BLOCK..], b);
    }
  }

  lemma FoldOne<H>(step: (H, Text) -> H, h: H, block: Text)
    requires |block| == BLOCK
    ensures Fold(step, h, block) == step(h, block)
  {
    assert block[..BLOCK] == block && block[BLOCK..] == [];
  }

  // ---------------------------------------------------------------- the context

  /** The whole blocks of a message have been compressed, the rest is at the start of the buffer. */
  ghost predicate Stands<H(!new)>(step: (H, Text) -> H, init: H, h: H, bytes: nat, buffer: Text, whole: Text, rest: Text) {
    && |buffer| == BLOCK && |whole| % BLOCK == 0 && |rest| < BLOCK && bytes == (|whole| + |rest|) % TWO64
    && h == Fold(step, init, whole) && buffer[..|rest|] == rest
  }

  /** The low six bits of the byte count say how much of the buffer is used. */
  lemma UsedIs(whole: nat, rest: nat)
    requires whole % BLOCK == 0 && rest < BLOCK
    ensures (whole + rest) % TWO64 % BLOCK == rest
  {
    var n := whole + rest;
    var q, k := n / TWO64, whole / BLOCK;
    assert n % TWO64 == BLOCK * (k - q * (TWO64 / BLOCK)) + rest;
  }

  lemma CountWraps(n: nat, size: nat)
    ensures (n % TWO64 + size) % TWO64 == (n + size) % TWO64
  {
    var q, r := n / TWO64, n % TWO64;
    assert n + size == q * TWO64 + (r + size);
    ModShift(q, r + size);
  }

  lemma ModShift(q: nat, r: nat)
    ensures (q * TWO64 + r) % TWO64 == r % TWO64
  {
    var k := r / TWO64;
    assert q * TWO64 + r == (q + k) * TWO64 + r % TWO64;
  }

  lemma BitsWrap(n: nat)
    ensures n % TWO64 * 8 % TWO64 == 8 * n % TWO64
  {
    var q, r := n / TWO64, n % TWO64;
    assert 8 * n == 8 * q * TWO64 + 8 * r;
    ModShift(8 * q, 8 * r);
  }

  lemma BlockAdded(whole: nat, n: nat)
    requires whole % BLOCK == 0 && n % BLOCK == 0
    ensures (whole + n) % BLOCK == 0
  {
  }

  /** A block from the buffer. */
  lemma BufferCompressed<H>(step: (H, Text) -> H, init: H, h: H, whole: Text, block: Text)
    requires h == Fold(step, init, whole) && |whole| % BLOCK == 0 && |block| == BLOCK
    ensures step(h, block) == Fold(step, init, whole + block) && |whole + block| % BLOCK == 0
  {
    FoldAppend(step, init, whole, block);
    FoldOne(step, h, block);
    BlockAdded(|whole|, |block|);
  }

  // ---------------------------------------------------------------- the code

  /** ngx_memcpy into the buffer */
  method Copy(buffer: array<byte>, at: nat, data: Text)
    requires at + |data| <= buffer.Length
    modifies buffer
    ensures buffer[..] == old(buffer[..at]) + data + old(buffer[at + |data|..])
  {
    var i := 0;
    while i < |data|
      invariant 0 <= i <= |data|
      invariant buffer[..] == old(buffer[..at]) + data[..i] + old(buffer[at + i..])
    {
      buffer[at + i] := data[i];
      i := i + 1;
    }
    assert data[..i] == data;
  }

  /** ngx_md5_body, over one or more whole blocks */
  method Body<H>(step: (H, Text) -> H, h: H, data: Text) returns (r: H)
    requires |data| % BLOCK == 0 && |data| > 0
    ensures r == Fold(step, h, data)
  {
    r := h;
    var p, size := 0, |data|;
    while true
      invariant 0 <= p < |data| && p + size == |data| && size % BLOCK == 0
      invariant Fold(step, r, data[p..]) == Fold(step, h, data)
      decreases size
    {
      assert data[p..][..BLOCK] == data[p..p + BLOCK] && data[p..][BLOCK..] == data[p + BLOCK..];
      r := step(r, data[p..p + BLOCK]);
      p := p + BLOCK;
      size := size - BLOCK;
      if size == 0 {
        break;
      }
    }
  }

  class Context<H(!new)> {
    const step: (H, Text) -> H
    const init: H
    var h: H
    var bytes: nat
    const buffer: array<byte>
    ghost var whole: Text
    ghost var rest: Text

    /** ngx_md5_init */
    constructor (step: (H, Text) -> H, init: H)
      ensures Valid() && fresh(buffer) && Message() == [] && this.step == step && this.init == init
    {
      this.step, this.init, this.h, this.bytes := step, init, init, 0;
      this.buffer := new byte[BLOCK](i => 0);
      this.whole, this.rest := [], [];
    }

    ghost predicate Valid()
      reads this, buffer
    {
      buffer.Length == BLOCK && Stands(step, init, h, bytes, buffer[..], whole, rest)
    }

    /** Everything given to Update so far. */
    ghost function Message(): Text
      reads this
    {
      whole + rest
    }

    /** A whole block in the buffer is compressed. */
    method CompressBuffer(ghost block: Text)
      requires buffer.Length == BLOCK && buffer[..] == block && |whole| % BLOCK == 0 && h == Fold(step, init, whole)
      modifies this
      ensures |whole| % BLOCK == 0 && h == Fold(step, init, whole)
      ensures whole == old(whole) + block && rest == [] && bytes == old(bytes)
    {
      BufferCompressed(step, init, h, whole, block);
      FoldOne(step, h, block);
      h := Body(step, h, buffer[..]);
      whole, rest := whole + block, [];
    }

    /** ngx_md5_update */
    method Update(data: Text)
      requires Valid()
      modifies this, buffer
      ensures Valid() && Message() == old(Message()) + data
    {
      UsedIs(|whole|, |rest|);
      CountWraps(|whole| + |rest|, |data|);
      var used := bytes % BLOCK;
      bytes := (bytes + |data|) % TWO64;
      var left := data;
      if used > 0 {
        var free := BLOCK - used;
        if |data| < free {
          Copy(buffer, used, data);
          assert buffer[..used + |data|] == rest + data;
          rest := rest + data;
          assert whole + rest == old(whole + rest) + data;
          return;
        }
        left := CompleteBlock(data, used);
      } else {
        assert whole + left == whole + rest + data;
      }
      Absorb(left, data, old(whole + rest));
    }

    /** The start of the data completes the block in the buffer. */
    method CompleteBlock(data: Text, used: nat) returns (left: Text)
      requires buffer.Length == BLOCK && |whole| % BLOCK == 0 && h == Fold(step, init, whole)
      requires used == |rest| < BLOCK && buffer[..used] == rest && BLOCK <= used + |data|
      modifies this, buffer
      ensures |whole| % BLOCK == 0 && h == Fold(step, init, whole) && bytes == old(bytes)
      ensures whole + left == old(whole + rest) + data
    {
      var free := BLOCK - used;
      Copy(buffer, used, data[..free]);
      assert buffer[..] == rest + data[..free];
      left := data[free..];
      CompressBuffer(rest + data[..free]);
    }

    /** Whole blocks are compressed where they are, the rest is kept. */
    method Absorb(left: Text, ghost data: Text, ghost before: Text)
      requires buffer.Length == BLOCK && |whole| % BLOCK == 0 && h == Fold(step, init, whole)
      requires whole + left == before + data && bytes == |before + data| % TWO64
      modifies this, buffer
      ensures Valid() && Message() == before + data
    {
      var more := left;
      if |left| >= BLOCK {
        var n := |left| - |left| % BLOCK;
        FoldAppend(step, init, whole, left[..n]);
        h := Body(step, h, left[..n]);
        more := left[n..];
        BlockAdded(|whole|, n);
        assert whole + left == whole + left[..n] + more;
        whole := whole + left[..n];
      }
      Copy(buffer, 0, more);
      assert buffer[..|more|] == more;
      rest := more;
    }

    /** ngx_md5_final, up to the byte order of the result */
    method Final() returns (r: H)
      requires Valid()
      modifies this, buffer
      ensures r == Fold(step, init, Pad(old(Message())))
    {
      UsedIs(|whole|, |rest|);
      BitsWrap(|whole| + |rest|);
      var used := bytes % BLOCK;
      var bits := bytes * 8 % TWO64;
      PadSplit(whole, rest, bits);
      ghost var mark: Text := [0x80];
      Copy(buffer, used, [0x80]);
      used := used + 1;
      assert buffer[..used] == rest + mark;
      if BLOCK - used < 8 {
        Copy(buffer, used, Zeros(BLOCK - used));
        assert buffer[..] == rest + mark + Zeros(63 - |rest|);
        CompressBuffer(rest + mark + Zeros(63 - |rest|));
        r := LastBlock(0, bits, []);
        ghost var end: Text := LittleEndian(bits, 8);
        assert [] + Zeros(56) + end == Zeros(56) + end;
      } else {
        r := LastBlock(used, bits, rest + mark);
      }
    }

    /** Zeros and the length complete the last block. */
    method LastBlock(used: nat, bits: nat, ghost start: Text) returns (r: H)
      requires buffer.Length == BLOCK && |whole| % BLOCK == 0 && h == Fold(step, init, whole)
      requires used <= 56 && buffer[..used] == start
      modifies this, buffer
      ensures r == Fold(step, init, old(whole) + (start + Zeros(56 - used) + LittleEndian(bits, 8)))
    {
      Copy(buffer, used, Zeros(56 - used));
      assert buffer[..56] == start + Zeros(56 - used);
      Copy(buffer, 56, LittleEndian(bits, 8));
      assert buffer[..] == start + Zeros(56 - used) + LittleEndian(bits, 8);
      CompressBuffer(start + Zeros(56 - used) + LittleEndian(bits, 8));
      r := h;
    }
  }

  /** The padded message: the whole blocks, then one or two more. */
  lemma PadSplit(whole: Text, rest: Text, bits: nat)
    requires |whole| % BLOCK == 0 && |rest| < BLOCK && bits == 8 * (|whole| + |rest|) % TWO64
    ensures var end := LittleEndian(bits, 8);
      Pad(whole + rest) ==
        if |rest| < 56 then whole + (rest + [0x80] + Zeros(55 - |rest|) + end)
        else whole + (rest + [0x80] + Zeros(63 - |rest|)) + (Zeros(56) + end)
  {
    assert |whole + rest| % BLOCK == |rest|;
    if |rest| >= 56 {
      ZerosAppend(63 - |rest|, 56);
    }
  }

  lemma {:induction false} ZerosAppend(a: nat, b: nat)
    ensures Zeros(a + b) == Zeros(a) + Zeros(b)
    decreases a
  {
    if a > 0 {
      ZerosAppend(a - 1, b);
    }
  }

  /** Pieces of a message put together. */
  function Joined(pieces: seq<Text>): Text {
    if pieces == [] then [] else Joined(pieces[..|pieces| - 1]) + pieces[|pieces| - 1]
  }

  /** However a message is cut into updates, the compression function gets the blocks of the padded message. */
  method Digest<H(!new)>(step: (H, Text) -> H, init: H, pieces: seq<Text>) returns (r: H)
    ensures r == Fold(step, init, Pad(Joined(pieces)))
  {
    var c := new Context(step, init);
    var i := 0;
    while i < |pieces|
      invariant 0 <= i <= |pieces| && c.Valid() && fresh(c) && fresh(c.buffer) && c.step == step && c.init == init
      invariant c.Message() == Joined(pieces[..i])
    {
      c.Update(pieces[i]);
      assert pieces[..i + 1][..i] == pieces[..i];
      i := i + 1;
    }
    assert pieces[..i] == pieces;
    r := c.Final();
  }
}
