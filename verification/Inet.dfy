/** Textual internet addresses (src/core/ngx_inet.c): parsing and printing. */
module Inet {
  import opened Bytes

  type Text = seq<byte>

  /** INADDR_NONE, which doubles as the error value of ngx_inet_addr. */
  const NONE4 := 0xffff_ffff

  // ---------------------------------------------------------------- IPv4

  /** A 64-bit unsigned count of tens wraps around. */
  function TimesTen(octet: nat, digit: nat): nat {
    var x := octet * 10 + digit;
    if x < TWO64 then x else x % TWO64
  }

  /** ngx_inet_addr from some point on: the octets read so far, and the one being read. */
  function Inet4(t: Text, octets: seq<nat>, octet: nat): nat
    decreases |t|
  {
    if t == [] then (if |octets| == 3 && octet < 256 then Value4(octets + [octet]) else NONE4)
    else if IsDigit(t[0]) then Inet4(t[1..], octets, TimesTen(octet, t[0] - ZERO))
    else if t[0] == DOT && octet < 256 then Inet4(t[1..], octets + [octet], 0)
    else NONE4
  }

  /** The address as one number, for four octets. */
  function Value4(o: seq<nat>): nat {
    if |o| == 4 then o[0] * 0x100_0000 + o[1] * 0x1_0000 + o[2] * 0x100 + o[3] else 0
  }

  // ---------------------------------------------------------------- IPv6

  /** The parser's variables: bytes written, where `::` was, the text after the last colon, the word being read. */
  datatype State = State(out: Text, zero: Option<nat>, tail: Option<Text>, nibbles: nat, word: nat)

  function High(word: nat): byte {
    word / 256 % 256
  }

  function Low(word: nat): byte {
    word % 256
  }

  /** A hexadecimal digit, in either case. */
  function Nibble(c: byte): (r: Option<nat>)
    ensures r.Some? ==> r.value < 16
  {
    if IsDigit(c) then Some(c - ZERO)
    else if LOWER_A <= OrBit5(c) <= LOWER_F then Some(OrBit5(c) - LOWER_A + 10)
    else None
  }

  /** The last word is written, and the zeros that `::` stands for are put in. */
  function Finish(s: State): Option<Text> {
    if s.nibbles == 0 && s.zero == None then None
    else
      var out := s.out + [High(s.word), Low(s.word)];
      if |out| < 16 then
        (if s.zero.Some? && s.zero.value <= |out|
         then Some(out[..s.zero.value] + Zeros(16 - |out|) + out[s.zero.value..]) else None)
      else if s.zero == None then Some(out) else None
  }

  /** The parser on the rest of the text. */
  function Go(s: State, t: Text): Option<Text>
    decreases |t|
  {
    if t == [] then Finish(s)
    else if t[0] == COLON then
      if s.nibbles > 0 then
        var out := s.out + [High(s.word), Low(s.word)];
        if |out| == 16 then None else Go(State(out, s.zero, Some(t[1..]), 0, 0), t[1..])
      else if s.zero == None then Go(s.(zero := Some(|s.out|), tail := Some(t[1..])), t[1..])
      else None
    else if t[0] == DOT && s.nibbles > 0 then
      if |s.out| > 12 || s.tail == None then None
      else
        var v := Inet4(s.tail.value, [], 0);
        if v == NONE4 then None else Finish(s.(out := s.out + [High(v / 0x1_0000), Low(v / 0x1_0000)], word := v))
    else
      var d := Nibble(t[0]);
      if s.nibbles == 4 || d.None? then None
      else Go(s.(nibbles := s.nibbles + 1, word := s.word * 16 + d.value), t[1..])
  }

  const START := State([], None, None, 0, 0)

  /** ngx_inet6_addr */
  function Addr6(t: Text): Option<Text> {
    if t == [] then None else if t[0] == COLON then Go(START, t[1..]) else Go(START, t)
  }

  // ---------------------------------------------------------------- printing

  function HexDigit(d: nat): byte
    requires d < 16
  {
    if d < 10 then ZERO + d else LOWER_A + d - 10
  }

  /** %xi */
  function Hex(w: nat): (t: Text)
    ensures |t| >= 1
  {
    if w < 16 then [HexDigit(w)] else Hex(w / 16) + [HexDigit(w % 16)]
  }

  /** %ud */
  function Dec(n: nat): (t: Text)
    ensures |t| >= 1
  {
    if n < 10 then [ZERO + n] else Dec(n / 10) + [ZERO + n % 10]
  }

  function Word(a: Text, i: nat): (w: nat)
    requires 2 * i + 1 < |a|
    ensures w < 0x1_0000
  {
    var high: int := a[2 * i];
    high * 256 + a[2 * i + 1]
  }

  /** The run of zero words that `::` stands for; no run is length 1. */
  datatype Run = Run(start: nat, len: nat)

  /** The scan for the longest run: `best` so far, and a run of length n that ends before word i. */
  function Scan(a: Text, i: nat, best: Run, n: nat): Run
    requires |a| == 16 && i <= 8 && n <= i
    decreases 8 - i, |a|
  {
    if i == 8 then Better(best, i, n)
    else if Word(a, i) != 0 then Scan(a, i + 1, Better(best, i, n), 0)
    else Scan(a, i + 1, best, n + 1)
  }

  function Better(best: Run, i: nat, n: nat): Run
    requires n <= i
  {
    if best.len < n then Run(i - n, n) else best
  }

  const NO_RUN := Run(16, 1)

  function LongestRun(a: Text): Run
    requires |a| == 16
  {
    Scan(a, 0, NO_RUN, 0)
  }

  /** Whether the last two words are printed as an IPv4 address. */
  predicate Dotted(a: Text, r: Run)
    requires |a| == 16
  {
    r.start == 0 && ((r.len == 5 && a[10] == 255 && a[11] == 255) || r.len == 6 || (r.len == 7 && a[14] != 0 && a[15] != 1))
  }

  /** The words from i up to n. */
  function Emit(a: Text, r: Run, i: nat, n: nat): Text
    requires |a| == 16 && n <= 8 && r.len >= 1
    decreases 8 - i, |a|
  {
    if i >= n then []
    else if i == r.start then [COLON] + Emit(a, r, i + r.len, n)
    else Hex(Word(a, i)) + (if i < 7 then [COLON] else []) + Emit(a, r, i + 1, n)
  }

  function Quad(a: Text): Text
    requires |a| == 16
  {
    Dec(a[12]) + [DOT] + (Dec(a[13]) + [DOT] + (Dec(a[14]) + [DOT] + Dec(a[15])))
  }

  /** ngx_inet6_ntop */
  function Ntop(a: Text): Text
    requires |a| == 16
  {
    var r := LongestRun(a);
    ScanFinds(a, 0, NO_RUN, 0);
    (if r.start == 0 then [COLON] else [])
    + (if Dotted(a, r) then Emit(a, r, 0, 6) + Quad(a) else Emit(a, r, 0, 8))
  }

  /** A run is made of zero words, or there is none. */
  ghost predicate IsRun(a: Text, r: Run)
    requires |a| == 16
  {
    r == NO_RUN || (r.len >= 2 && r.start + r.len <= 8 && forall k | r.start <= k < r.start + r.len :: Word(a, k) == 0)
  }

  lemma {:induction false} ScanFinds(a: Text, i: nat, best: Run, n: nat)
    requires |a| == 16 && i <= 8 && n <= i && IsRun(a, best)
    requires forall k | i - n <= k < i :: Word(a, k) == 0
    ensures IsRun(a, Scan(a, i, best, n))
    decreases 8 - i
  {
    if i < 8 {
      if Word(a, i) != 0 {
        ScanFinds(a, i + 1, Better(best, i, n), 0);
      } else {
        ScanFinds(a, i + 1, best, n + 1);
      }
    }
  }

  // ---------------------------------------------------------------- reading what was printed

  lemma NibbleOfDigit(d: nat)
    requires d < 16
    ensures Nibble(HexDigit(d)) == Some(d) && HexDigit(d) != COLON && HexDigit(d) != DOT
  {
  }

  /** %xi writes as many digits as the value has. */
  lemma {:induction false} HexLength(w: nat, k: nat)
    requires k >= 1 && (k == 1 ==> w < 16) && (k == 2 ==> w < 0x100) && (k == 3 ==> w < 0x1000) && (k == 4 ==> w < 0x1_0000)
    requires k <= 4
    ensures |Hex(w)| <= k
    decreases k
  {
    if w >= 16 {
      HexLength(w / 16, k - 1);
    }
  }

  /** Reading a printed word. */
  lemma {:induction false} ReadHex(s: State, w: nat, rest: Text)
    requires s.nibbles == 0 && s.word == 0 && |Hex(w)| <= 4
    ensures Go(s, Hex(w) + rest) == Go(s.(nibbles := |Hex(w)|, word := w), rest)
    decreases w
  {
    if w < 16 {
      NibbleOfDigit(w);
      assert ([HexDigit(w)] + rest)[1..] == rest;
    } else {
      var d, front := HexDigit(w % 16), Hex(w / 16);
      assert Hex(w) + rest == front + ([d] + rest);
      ReadHex(s, w / 16, [d] + rest);
      NibbleOfDigit(w % 16);
      assert ([d] + rest)[1..] == rest;
    }
  }

  /** A colon after a word. */
  lemma ReadColon(s: State, rest: Text)
    requires s.nibbles > 0 && |s.out| + 2 < 16
    ensures Go(s, [COLON] + rest) == Go(State(s.out + [High(s.word), Low(s.word)], s.zero, Some(rest), 0, 0), rest)
  {
    assert ([COLON] + rest)[1..] == rest;
  }

  lemma ReadGap(s: State, rest: Text)
    requires s.nibbles == 0 && s.zero == None
    ensures Go(s, [COLON] + rest) == Go(s.(zero := Some(|s.out|), tail := Some(rest)), rest)
  {
    assert ([COLON] + rest)[1..] == rest;
  }

  lemma WordBytes(a: Text, i: nat)
    requires |a| == 16 && i < 8
    ensures [High(Word(a, i)), Low(Word(a, i))] == a[2 * i..2 * i + 2] && |Hex(Word(a, i))| <= 4
  {
    var hi: int, lo: int := a[2 * i], a[2 * i + 1];
    assert (hi * 256 + lo) / 256 == hi && (hi * 256 + lo) % 256 == lo;
    HexLength(Word(a, i), 4);
  }

  /** The words from i to j, each followed by a colon. */
  function Words(a: Text, i: nat, j: nat): Text
    requires |a| == 16 && j <= 7
    decreases j - i
  {
    if i >= j then [] else Hex(Word(a, i)) + ([COLON] + Words(a, i + 1, j))
  }

  /** Between words: nothing of the next one has been read. */
  ghost predicate Between(s: State) {
    s.nibbles == 0 && s.word == 0
  }

  lemma ReadWord(s: State, a: Text, i: nat, rest: Text)
    requires |a| == 16 && i < 8 && Between(s) && |s.out| + 2 < 16
    ensures Go(s, Hex(Word(a, i)) + ([COLON] + rest)) == Go(State(s.out + a[2 * i..2 * i + 2], s.zero, Some(rest), 0, 0), rest)
  {
    WordBytes(a, i);
    ReadHex(s, Word(a, i), [COLON] + rest);
    ReadColon(s.(nibbles := |Hex(Word(a, i))|, word := Word(a, i)), rest);
  }

  lemma SlicesJoin(out: Text, a: Text, i: nat, j: nat, k: nat)
    requires i <= j <= k <= |a|
    ensures (out + a[i..j]) + a[j..k] == out + a[i..k]
  {
  }

  lemma WordsRegroup(x: Text, y: Text, z: Text)
    ensures (x + ([COLON] + y)) + z == x + ([COLON] + (y + z))
  {
  }

  lemma {:induction false} ReadWords(s: State, a: Text, i: nat, j: nat, rest: Text)
    requires |a| == 16 && i <= j <= 7 && Between(s) && |s.out| + 2 * (j - i) < 16
    ensures Go(s, Words(a, i, j) + rest) ==
      Go(State(s.out + a[2 * i..2 * j], s.zero, if i == j then s.tail else Some(rest), 0, 0), rest)
    decreases j - i
  {
    if i == j {
      assert Words(a, i, j) + rest == rest && s.out + a[2 * i..2 * j] == s.out;
    } else {
      var more := Words(a, i + 1, j) + rest;
      WordsRegroup(Hex(Word(a, i)), Words(a, i + 1, j), rest);
      ReadWord(s, a, i, more);
      var s2 := State(s.out + a[2 * i..2 * i + 2], s.zero, Some(more), 0, 0);
      ReadWords(s2, a, i + 1, j, rest);
      SlicesJoin(s.out, a, 2 * i, 2 * i + 2, 2 * j);
      if i + 1 == j {
        assert Words(a, i + 1, j) == [];
        assert more == rest;
      }
    }
  }

  /** The last word ends the text. */
  lemma ReadLast(s: State, a: Text, i: nat)
    requires |a| == 16 && i < 8 && Between(s)
    ensures Go(s, Hex(Word(a, i))) == Finish(s.(nibbles := |Hex(Word(a, i))|, word := Word(a, i)))
  {
    WordBytes(a, i);
    ReadHex(s, Word(a, i), []);
    assert Hex(Word(a, i)) + [] == Hex(Word(a, i));
  }

  /** Words from i to the end of the address. */
  function Tail(a: Text, i: nat): Text
    requires |a| == 16
  {
    if i >= 8 then [] else Words(a, i, 7) + Hex(Word(a, 7))
  }

  lemma ReadTail(s: State, a: Text, i: nat)
    requires |a| == 16 && i < 8 && Between(s) && |s.out| + 2 * (8 - i) <= 16
    ensures Go(s, Tail(a, i)) == FinishWith(s.zero, s.out + a[2 * i..])
  {
    var last := Hex(Word(a, 7));
    ReadWords(s, a, i, 7, last);
    var s1 := State(s.out + a[2 * i..14], s.zero, if i == 7 then s.tail else Some(last), 0, 0);
    LastWordFinishes(s1, a);
    SlicesJoin(s.out, a, 2 * i, 14, 16);
    assert a[2 * i..16] == a[2 * i..];
  }

  lemma LastWordFinishes(s: State, a: Text)
    requires |a| == 16 && Between(s)
    ensures Go(s, Hex(Word(a, 7))) == FinishWith(s.zero, s.out + a[14..16])
  {
    ReadLast(s, a, 7);
    WordBytes(a, 7);
    FinishIs(s.(nibbles := |Hex(Word(a, 7))|, word := Word(a, 7)));
  }

  lemma FinishIs(s: State)
    requires s.nibbles > 0 || s.zero.Some?
    ensures Finish(s) == FinishWith(s.zero, s.out + [High(s.word), Low(s.word)])
  {
  }

  /** Putting in the zeros. */
  function FinishWith(zero: Option<nat>, out: Text): Option<Text> {
    if |out| < 16 then
      (if zero.Some? && zero.value <= |out| then Some(out[..zero.value] + Zeros(16 - |out|) + out[zero.value..]) else None)
    else if zero == None then Some(out) else None
  }

  /** The zeros that were left out are put back. */
  lemma GapIsRestored(a: Text, r: Run)
    requires |a| == 16 && IsRun(a, r) && r != NO_RUN
    ensures var out := a[..2 * r.start] + a[2 * (r.start + r.len)..];
      FinishWith(Some(2 * r.start), out) == Some(a)
  {
    var z, m := r.start, r.len;
    var out := a[..2 * z] + a[2 * (z + m)..];
    assert out[..2 * z] == a[..2 * z] && out[2 * z..] == a[2 * (z + m)..];
    GapIsZero(a, z, m);
    assert a == a[..2 * z] + a[2 * z..2 * (z + m)] + a[2 * (z + m)..];
  }

  lemma GapIsZero(a: Text, z: nat, m: nat)
    requires |a| == 16 && z + m <= 8 && forall k | z <= k < z + m :: Word(a, k) == 0
    ensures a[2 * z..2 * (z + m)] == Zeros(2 * m)
  {
    forall i | 2 * z <= i < 2 * (z + m)
      ensures a[i] == 0
    {
      assert Word(a, i / 2) == 0;
    }
  }

  // ---------------------------------------------------------------- dotted addresses

  lemma {:induction false} ReadDec(n: nat, octets: seq<nat>, rest: Text)
    requires n < 0x1_0000
    ensures Inet4(Dec(n) + rest, octets, 0) == Inet4(rest, octets, n)
    decreases n
  {
    if n < 10 {
      assert ([ZERO + n] + rest)[1..] == rest;
    } else {
      var d: byte := ZERO + n % 10;
      assert Dec(n) + rest == Dec(n / 10) + ([d] + rest);
      ReadDec(n / 10, octets, [d] + rest);
      assert ([d] + rest)[1..] == rest;
    }
  }

  lemma ReadOctet(n: byte, octets: seq<nat>, rest: Text)
    ensures Inet4(Dec(n) + [DOT] + rest, octets, 0) == Inet4(rest, octets + [n], 0)
  {
    assert Dec(n) + [DOT] + rest == Dec(n) + ([DOT] + rest);
    ReadDec(n, octets, [DOT] + rest);
    assert ([DOT] + rest)[1..] == rest;
  }

  /** A printed IPv4 address is read back. */
  lemma QuadIsRead(a: Text)
    requires |a| == 16
    ensures Inet4(Quad(a), [], 0) == Value4([a[12], a[13], a[14], a[15]])
  {
    var t3: Text := Dec(a[15]);
    var t2: Text := Dec(a[14]) + [DOT] + t3;
    var t1: Text := Dec(a[13]) + [DOT] + t2;
    var o0: seq<nat>, o1: seq<nat>, o2: seq<nat>, o3: seq<nat> := [], [a[12]], [a[12], a[13]], [a[12], a[13], a[14]];
    ReadOctet(a[12], o0, t1);
    ReadOctet(a[13], o1, t2);
    ReadOctet(a[14], o2, t3);
    ReadDec(a[15], o3, []);
    assert o0 + [a[12]] == o1 && o1 + [a[13]] == o2 && o2 + [a[14]] == o3;
    assert Quad(a) == Dec(a[12]) + [DOT] + t1 && t3 + [] == t3;
    assert Inet4([], o3, a[15]) == Value4(o3 + [a[15]]);
  }

  /** Decimal digits read as a hexadecimal word. */
  function DecAsHex(n: nat): nat {
    if n < 10 then n else DecAsHex(n / 10) * 16 + n % 10
  }

  lemma DecLength(n: byte)
    ensures |Dec(n)| <= 3
  {
    if n >= 10 {
      if n >= 100 {
        assert |Dec(n / 100)| == 1;
      }
      assert |Dec(n / 10)| <= 2;
    }
  }

  lemma {:induction false} ReadDecimals(s: State, n: nat, rest: Text)
    requires Between(s) && |Dec(n)| <= 4
    ensures Go(s, Dec(n) + rest) == Go(s.(nibbles := |Dec(n)|, word := DecAsHex(n)), rest)
    decreases n
  {
    if n < 10 {
      assert ([ZERO + n] + rest)[1..] == rest;
    } else {
      var d: byte := ZERO + n % 10;
      assert Dec(n) + rest == Dec(n / 10) + ([d] + rest);
      ReadDecimals(s, n / 10, [d] + rest);
      assert ([d] + rest)[1..] == rest;
    }
  }

  /** The bytes of an IPv4 address. */
  lemma Value4Bytes(a: Text, v: nat)
    requires |a| == 16 && v == Value4([a[12], a[13], a[14], a[15]])
    ensures [High(v / 0x1_0000), Low(v / 0x1_0000)] + [High(v), Low(v)] == a[12..16]
    ensures v == NONE4 <==> a[12] == a[13] == a[14] == a[15] == 255
  {
    var p: int, q: int, r: int, t: int := a[12], a[13], a[14], a[15];
    assert v == (p * 256 + q) * 0x1_0000 + (r * 256 + t);
    assert v / 0x1_0000 == p * 256 + q;
    assert v / 256 == (p * 256 + q) * 256 + r;
  }

  /** The dot of the first octet makes the parser read the text after the last colon as an IPv4 address. */
  lemma ReadQuad(s: State, a: Text)
    requires |a| == 16 && Between(s) && s.tail == Some(Quad(a)) && |s.out| <= 12
    ensures Go(s, Quad(a)) ==
      if a[12] == a[13] == a[14] == a[15] == 255 then None else FinishWith(s.zero, s.out + a[12..16])
  {
    var rest := Quad(a)[|Dec(a[12])| + 1..];
    DecLength(a[12]);
    assert Quad(a) == Dec(a[12]) + ([DOT] + rest);
    ReadDecimals(s, a[12], [DOT] + rest);
    var s1 := s.(nibbles := |Dec(a[12])|, word := DecAsHex(a[12]));
    QuadIsRead(a);
    var v := Value4([a[12], a[13], a[14], a[15]]);
    Value4Bytes(a, v);
    DotReads(s1, rest, v);
    var top := [High(v / 0x1_0000), Low(v / 0x1_0000)];
    assert (s.out + top) + [High(v), Low(v)] == s.out + a[12..16];
  }

  lemma DotReads(s: State, rest: Text, v: nat)
    requires s.nibbles > 0 && s.tail.Some? && v == Inet4(s.tail.value, [], 0) && |s.out| <= 12
    ensures Go(s, [DOT] + rest) ==
      if v == NONE4 then None
      else FinishWith(s.zero, (s.out + [High(v / 0x1_0000), Low(v / 0x1_0000)]) + [High(v), Low(v)])
  {
    FinishIs(s.(out := s.out + [High(v / 0x1_0000), Low(v / 0x1_0000)], word := v));
  }

  // ---------------------------------------------------------------- the round trip

  /** Past the run, or without one, the words up to the end are printed. */
  lemma {:induction false} EmitTail(a: Text, r: Run, i: nat)
    requires |a| == 16 && r.len >= 1 && (r.start < i || r.start >= 8)
    ensures Emit(a, r, i, 8) == Tail(a, i)
    decreases 8 - i
  {
    if i < 7 {
      EmitTail(a, r, i + 1);
      WordsRegroup(Hex(Word(a, i)), Words(a, i + 1, 7), Hex(Word(a, 7)));
      assert Hex(Word(a, i)) + [COLON] + Tail(a, i + 1) == Hex(Word(a, i)) + ([COLON] + Tail(a, i + 1));
    } else if i == 7 {
      EmitTail(a, r, 8);
      assert Words(a, 7, 7) == [];
    }
  }

  /** Up to the run, every word and a colon. */
  lemma {:induction false} EmitHead(a: Text, r: Run, i: nat)
    requires |a| == 16 && r.len >= 1 && i <= r.start < 7
    ensures Emit(a, r, i, 8) == Words(a, i, r.start) + ([COLON] + Emit(a, r, r.start + r.len, 8))
    decreases r.start - i
  {
    var gap := [COLON] + Emit(a, r, r.start + r.len, 8);
    if i < r.start {
      EmitHead(a, r, i + 1);
      WordsRegroup(Hex(Word(a, i)), Words(a, i + 1, r.start), gap);
      assert Hex(Word(a, i)) + [COLON] + Emit(a, r, i + 1, 8) == Hex(Word(a, i)) + ([COLON] + Emit(a, r, i + 1, 8));
    } else {
      assert Words(a, i, r.start) == [];
    }
  }

  /** Before a dotted end, the words between the run and it. */
  lemma {:induction false} EmitShort(a: Text, r: Run, i: nat)
    requires |a| == 16 && r.len >= 1 && r.start < i
    ensures Emit(a, r, i, 6) == Words(a, i, 6)
    decreases 8 - i
  {
    if i < 6 {
      EmitShort(a, r, i + 1);
      assert Hex(Word(a, i)) + [COLON] + Emit(a, r, i + 1, 6) == Hex(Word(a, i)) + ([COLON] + Emit(a, r, i + 1, 6));
    }
  }

  /** A printed word does not start with a colon. */
  lemma {:induction false} HexStarts(w: nat)
    ensures Hex(w)[0] != COLON
    decreases w
  {
    if w >= 16 {
      HexStarts(w / 16);
    } else {
      NibbleOfDigit(w);
    }
  }

  lemma RoundTripWithoutRun(a: Text)
    requires |a| == 16
    ensures Addr6(Tail(a, 0)) == Some(a)
  {
    HexStarts(Word(a, 0));
    assert Tail(a, 0)[0] == Words(a, 0, 7)[0] == Hex(Word(a, 0))[0];
    ReadTail(START, a, 0);
    assert START.out + a[0..] == a;
  }

  /** After the gap: the words behind it, or nothing. */
  lemma ReadAfterGap(s: State, a: Text, r: Run)
    requires |a| == 16 && IsRun(a, r) && r != NO_RUN && Between(s)
    requires s.out == a[..2 * r.start] && s.zero == Some(2 * r.start)
    ensures Go(s, Tail(a, r.start + r.len)) == Some(a)
  {
    var e := r.start + r.len;
    if e < 8 {
      ReadTail(s, a, e);
      GapIsRestored(a, r);
    } else {
      FinishIs(s);
      GapAtEnd(a, r);
    }
  }

  /** The word written at the end of the text is part of a gap at the end. */
  lemma GapAtEnd(a: Text, r: Run)
    requires |a| == 16 && IsRun(a, r) && r != NO_RUN && r.start + r.len == 8
    ensures FinishWith(Some(2 * r.start), a[..2 * r.start] + [0, 0]) == Some(a)
  {
    GapIsZero(a, r.start, r.len);
    var z := 2 * r.start;
    var none: Text := [0, 0];
    var out := a[..z] + none;
    assert out[..z] == a[..z] && out[z..] == none;
    assert Zeros(16 - |out|) + none == Zeros(2 * r.len);
    assert a == a[..z] + Zeros(2 * r.len);
    assert (a[..z] + Zeros(16 - |out|)) + none == a[..z] + (Zeros(16 - |out|) + none);
  }

  lemma RoundTripWithRun(a: Text, r: Run)
    requires |a| == 16 && IsRun(a, r) && r != NO_RUN
    ensures var t := Words(a, 0, r.start) + ([COLON] + Tail(a, r.start + r.len));
      Addr6((if r.start == 0 then [COLON] else []) + t) == Some(a)
  {
    var tail := Tail(a, r.start + r.len);
    var t := Words(a, 0, r.start) + ([COLON] + tail);
    ReadWords(START, a, 0, r.start, [COLON] + tail);
    var s := State(START.out + a[0..2 * r.start], None, if r.start == 0 then None else Some([COLON] + tail), 0, 0);
    assert START.out + a[0..2 * r.start] == a[..2 * r.start];
    ReadGap(s, tail);
    ReadAfterGap(s.(zero := Some(|s.out|), tail := Some(tail)), a, r);
    assert Go(START, t) == Some(a);
    if r.start == 0 {
      assert ([COLON] + t)[1..] == t;
    } else {
      HexStarts(Word(a, 0));
      assert [] + t == t && t[0] == Words(a, 0, r.start)[0];
    }
  }

  /** The two addresses whose IPv4 part is taken for an error. */
  ghost predicate Broadcast(a: Text)
    requires |a| == 16
  {
    && a[12] == a[13] == a[14] == a[15] == 255
    && (forall i | 0 <= i < 10 :: a[i] == 0) && ((a[10] == 0 && a[11] == 0) || (a[10] == 255 && a[11] == 255))
  }

  lemma RoundTripDotted(a: Text, r: Run)
    requires |a| == 16 && IsRun(a, r) && Dotted(a, r)
    ensures Addr6([COLON] + (([COLON] + Words(a, r.len, 6)) + Quad(a))) ==
      if a[12] == a[13] == a[14] == a[15] == 255 then None else Some(a)
  {
    if r.len > 6 {
      assert Words(a, r.len, 6) == Words(a, 6, 6);
      RoundTripFront(a, 6);
    } else {
      RoundTripFront(a, r.len);
    }
  }

  lemma RoundTripFront(a: Text, i: nat)
    requires |a| == 16 && 2 <= i <= 6 && IsRun(a, Run(0, i))
    ensures Addr6([COLON] + (([COLON] + Words(a, i, 6)) + Quad(a))) ==
      if a[12] == a[13] == a[14] == a[15] == 255 then None else Some(a)
  {
    var x, q := Words(a, i, 6), Quad(a);
    DoubleColon(x, q);
    ReadGap(START, x + q);
    ReadWordsAndQuad(START.(zero := Some(0), tail := Some(x + q)), a, i);
    FrontIsRestored(a, i);
  }

  lemma FrontIsRestored(a: Text, i: nat)
    requires |a| == 16 && 2 <= i <= 8 && IsRun(a, Run(0, i))
    ensures FinishWith(Some(0), a[2 * i..16]) == Some(a)
  {
    GapIsRestored(a, Run(0, i));
    assert a[..0] + a[2 * i..] == a[2 * i..16];
  }

  lemma DoubleColon(x: Text, y: Text)
    ensures ([COLON] + (([COLON] + x) + y))[1..] == [COLON] + (x + y)
  {
  }

  lemma ReadWordsAndQuad(s: State, a: Text, i: nat)
    requires |a| == 16 && i <= 6 && Between(s) && s.out == [] && s.tail == Some(Words(a, i, 6) + Quad(a))
    ensures Go(s, Words(a, i, 6) + Quad(a)) ==
      if a[12] == a[13] == a[14] == a[15] == 255 then None else FinishWith(s.zero, a[2 * i..16])
  {
    var q := Quad(a);
    ReadWords(s, a, i, 6, q);
    if i == 6 {
      assert Words(a, i, 6) + q == q;
    }
    ReadQuad(State(s.out + a[2 * i..12], s.zero, Some(q), 0, 0), a);
    SlicesJoin(s.out, a, 2 * i, 12, 16);
    assert s.out + a[2 * i..16] == a[2 * i..16];
  }

  lemma {:induction false} ScanZeros(a: Text, i: nat, best: Run, n: nat, k: nat)
    requires |a| == 16 && n <= i <= k <= 8 && forall j | i <= j < k :: Word(a, j) == 0
    ensures Scan(a, i, best, n) == Scan(a, k, best, n + k - i)
    decreases k - i
  {
    if i < k {
      ScanZeros(a, i + 1, best, n + 1, k);
    }
  }

  /** Exactly the two addresses are printed with a dotted end of ones. */
  lemma BroadcastIs(a: Text)
    requires |a| == 16
    ensures Broadcast(a) <==> Dotted(a, LongestRun(a)) && a[12] == a[13] == a[14] == a[15] == 255
  {
    var r := LongestRun(a);
    ScanFinds(a, 0, NO_RUN, 0);
    if Dotted(a, r) {
      GapIsZero(a, 0, r.len);
      assert forall i | 0 <= i < 2 * r.len :: a[i] == a[0..2 * r.len][i];
    }
    if Broadcast(a) {
      var k := if a[10] == 0 then 6 else 5;
      ScanZeros(a, 0, NO_RUN, 0, k);
      assert Word(a, 6) != 0 && Word(a, 7) != 0;
      assert Scan(a, 7, Run(0, k), 0) == Scan(a, 8, Run(0, k), 0) == Run(0, k);
      if k == 5 {
        assert Word(a, 5) != 0;
        assert Scan(a, 6, Run(0, 5), 0) == Scan(a, 7, Run(0, 5), 0);
      }
      assert r == Run(0, k);
    }
  }

  lemma PrintedWithoutRun(a: Text)
    requires |a| == 16 && LongestRun(a) == NO_RUN
    ensures Ntop(a) == Tail(a, 0)
  {
    EmitTail(a, NO_RUN, 0);
  }

  lemma PrintedDotted(a: Text, r: Run)
    requires |a| == 16 && r == LongestRun(a) && IsRun(a, r) && Dotted(a, r)
    ensures Ntop(a) == [COLON] + (([COLON] + Words(a, r.len, 6)) + Quad(a))
  {
    EmitShort(a, r, r.len);
    assert Emit(a, r, 0, 6) == [COLON] + Emit(a, r, r.len, 6);
  }

  lemma PrintedWithRun(a: Text, r: Run)
    requires |a| == 16 && r == LongestRun(a) && IsRun(a, r) && r != NO_RUN && !Dotted(a, r)
    ensures Ntop(a) ==
      (if r.start == 0 then [COLON] else []) + (Words(a, 0, r.start) + ([COLON] + Tail(a, r.start + r.len)))
  {
    EmitHead(a, r, 0);
    EmitTail(a, r, r.start + r.len);
  }

  /** ngx_inet6_addr reads back what ngx_inet6_ntop prints, for every address but two. */
  lemma RoundTrip(a: Text)
    requires |a| == 16
    ensures Addr6(Ntop(a)) == if Broadcast(a) then None else Some(a)
  {
    var r := LongestRun(a);
    BroadcastIs(a);
    ScanFinds(a, 0, NO_RUN, 0);
    if r == NO_RUN {
      PrintedWithoutRun(a);
      RoundTripWithoutRun(a);
    } else if Dotted(a, r) {
      PrintedDotted(a, r);
      RoundTripDotted(a, r);
    } else {
      PrintedWithRun(a, r);
      RoundTripWithRun(a, r);
    }
  }

  // ---------------------------------------------------------------- the code

  const TWO32 := 0x1_0000_0000

  /** The octets so far as the code accumulates them. */
  function Accumulated(o: seq<nat>): nat {
    if o == [] then 0 else Accumulated(o[..|o| - 1]) * 256 + o[|o| - 1]
  }

  lemma {:induction false} AccumulatedBound(o: seq<nat>)
    requires |o| <= 4 && forall i | 0 <= i < |o| :: o[i] < 256
    ensures |o| == 4 ==> Accumulated(o) == Value4(o)
    ensures |o| <= 1 ==> Accumulated(o) < 0x100
    ensures |o| == 2 ==> Accumulated(o) < 0x1_0000
    ensures |o| == 3 ==> Accumulated(o) < 0x100_0000
    ensures Accumulated(o) < TWO32
  {
    if |o| >= 1 {
      var o1 := o[..|o| - 1];
      assert |o1| >= 1 ==> o1[..|o1| - 1] == o[..|o| - 2];
      AccumulatedBound(o1);
      if |o| == 4 {
        assert o1[2] == o[2] && o[..2][1] == o[1] && o[..1][0] == o[0];
        assert Accumulated(o[..1]) == Accumulated(o[..1][..0]) * 256 + o[0];
        assert o[..2][..1] == o[..1];
      }
    }
  }

  /** ngx_inet_addr */
  method InetAddr(text: Text) returns (v: nat)
    ensures v == Inet4(text, [], 0)
  {
    var addr: nat, octet: nat, n: nat, p: nat := 0, 0, 0, 0;
    ghost var octets: seq<nat> := [];
    assert text[0..] == text;
    while p < |text|
      invariant 0 <= p <= |text| && n == |octets| && Inet4(text[p..], octets, octet) == Inet4(text, [], 0)
      invariant forall i | 0 <= i < |octets| :: octets[i] < 256
      invariant n <= 3 ==> addr == Accumulated(octets)
    {
      var c := text[p];
      assert text[p..][1..] == text[p + 1..];
      if IsDigit(c) {
        octet := TimesTen(octet, c - ZERO);
      } else if c == DOT && octet < 256 {
        if n < 3 {
          AccumulatedBound(octets + [octet]);
          assert (octets + [octet])[..n] == octets;
        }
        addr := (addr * 256 + octet) % TWO32;
        octets := octets + [octet];
        octet, n := 0, n + 1;
      } else {
        return NONE4;
      }
      p := p + 1;
    }
    if n != 3 {
      return NONE4;
    }
    if octet < 256 {
      AccumulatedBound(octets + [octet]);
      assert (octets + [octet])[..3] == octets;
      return (addr * 256 + octet) % TWO32;
    }
    return NONE4;
  }

  /** The bytes from `zero` on move to the end of the address, the last one first. */
  method MoveUp(a: array<byte>, zero: nat, used: nat)
    requires a.Length == 16 && zero <= used < 16
    modifies a
    ensures forall i | 0 <= i < zero :: a[i] == old(a[i])
    ensures forall i | zero + 16 - used <= i < 16 :: a[i] == old(a[i - (16 - used)])
  {
    var n := 16 - used;
    var s := used - 1;
    while s >= zero
      invariant zero - 1 <= s < used
      invariant forall i | 0 <= i <= s :: a[i] == old(a[i])
      invariant forall i | s + n < i < 16 :: a[i] == old(a[i - n])
    {
      a[s + n] := a[s];
      s := s - 1;
    }
  }

  /** ngx_memzero */
  method Clear(a: array<byte>, from: nat, to: nat)
    requires from <= to <= a.Length
    modifies a
    ensures forall i | 0 <= i < a.Length :: a[i] == if from <= i < to then 0 else old(a[i])
  {
    var i := from;
    while i < to
      invariant from <= i <= to
      invariant forall k | 0 <= k < a.Length :: a[k] == if from <= k < i then 0 else old(a[k])
    {
      a[i] := 0;
      i := i + 1;
    }
  }

  /** Zeros fill the gap at `zero`. */
  method Shift(a: array<byte>, zero: nat, used: nat)
    requires a.Length == 16 && zero <= used < 16
    modifies a
    ensures a[..] == old(a[..zero]) + Zeros(16 - used) + old(a[zero..used])
  {
    MoveUp(a, zero, used);
    Clear(a, zero, zero + 16 - used);
  }

  /** The end of ngx_inet6_addr. */
  method Complete(addr: array<byte>, at: nat, zero: Option<nat>, nibbles: nat, word: nat) returns (ok: bool)
    requires addr.Length == 16 && at <= 14 && (zero.Some? ==> zero.value <= at)
    modifies addr
    ensures var r := Finish(State(old(addr[..at]), zero, None, nibbles, word));
      (ok <==> r.Some?) && (ok ==> addr[..] == r.value)
  {
    if nibbles == 0 && zero.None? {
      return false;
    }
    ghost var out := addr[..at] + [High(word), Low(word)];
    addr[at] := High(word);
    addr[at + 1] := Low(word);
    assert addr[..at + 2] == out;
    var n := at + 2;
    if n < 16 {
      if zero.Some? {
        assert addr[..zero.value] == out[..zero.value] && addr[zero.value..n] == out[zero.value..];
        Shift(addr, zero.value, n);
        return true;
      }
      return false;
    }
    assert addr[..] == out;
    return zero.None?;
  }

  /** Whole words have been written, and the gap lies within them. */
  ghost predicate Aligned(s: State) {
    |s.out| % 2 == 0 && |s.out| <= 14 && (s.zero.Some? ==> s.zero.value <= |s.out|)
  }

  /** The loop of ngx_inet6_addr; `digit` is kept as the text it points to. */
  method ReadText(text: Text, start: nat) returns (ok: bool, s: State)
    requires start <= |text|
    ensures if ok then Aligned(s) && Go(START, text[start..]) == Finish(s) else Go(START, text[start..]) == None
  {
    s := START;
    var i := start;
    while i < |text|
      invariant start <= i <= |text| && Aligned(s) && Go(s, text[i..]) == Go(START, text[start..])
      decreases |text| - i
    {
      var c := text[i];
      assert text[i..][1..] == text[i + 1..];
      i := i + 1;
      if c == COLON {
        if s.nibbles > 0 {
          var out := s.out + [High(s.word), Low(s.word)];
          if |out| == 16 {
            return false, s;
          }
          s := State(out, s.zero, Some(text[i..]), 0, 0);
        } else if s.zero.None? {
          s := s.(zero := Some(|s.out|), tail := Some(text[i..]));
        } else {
          return false, s;
        }
      } else if c == DOT && s.nibbles > 0 {
        if |s.out| > 12 || s.tail.None? {
          return false, s;
        }
        var v := InetAddr(s.tail.value);
        if v == NONE4 {
          return false, s;
        }
        s := s.(out := s.out + [High(v / 0x1_0000), Low(v / 0x1_0000)], word := v);
        return true, s;
      } else {
        var d := Nibble(c);
        if s.nibbles == 4 || d.None? {
          return false, s;
        }
        s := s.(nibbles := s.nibbles + 1, word := s.word * 16 + d.value);
      }
    }
    assert text[i..] == [];
    ok := true;
  }

  method Store(addr: array<byte>, bytes: Text)
    requires |bytes| <= addr.Length
    modifies addr
    ensures addr[..|bytes|] == bytes
  {
    var i := 0;
    while i < |bytes|
      invariant 0 <= i <= |bytes| && addr[..i] == bytes[..i]
    {
      addr[i] := bytes[i];
      i := i + 1;
    }
    assert bytes[..i] == bytes;
  }

  /** ngx_inet6_addr */
  method Inet6Addr(text: Text, addr: array<byte>) returns (ok: bool)
    requires addr.Length == 16
    modifies addr
    ensures (ok <==> Addr6(text).Some?) && (ok ==> addr[..] == Addr6(text).value)
  {
    if text == [] {
      return false;
    }
    assert text[0..] == text;
    var s;
    ok, s := ReadText(text, if text[0] == COLON then 1 else 0);
    if ok {
      Store(addr, s.out);
      ok := Complete(addr, |s.out|, s.zero, s.nibbles, s.word);
    }
  }

  /** The scan of ngx_inet6_ntop for the longest run of zero words. */
  method FindRun(a: Text) returns (r: Run)
    requires |a| == 16
    ensures r == LongestRun(a)
  {
    r := NO_RUN;
    var n, i := 0, 0;
    while i < 8
      invariant 0 <= n <= i <= 8 && Scan(a, i, r, n) == LongestRun(a)
    {
      if a[2 * i] != 0 || a[2 * i + 1] != 0 {
        if r.len < n {
          r := Run(i - n, n);
        }
        n := 0;
      } else {
        n := n + 1;
      }
      i := i + 1;
    }
    if r.len < n {
      r := Run(8 - n, n);
    }
  }

  /** The loop of ngx_inet6_ntop that prints words. */
  method PrintWords(a: Text, r: Run, n: nat) returns (text: Text)
    requires |a| == 16 && n <= 8 && r.len >= 1
    ensures text == Emit(a, r, 0, n)
  {
    text := [];
    ghost var all := Emit(a, r, 0, n);
    assert text + all == all;
    var i := 0;
    while i < n
      invariant 0 <= i && text + Emit(a, r, i, n) == all
      decreases 8 - i
    {
      ghost var was := text;
      if i == r.start {
        text := text + [COLON];
        EmitGroups(was, [COLON], [], Emit(a, r, i + r.len, n));
        i := i + r.len;
      } else {
        text := text + Hex(Word(a, i));
        EmitGroups(was, Hex(Word(a, i)), if i < 7 then [COLON] else [], Emit(a, r, i + 1, n));
        if i < 7 {
          text := text + [COLON];
        }
        i := i + 1;
      }
    }
    assert text + [] == text;
  }

  /** ngx_inet6_ntop */
  method Inet6Ntop(a: Text) returns (text: Text)
    requires |a| == 16
    ensures text == Ntop(a)
  {
    var r := FindRun(a);
    ScanFinds(a, 0, NO_RUN, 0);
    var n, start := 8, [];
    if r.start == 0 {
      if (r.len == 5 && a[10] == 255 && a[11] == 255) || r.len == 6 || (r.len == 7 && a[14] != 0 && a[15] != 1) {
        n := 6;
      }
      start := [COLON];
    }
    text := PrintWords(a, r, n);
    if n == 6 {
      text := text + Quad(a);
    }
    text := start + text;
  }

  lemma EmitGroups(w: Text, x: Text, y: Text, z: Text)
    ensures w + (x + y + z) == ((w + x) + y) + z
    ensures y == [] ==> w + (x + z) == (w + x) + z && (w + x) + y == w + x
  {
  }

  // ---------------------------------------------------------------- the run that is left out

  ghost predicate ZeroRun(a: Text, s: nat, l: nat)
    requires |a| == 16
  {
    s + l <= 8 && forall k | s <= k < s + l :: Word(a, k) == 0
  }

  /** Of the runs of at least two zero words that end by word i, r is the longest, and the first of that length. */
  ghost predicate LongestBy(a: Text, i: nat, r: Run)
    requires |a| == 16
  {
    forall s: nat, l: nat | l >= 2 && s + l <= i && ZeroRun(a, s, l) :: l <= r.len && (l == r.len ==> r.start <= s)
  }

  ghost predicate EndsBy(r: Run, i: nat) {
    r == NO_RUN || r.start + r.len <= i
  }

  lemma RunAvoids(a: Text, s: nat, l: nat, k: nat)
    requires |a| == 16 && ZeroRun(a, s, l) && k < 8 && Word(a, k) != 0
    ensures k < s || s + l <= k
  {
  }

  /** A run ends before the word at i - n - 1, which is not zero, or starts behind it. */
  lemma BetterIsLongest(a: Text, i: nat, best: Run, n: nat)
    requires |a| == 16 && n <= i <= 8 && LongestBy(a, i - n, best) && EndsBy(best, i - n) && ZeroRun(a, i - n, n)
    requires i - n > 0 ==> Word(a, i - n - 1) != 0
    ensures LongestBy(a, i, Better(best, i, n)) && EndsBy(Better(best, i, n), i)
  {
    forall s: nat, l: nat | l >= 2 && s + l <= i && ZeroRun(a, s, l)
      ensures l <= Better(best, i, n).len && (l == Better(best, i, n).len ==> Better(best, i, n).start <= s)
    {
      if i - n > 0 {
        RunAvoids(a, s, l, i - n - 1);
      }
    }
  }

  lemma {:induction false} ScanIsLongest(a: Text, i: nat, best: Run, n: nat)
    requires |a| == 16 && n <= i <= 8 && LongestBy(a, i - n, best) && EndsBy(best, i - n) && ZeroRun(a, i - n, n)
    requires i - n > 0 ==> Word(a, i - n - 1) != 0
    ensures LongestBy(a, 8, Scan(a, i, best, n))
    decreases 8 - i
  {
    if i == 8 {
      BetterIsLongest(a, i, best, n);
    } else if Word(a, i) != 0 {
      BetterIsLongest(a, i, best, n);
      forall s: nat, l: nat | l >= 2 && s + l <= i + 1 && ZeroRun(a, s, l)
        ensures s + l <= i
      {
        RunAvoids(a, s, l, i);
      }
      ScanIsLongest(a, i + 1, Better(best, i, n), 0);
    } else {
      ScanIsLongest(a, i + 1, best, n + 1);
    }
  }

  /** The run that is left out consists of zero words; no such run of at least two words is longer, and none as long
    * comes earlier.  Without any, nothing is left out. */
  lemma LongestRunIsLongest(a: Text)
    requires |a| == 16
    ensures var r := LongestRun(a);
      && (r == NO_RUN || (r.len >= 2 && ZeroRun(a, r.start, r.len)))
      && LongestBy(a, 8, r)
      && (r == NO_RUN <==> forall s: nat | s + 2 <= 8 :: !ZeroRun(a, s, 2))
  {
    ScanFinds(a, 0, NO_RUN, 0);
    ScanIsLongest(a, 0, NO_RUN, 0);
    var r := LongestRun(a);
    if r != NO_RUN {
      assert ZeroRun(a, r.start, 2);
    }
  }
}
