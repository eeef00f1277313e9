/** Exactly which texts are addresses, and of what (src/core/ngx_inet.c): both parsers against the fields of the text. */
module InetText {
  import opened Bytes
  import opened Inet

  // ---------------------------------------------------------------- fields

  /** The parts of a text between separators. */
  function Fields(t: Text, sep: byte): (r: seq<Text>)
    ensures |r| >= 1
  {
    if t == [] then [[]]
    else
      var r := Fields(t[1..], sep);
      if t[0] == sep then [[]] + r else [[t[0]] + r[0]] + r[1..]
  }

  // ---------------------------------------------------------------- IPv4

  predicate Digits(f: Text) {
    forall i | 0 <= i < |f| :: IsDigit(f[i])
  }

  /** The number that the digits spell; no digits spell zero. */
  function Decimal(f: Text): nat
    requires Digits(f)
  {
    if f == [] then 0 else Decimal(f[..|f| - 1]) * 10 + (f[|f| - 1] - ZERO)
  }

  /** An octet: digits that spell less than 256, in 64 bits. */
  predicate IsOctet(f: Text) {
    Digits(f) && Decimal(f) % TWO64 < 256
  }

  function OctetOf(f: Text): nat {
    if Digits(f) then Decimal(f) % TWO64 else 0
  }

  /** The digits so far, and more of them. */
  function Accumulated(octet: nat, f: Text): nat
    requires Digits(f)
    decreases |f|
  {
    if f == [] then octet else Accumulated(TimesTen(octet, f[0] - ZERO), f[1..])
  }

  lemma {:induction false} AccumulatedSnoc(octet: nat, f: Text)
    requires Digits(f) && f != []
    ensures Accumulated(octet, f) == TimesTen(Accumulated(octet, f[..|f| - 1]), f[|f| - 1] - ZERO)
    decreases |f|
  {
    if |f| > 1 {
      AccumulatedSnoc(TimesTen(octet, f[0] - ZERO), f[1..]);
      assert f[1..][..|f| - 2] == f[..|f| - 1][1..];
    }
  }

  lemma TimesTenWraps(x: nat, d: nat)
    requires d < 10
    ensures TimesTen(x % TWO64, d) == (x * 10 + d) % TWO64
  {
    var q, m := x / TWO64, x % TWO64;
    assert x * 10 + d == TWO64 * (q * 10) + (m * 10 + d);
    assert (m * 10 + d) % TWO64 == TimesTen(m, d);
    WrapAdds(q * 10, m * 10 + d);
  }

  lemma {:induction false} WrapAdds(q: nat, x: nat)
    ensures (TWO64 * q + x) % TWO64 == x % TWO64
  {
    if q > 0 {
      WrapAdds(q - 1, x);
      assert TWO64 * q + x == (TWO64 * (q - 1) + x) + TWO64;
    }
  }

  lemma {:induction false} AccumulatedIs(f: Text)
    requires Digits(f)
    ensures Accumulated(0, f) == Decimal(f) % TWO64
    decreases |f|
  {
    if f != [] {
      AccumulatedSnoc(0, f);
      AccumulatedIs(f[..|f| - 1]);
      TimesTenWraps(Decimal(f[..|f| - 1]), f[|f| - 1] - ZERO);
    }
  }

  /** The parser field by field. */
  function ByFields(octets: seq<nat>, octet: nat, fs: seq<Text>): nat
    requires fs != []
    decreases |fs|
  {
    if !Digits(fs[0]) || Accumulated(octet, fs[0]) >= 256 then NONE4
    else if |fs| > 1 then ByFields(octets + [Accumulated(octet, fs[0])], 0, fs[1..])
    else if |octets| == 3 then Value4(octets + [Accumulated(octet, fs[0])]) else NONE4
  }

  lemma {:induction false} ParserGoesByFields(t: Text, octets: seq<nat>, octet: nat)
    ensures Inet4(t, octets, octet) == ByFields(octets, octet, Fields(t, DOT))
    decreases |t|
  {
    if t != [] {
      var r := Fields(t[1..], DOT);
      if IsDigit(t[0]) {
        ParserGoesByFields(t[1..], octets, TimesTen(octet, t[0] - ZERO));
        var f := [t[0]] + r[0];
        assert f[1..] == r[0] && (Digits(f) <==> Digits(r[0]));
        assert ([f] + r[1..])[1..] == r[1..];
      } else if t[0] == DOT {
        ParserGoesByFields(t[1..], octets + [octet], 0);
        assert ([[]] + r)[1..] == r;
      } else {
        assert !IsDigit(([t[0]] + r[0])[0]);
      }
    }
  }

  function OctetsOf(fs: seq<Text>): (r: seq<nat>)
    ensures |r| == |fs| && forall i | 0 <= i < |fs| :: r[i] == OctetOf(fs[i])
  {
    seq(|fs|, i requires 0 <= i < |fs| => OctetOf(fs[i]))
  }

  predicate AllOctets(fs: seq<Text>) {
    forall i | 0 <= i < |fs| :: IsOctet(fs[i])
  }

  /** What the fields stand for. */
  function Quad4(octets: seq<nat>, fs: seq<Text>): nat {
    if |octets| + |fs| == 4 && AllOctets(fs) then Value4(octets + OctetsOf(fs)) else NONE4
  }

  lemma OctetMoves(octets: seq<nat>, fs: seq<Text>)
    requires fs != [] && IsOctet(fs[0])
    ensures Quad4(octets + [OctetOf(fs[0])], fs[1..]) == Quad4(octets, fs)
  {
    assert AllOctets(fs) <==> AllOctets(fs[1..]) by {
      assert forall i | 1 <= i < |fs| :: fs[i] == fs[1..][i - 1];
    }
    assert octets + [OctetOf(fs[0])] + OctetsOf(fs[1..]) == octets + OctetsOf(fs);
  }

  lemma {:induction false} FieldsAreOctets(octets: seq<nat>, fs: seq<Text>)
    requires fs != []
    ensures ByFields(octets, 0, fs) == Quad4(octets, fs)
    decreases |fs|
  {
    if Digits(fs[0]) {
      AccumulatedIs(fs[0]);
      if IsOctet(fs[0]) {
        OctetMoves(octets, fs);
        if |fs| > 1 {
          FieldsAreOctets(octets + [OctetOf(fs[0])], fs[1..]);
        } else {
          assert octets + [OctetOf(fs[0])] + OctetsOf([]) == octets + [OctetOf(fs[0])];
        }
      }
    }
  }

  /** Every text: an address if and only if it is made of four octets with dots between them.  An octet may have no
    * digits, and as many as one likes. */
  lemma InetAddrReads(t: Text)
    ensures var fs := Fields(t, DOT);
      Inet4(t, [], 0) == if |fs| == 4 && AllOctets(fs) then Value4(OctetsOf(fs)) else NONE4
  {
    ParserGoesByFields(t, [], 0);
    FieldsAreOctets([], Fields(t, DOT));
    assert [] + OctetsOf(Fields(t, DOT)) == OctetsOf(Fields(t, DOT));
  }

  // ---------------------------------------------------------------- groups of IPv6

  predicate IsHex(c: byte) {
    IsDigit(c) || UPPER_A <= c <= UPPER_F || LOWER_A <= c <= LOWER_F
  }

  function HexOf(c: byte): (d: nat)
    requires IsHex(c)
    ensures d < 16
  {
    if IsDigit(c) then c - ZERO else if c <= UPPER_F then c - UPPER_A + 10 else c - LOWER_A + 10
  }

  predicate HexDigits(f: Text) {
    forall i | 0 <= i < |f| :: IsHex(f[i])
  }

  function Hexadecimal(f: Text): nat
    requires HexDigits(f)
  {
    if f == [] then 0 else Hexadecimal(f[..|f| - 1]) * 16 + HexOf(f[|f| - 1])
  }

  /** One to four hexadecimal digits, in either case. */
  predicate IsGroup(f: Text) {
    1 <= |f| <= 4 && HexDigits(f)
  }

  /** The two bytes of a group. */
  function GroupBytes(f: Text): (r: Text) {
    if IsGroup(f) then [High(Hexadecimal(f)), Low(Hexadecimal(f))] else []
  }

  lemma NibbleIsHex(c: byte)
    ensures Nibble(c) == if IsHex(c) then Some(HexOf(c)) else None
    ensures IsHex(c) ==> c != COLON && c != DOT
  {
  }

  /** How many hexadecimal digits a text starts with. */
  function Leading(t: Text): (n: nat)
    ensures n <= |t| && HexDigits(t[..n]) && (n < |t| ==> !IsHex(t[n]))
  {
    if t == [] || !IsHex(t[0]) then 0 else 1 + Leading(t[1..])
  }

  /** Reading n hexadecimal digits. */
  lemma {:induction false} ReadDigits(s: State, t: Text, n: nat)
    requires Between(s) && n <= |t| && n <= 4 && HexDigits(t[..n])
    ensures Go(s, t) == Go(s.(nibbles := n, word := Hexadecimal(t[..n])), t[n..])
    decreases n
  {
    if n > 0 {
      var m := n - 1;
      assert t[..n][..m] == t[..m] && t[..n][m] == t[m] && t[m..][1..] == t[n..] && t[m..][0] == t[m];
      assert HexDigits(t[..m]) by {
        assert forall i | 0 <= i < m :: t[..m][i] == t[..n][i];
      }
      ReadDigits(s, t, m);
      NibbleIsHex(t[m]);
    }
  }

  /** What the digits of a field make of the parser. */
  function AfterDigits(s: State, f: Text): State
    requires HexDigits(f)
  {
    s.(nibbles := |f|, word := Hexadecimal(f))
  }

  /** A text with more than four digits in front, or with something else behind them. */
  lemma StrayIsRefused(s: State, t: Text)
    requires Between(s) && (Leading(t) > 4 || (Leading(t) < |t| && t[Leading(t)] != COLON && t[Leading(t)] != DOT))
    ensures Go(s, t) == None
  {
    var n := if Leading(t) > 4 then 4 else Leading(t);
    assert HexDigits(t[..n]) by {
      assert forall i | 0 <= i < n :: t[..n][i] == t[..Leading(t)][i];
    }
    ReadDigits(s, t, n);
    NibbleIsHex(t[n]);
    if Leading(t) > 4 {
      assert IsHex(t[..Leading(t)][n]);
    }
  }

  /** A colon is in no IPv4 address. */
  lemma {:induction false} ColonIsRefused(t: Text, octets: seq<nat>, octet: nat)
    requires COLON in t
    ensures Inet4(t, octets, octet) == NONE4
    decreases |t|
  {
    if IsDigit(t[0]) {
      ColonIsRefused(t[1..], octets, TimesTen(octet, t[0] - ZERO));
    } else if t[0] == DOT && octet < 256 {
      ColonIsRefused(t[1..], octets + [octet], 0);
    }
  }

  /** The last field as a dotted IPv4 address, whose first octet has one to four digits. */
  predicate IsQuad(f: Text) {
    Inet4(f, [], 0) != NONE4 && 1 <= Leading(f) <= 4
  }

  function QuadBytes(f: Text): (r: Text) {
    var v := Inet4(f, [], 0);
    [High(v / 0x1_0000), Low(v / 0x1_0000), High(v), Low(v)]
  }

  // ---------------------------------------------------------------- fields of IPv6

  /** The bytes of the groups among these fields. */
  function BytesOf(front: seq<Text>): Text {
    if front == [] then [] else BytesOf(front[..|front| - 1]) + GroupBytes(front[|front| - 1])
  }

  /** How many bytes come before the empty field. */
  function Gap(front: seq<Text>): Option<nat> {
    if front == [] then None
    else
      var n := |front| - 1;
      match Gap(front[..n])
      case Some(z) => Some(z)
      case None => if front[n] == [] then Some(|BytesOf(front[..n])|) else None
  }

  /** Groups, and at most one empty field. */
  predicate FrontOk(front: seq<Text>) {
    if front == [] then true
    else
      var n := |front| - 1;
      FrontOk(front[..n]) && if front[n] == [] then Gap(front[..n]).None? else IsGroup(front[n])
  }

  /** The bytes of the last field: a group, an IPv4 address if it is not the only one, or behind an empty field nothing,
    * which counts as a group of zero. */
  function LastBytes(front: seq<Text>, last: Text): Option<Text> {
    if last == [] then (if Gap(front).Some? then Some([0, 0]) else None)
    else if IsGroup(last) then Some(GroupBytes(last))
    else if IsQuad(last) && front != [] then Some(QuadBytes(last))
    else None
  }

  /** The address that the fields stand for: eight groups, or fewer with zeros in place of the empty field. */
  function Address(front: seq<Text>, last: Text): Option<Text> {
    var end := LastBytes(front, last);
    if !FrontOk(front) || end.None? then None
    else Completed(Gap(front), BytesOf(front) + end.value)
  }

  function Completed(gap: Option<nat>, bytes: Text): Option<Text> {
    match gap
    case None => if |bytes| == 16 then Some(bytes) else None
    case Some(z) =>
      if z <= |bytes| < 16 then Some(bytes[..z] + Zeros(16 - |bytes|) + bytes[z..]) else None
  }

  lemma FinishCompletes(gap: Option<nat>, bytes: Text)
    requires |bytes| <= 16
    ensures FinishWith(gap, bytes) == Completed(gap, bytes)
  {
  }

  lemma {:induction false} GapIsWithin(front: seq<Text>)
    ensures Gap(front).Some? ==> Gap(front).value <= |BytesOf(front)|
    decreases |front|
  {
    if front != [] {
      GapIsWithin(front[..|front| - 1]);
    }
  }

  /** The parser behind so many fields, with t to come. */
  ghost predicate Behind(s: State, front: seq<Text>, t: Text) {
    && Between(s) && FrontOk(front) && s.out == BytesOf(front) && s.zero == Gap(front) && |s.out| < 16 && |s.out| % 2 == 0
    && s.tail == if front == [] then None else Some(t)
  }

  lemma FrontMore(front: seq<Text>, f: Text)
    ensures var more := front + [f];
      && BytesOf(more) == BytesOf(front) + GroupBytes(f)
      && Gap(more) == (if Gap(front).None? && f == [] then Some(|BytesOf(front)|) else Gap(front))
      && (FrontOk(more) <==> FrontOk(front) && if f == [] then Gap(front).None? else IsGroup(f))
  {
    assert (front + [f])[..|front|] == front;
  }

  /** The last field. */
  lemma LastField(s: State, front: seq<Text>, f: Text)
    requires Behind(s, front, f) && COLON !in f
    ensures Go(s, f) == Address(front, f)
  {
    var n := Leading(f);
    if n > 4 || (n < |f| && f[n] != DOT) {
      StrayIsRefused(s, f);
      NoAddress(front, f);
    } else {
      ReadDigits(s, f, n);
      if n == |f| {
        assert f[..n] == f && f[n..] == [];
        LastGroup(s, front, f);
      } else {
        LastQuad(s, front, f);
      }
    }
  }

  lemma LastGroup(s: State, front: seq<Text>, f: Text)
    requires Behind(s, front, f) && |f| <= 4 && HexDigits(f)
    ensures Finish(AfterDigits(s, f)) == Address(front, f)
  {
    var end := s.out + [High(Hexadecimal(f)), Low(Hexadecimal(f))];
    if f != [] || s.zero.Some? {
      FinishIs(AfterDigits(s, f));
      FinishCompletes(s.zero, end);
      assert LastBytes(front, f) == Some([High(Hexadecimal(f)), Low(Hexadecimal(f))]);
    }
  }

  lemma NoAddress(front: seq<Text>, f: Text)
    requires Leading(f) > 4 || (Leading(f) < |f| && f[Leading(f)] != DOT)
    ensures Address(front, f) == None
  {
    assert !IsGroup(f) by {
      if Leading(f) < |f| {
        assert !IsHex(f[Leading(f)]);
      }
    }
    if Leading(f) <= 4 {
      StrayInQuad(f, [], 0, Leading(f));
    }
  }

  /** An octet that is neither a digit nor a dot is in no IPv4 address. */
  lemma {:induction false} StrayInQuad(t: Text, octets: seq<nat>, octet: nat, i: nat)
    requires i < |t| && !IsDigit(t[i]) && t[i] != DOT
    ensures Inet4(t, octets, octet) == NONE4
    decreases i
  {
    if i > 0 {
      if IsDigit(t[0]) {
        StrayInQuad(t[1..], octets, TimesTen(octet, t[0] - ZERO), i - 1);
      } else if t[0] == DOT && octet < 256 {
        StrayInQuad(t[1..], octets + [octet], 0, i - 1);
      }
    }
  }

  /** A dot behind digits. */
  lemma DotIsRead(s: State, t: Text, rest: Text)
    requires s.nibbles > 0 && s.tail == Some(t) && |s.out| <= 15
    ensures Go(s, [DOT] + rest) ==
      if Inet4(t, [], 0) == NONE4 then None else Completed(s.zero, s.out + QuadBytes(t))
  {
    var v := Inet4(t, [], 0);
    if |s.out| <= 12 {
      DotReads(s, rest, v);
      assert (s.out + [High(v / 0x1_0000), Low(v / 0x1_0000)]) + [High(v), Low(v)] == s.out + QuadBytes(t);
      FinishCompletes(s.zero, s.out + QuadBytes(t));
    }
  }

  lemma DotIsRefused(s: State, rest: Text)
    requires s.nibbles == 0 || s.tail == None
    ensures Go(s, [DOT] + rest) == None
  {
    NibbleIsHex(DOT);
  }

  lemma LastQuad(s: State, front: seq<Text>, f: Text)
    requires Behind(s, front, f) && Leading(f) <= 4 && Leading(f) < |f| && f[Leading(f)] == DOT
    ensures Go(AfterDigits(s, f[..Leading(f)]), f[Leading(f)..]) == Address(front, f)
  {
    var n := Leading(f);
    assert f[n..] == [DOT] + f[n + 1..];
    assert !IsGroup(f) by {
      assert !IsHex(f[n]);
    }
    if n == 0 || front == [] {
      DotIsRefused(AfterDigits(s, f[..n]), f[n + 1..]);
    } else {
      DotIsRead(AfterDigits(s, f[..n]), f, f[n + 1..]);
    }
  }

  // ---------------------------------------------------------------- all the fields

  lemma {:induction false} FirstField(t: Text, sep: byte)
    ensures var f := Fields(t, sep)[0];
      && sep !in f && |f| <= |t| && f == t[..|f|]
      && if |f| == |t| then Fields(t, sep) == [f]
         else t[|f|] == sep && Fields(t, sep) == [f] + Fields(t[|f| + 1..], sep)
    decreases |t|
  {
    if t != [] && t[0] != sep {
      FirstField(t[1..], sep);
      var r := Fields(t[1..], sep);
      var f := [t[0]] + r[0];
      assert t == [t[0]] + t[1..];
      if |f| < |t| {
        assert t[1..][|r[0]| + 1..] == t[|f| + 1..];
      }
    }
  }

  /** The parser behind a field. */
  function NextField(s: State, f: Text, rest: Text): State {
    if f == [] then s.(zero := Some(|s.out|), tail := Some(rest))
    else State(s.out + GroupBytes(f), s.zero, Some(rest), 0, 0)
  }

  /** A field before the last one is read, or the text is refused. */
  ghost predicate FieldIsRead(s: State, front: seq<Text>, f: Text, rest: Text) {
    if FrontOk(front + [f]) && |BytesOf(front + [f])| < 16
    then Behind(NextField(s, f, rest), front + [f], rest) && Go(s, f + [COLON] + rest) == Go(NextField(s, f, rest), rest)
    else Go(s, f + [COLON] + rest) == None
  }

  lemma ReadField(s: State, front: seq<Text>, f: Text, rest: Text)
    requires Behind(s, front, f + [COLON] + rest) && COLON !in f
    ensures FieldIsRead(s, front, f, rest)
  {
    if f == [] {
      ReadEmpty(s, front, rest);
    } else if IsGroup(f) {
      ReadGroup(s, front, f, rest);
    } else {
      FrontMore(front, f);
      OtherIsRefused(s, f, rest);
    }
  }

  lemma ReadEmpty(s: State, front: seq<Text>, rest: Text)
    requires Behind(s, front, [] + [COLON] + rest)
    ensures FieldIsRead(s, front, [], rest)
  {
    FrontMore(front, []);
    assert BytesOf(front) + [] == BytesOf(front);
    EmptyIsRead(s, rest);
    assert [] + [COLON] + rest == [COLON] + rest;
  }

  lemma ReadGroup(s: State, front: seq<Text>, f: Text, rest: Text)
    requires Behind(s, front, f + [COLON] + rest) && IsGroup(f)
    ensures FieldIsRead(s, front, f, rest)
  {
    FrontMore(front, f);
    GroupIsRead(s, f, rest);
  }

  lemma EmptyIsRead(s: State, rest: Text)
    requires Between(s)
    ensures Go(s, [COLON] + rest) == if s.zero.Some? then None else Go(NextField(s, [], rest), rest)
  {
    assert ([COLON] + rest)[1..] == rest;
  }

  lemma GroupIsRead(s: State, f: Text, rest: Text)
    requires Between(s) && IsGroup(f)
    ensures Go(s, f + [COLON] + rest) ==
      if |s.out| + 2 == 16 then None else Go(NextField(s, f, rest), rest)
  {
    var t := f + [COLON] + rest;
    assert t[..|f|] == f && t[|f|..] == [COLON] + rest && ([COLON] + rest)[1..] == rest;
    ReadDigits(s, t, |f|);
  }

  /** A field that is neither empty nor a group. */
  lemma OtherIsRefused(s: State, f: Text, rest: Text)
    requires Between(s) && f != [] && !IsGroup(f) && COLON !in f
    requires s.tail == Some(f + [COLON] + rest) || s.tail == None
    ensures Go(s, f + [COLON] + rest) == None
  {
    var t := f + [COLON] + rest;
    var n := Leading(t);
    LeadingIn(f, [COLON] + rest);
    assert t == f + ([COLON] + rest);
    if n > 4 {
      StrayIsRefused(s, t);
    } else if t[n] != DOT {
      assert n < |f| by {
        assert f[..|f|] == f;
      }
      assert t[n] == f[n];
      StrayIsRefused(s, t);
    } else {
      ReadDigits(s, t, n);
      assert t[n..] == [DOT] + t[n + 1..];
      assert t[|f|] == COLON;
      ColonIsRefused(t, [], 0);
      if n == 0 || s.tail == None {
        DotIsRefused(AfterDigits(s, t[..n]), t[n + 1..]);
      } else if |s.out| <= 15 {
        DotIsRead(AfterDigits(s, t[..n]), t, t[n + 1..]);
      }
    }
  }

  lemma {:induction false} LeadingIn(f: Text, rest: Text)
    requires rest != [] && !IsHex(rest[0])
    ensures Leading(f + rest) == Leading(f)
    decreases |f|
  {
    if f != [] {
      assert (f + rest)[1..] == f[1..] + rest;
      LeadingIn(f[1..], rest);
    }
  }

  lemma {:induction false} FrontStays(front: seq<Text>, more: seq<Text>)
    ensures FrontOk(front + more) ==> FrontOk(front)
    ensures |BytesOf(front)| <= |BytesOf(front + more)|
    decreases |more|
  {
    if more == [] {
      assert front + more == front;
    } else {
      var n := |more| - 1;
      FrontStays(front, more[..n]);
      FrontMore(front + more[..n], more[n]);
      assert (front + more[..n]) + [more[n]] == front + more;
    }
  }

  function AddressOf(fs: seq<Text>): Option<Text>
    requires fs != []
  {
    Address(fs[..|fs| - 1], fs[|fs| - 1])
  }

  lemma BadFront(front: seq<Text>, more: seq<Text>)
    requires more != [] && !(FrontOk(front) && |BytesOf(front)| < 16)
    ensures AddressOf(front + more) == None
  {
    var n := |more| - 1;
    FrontStays(front, more[..n]);
    assert (front + more)[..|front + more| - 1] == front + more[..n];
    TooLong(front + more[..n], (front + more)[|front + more| - 1]);
  }

  lemma TooLong(front: seq<Text>, last: Text)
    requires !FrontOk(front) || |BytesOf(front)| >= 16
    ensures Address(front, last) == None
  {
    var end := LastBytes(front, last);
    if end.Some? {
      assert |end.value| >= 2;
    }
  }

  lemma {:induction false} ParserReads(s: State, front: seq<Text>, t: Text)
    requires Behind(s, front, t)
    ensures Go(s, t) == AddressOf(front + Fields(t, COLON))
    decreases |t|
  {
    var fs := Fields(t, COLON);
    var f := fs[0];
    FirstField(t, COLON);
    if |f| == |t| {
      assert t[..|f|] == t;
      ReadsLast(s, front, f);
    } else {
      var rest := t[|f| + 1..];
      assert t == f + [COLON] + rest;
      ReadField(s, front, f, rest);
      assert (front + [f]) + Fields(rest, COLON) == front + fs;
      if FrontOk(front + [f]) && |BytesOf(front + [f])| < 16 {
        ParserReads(NextField(s, f, rest), front + [f], rest);
      } else {
        BadFront(front + [f], Fields(rest, COLON));
      }
    }
  }

  lemma ReadsLast(s: State, front: seq<Text>, f: Text)
    requires Behind(s, front, f) && COLON !in f
    ensures Go(s, f) == AddressOf(front + [f])
  {
    assert (front + [f])[..|front|] == front;
    LastField(s, front, f);
  }

  /** Every text, without a colon in front if there is one: an address if and only if its fields are groups, an IPv4
    * address as the last of several, and at most one empty field, with eight groups or with fewer and an empty field;
    * and the address is that of the groups, with zeros for the empty field. */
  lemma Inet6AddrReads(t: Text)
    ensures Addr6(t) == if t == [] then None else AddressOf(Fields(if t[0] == COLON then t[1..] else t, COLON))
  {
    if t != [] {
      var t1 := if t[0] == COLON then t[1..] else t;
      ParserReads(START, [], t1);
      assert [] + Fields(t1, COLON) == Fields(t1, COLON);
    }
  }

  /** A colon behind the text counts as a group of zero, so a double one at the end stands for at least two groups:
    * seven groups and a double colon are no address. */
  lemma GapAtEndIsWide(gs: seq<Text>)
    requires forall i | 0 <= i < |gs| :: IsGroup(gs[i])
    ensures |BytesOf(gs)| == 2 * |gs|
    ensures Address(gs + [[]], []) == if |gs| <= 6 then Some(BytesOf(gs) + Zeros(16 - |BytesOf(gs)|)) else None
  {
    GroupsAreOk(gs);
    var front, bytes := gs + [[]], BytesOf(gs);
    assert Address(front, []) == Completed(Some(|bytes|), bytes + [0, 0]) by {
      FrontMore(gs, []);
      AddressAtGap(front, bytes);
    }
    EndOfZeros(bytes);
  }

  lemma AddressAtGap(front: seq<Text>, bytes: Text)
    requires FrontOk(front) && Gap(front) == Some(|bytes|) && BytesOf(front) == bytes + GroupBytes([])
    ensures Address(front, []) == Completed(Some(|bytes|), bytes + [0, 0])
  {
    assert bytes + GroupBytes([]) == bytes;
  }

  lemma EndOfZeros(bytes: Text)
    ensures Completed(Some(|bytes|), bytes + [0, 0]) == if |bytes| < 14 then Some(bytes + Zeros(16 - |bytes|)) else None
  {
    var all := bytes + [0, 0];
    assert all[..|bytes|] == bytes && all[|bytes|..] == [0, 0];
    if |bytes| < 14 {
      MoreZeros(bytes, 14 - |bytes|);
    }
  }

  lemma MoreZeros(bytes: Text, n: nat)
    ensures bytes + Zeros(n) + [0, 0] == bytes + Zeros(n + 2)
  {
    var z: Text, z2: Text := Zeros(n), Zeros(n + 2);
    assert z + [0, 0] == z2;
    assert bytes + z + [0, 0] == bytes + (z + [0, 0]);
  }

  lemma {:induction false} GroupsAreOk(gs: seq<Text>)
    requires forall i | 0 <= i < |gs| :: IsGroup(gs[i])
    ensures FrontOk(gs) && Gap(gs) == None && |BytesOf(gs)| == 2 * |gs|
    decreases |gs|
  {
    if gs != [] {
      GroupsAreOk(gs[..|gs| - 1]);
    }
  }
}
