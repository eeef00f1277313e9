/** Names in DNS messages (src/core/ngx_resolver.c): building questions, and reading names back through compression
  * pointers. */
module Dns {
  import opened Bytes
  import Inet

  type Text = seq<byte>

  // ---------------------------------------------------------------- names and labels

  /** How many bytes precede the first dot. */
  function Lead(t: Text): (k: nat)
    ensures k <= |t| && (k < |t| ==> t[k] == DOT) && forall i | 0 <= i < k :: t[i] != DOT
  {
    if t == [] || t[0] == DOT then 0 else 1 + Lead(t[1..])
  }

  /** The labels of a name. */
  function Labels(t: Text): (ls: seq<Text>)
    ensures |ls| >= 1
    decreases |t|
  {
    var k := Lead(t);
    if k == |t| then [t] else [t[..k]] + Labels(t[k + 1..])
  }

  /** Labels with dots between them. */
  function Dotted(ls: seq<Text>): Text {
    if ls == [] then [] else if |ls| == 1 then ls[0] else ls[0] + ([DOT] + Dotted(ls[1..]))
  }

  lemma {:induction false} LabelsMakeTheName(t: Text)
    ensures Dotted(Labels(t)) == t
    decreases |t|
  {
    var k := Lead(t);
    LabelsStart(t);
    if k < |t| {
      LabelsMakeTheName(t[k + 1..]);
      CutAtDot(t, k);
    }
  }

  lemma CutAtDot(t: Text, k: nat)
    requires k < |t| && t[k] == DOT
    ensures t == t[..k] + ([DOT] + t[k + 1..])
  {
  }

  lemma LabelsStart(t: Text)
    ensures Labels(t)[0] == t[..Lead(t)]
    ensures Lead(t) < |t| ==> Labels(t)[1..] == Labels(t[Lead(t) + 1..])
    ensures Lead(t) == |t| ==> Labels(t) == [t]
  {
  }

  // ---------------------------------------------------------------- the question

  /** A length as a byte holds it. */
  function LengthByte(n: nat): (b: byte)
    ensures n < 256 ==> b == n
  {
    if n < 256 then n else n % 256
  }

  /** The name with every dot replaced by the length of the label behind it; a byte holds it. */
  function Filled(t: Text): (f: Text)
    ensures |f| == |t|
  {
    if t == [] then [] else [if t[0] == DOT then LengthByte(Lead(t[1..])) else t[0]] + Filled(t[1..])
  }

  /** "\3www\7example\3com" */
  function Counted(t: Text): (f: Text)
    ensures |f| == |t| + 1
  {
    [LengthByte(Lead(t))] + Filled(t)
  }

  /** The name part of a question. */
  function Wire(t: Text): Text {
    if t == [] then [0] else Counted(t) + [0]
  }

  /** A dot with nothing behind it. */
  ghost predicate HasEmptyLabel(t: Text) {
    exists i :: 0 <= i < |t| && EmptyAt(t, i)
  }

  ghost predicate EmptyAt(t: Text, i: nat)
    requires i < |t|
  {
    t[i] == DOT && (i + 1 == |t| || t[i + 1] == DOT)
  }

  /** The name part of the question, written from its end to its start. */
  method FillBackwards(name: Text, q: array<byte>) returns (ok: bool)
    requires q.Length == |name| + 2
    modifies q
    ensures ok <==> !HasEmptyLabel(name)
    ensures ok ==> q[..] == Counted(name) + [0]
  {
    var p, len, s := |name| + 1, 0, |name|;
    q[p] := 0;
    p := p - 1;
    assert name[s..] == [];
    while s > 0
      invariant 0 <= s <= |name| && p == s && len == Lead(name[s..]) && q[|name| + 1] == 0
      invariant q[s + 1..|name| + 1] == Filled(name[s..])
      invariant forall i | s <= i < |name| :: !EmptyAt(name, i)
      decreases s
    {
      s := s - 1;
      FilledStep(name, s);
      ghost var was := q[s + 2..|name| + 1];
      if name[s] != DOT {
        q[p] := name[s];
        len := len + 1;
      } else {
        if len == 0 {
          assert EmptyAt(name, s);
          return false;
        }
        q[p] := LengthByte(len);
        len := 0;
      }
      assert q[s + 1..|name| + 1] == [q[s + 1]] + was;
      p := p - 1;
    }
    q[p] := LengthByte(len);
    assert name[0..] == name;
    assert q[..] == [q[0]] + q[1..|name| + 1] + [q[|name| + 1]];
    return true;
  }

  /** One more byte at the front. */
  lemma FilledStep(name: Text, s: nat)
    requires s < |name|
    ensures Filled(name[s..]) == [if name[s] == DOT then LengthByte(Lead(name[s + 1..])) else name[s]] + Filled(name[s + 1..])
    ensures Lead(name[s..]) == if name[s] == DOT then 0 else 1 + Lead(name[s + 1..])
    ensures EmptyAt(name, s) <==> name[s] == DOT && Lead(name[s + 1..]) == 0
  {
    assert name[s..][1..] == name[s + 1..];
  }

  /** ngx_resolver_create_name_query; false when a label other than the first is empty. */
  method BuildName(name: Text, q: array<byte>) returns (ok: bool)
    requires q.Length == if name == [] then 1 else |name| + 2
    modifies q
    ensures ok <==> !HasEmptyLabel(name)
    ensures ok ==> q[..] == Wire(name)
  {
    if name == [] {
      // the length of the missing label goes to the zero byte before the question
      q[0] := 0;
      return true;
    }
    ok := FillBackwards(name, q);
  }

  // ---------------------------------------------------------------- reading a name

  /** A received message ends at `last`; the byte behind it is there, and a pointer that the end cuts takes it in. */
  datatype Memory = Memory(bytes: Text, last: nat)

  type Message = m: Memory | m.last < |m.bytes| witness Memory([0], 0)

  /** What a message holds at some point: labels, or nothing that can be read. */
  datatype Read = Name(labels: seq<Text>) | Invalid

  const STEPS := 128

  predicate IsPointer(n: byte) {
    n >= 64
  }

  /** The low six bits of the first byte and the second byte. */
  function Target(high: byte, low: byte): nat {
    (if high < 64 then high else if high < 128 then high - 64 else if high < 192 then high - 128 else high - 192) * 256 + low
  }

  /** Where reading goes on behind the label or the pointer at p. */
  function Behind(m: Message, p: nat): nat
    requires p < m.last
  {
    var n := m.bytes[p];
    if IsPointer(n) then Target(n, m.bytes[p + 1]) else p + 1 + n
  }

  function LabelAt(m: Message, p: nat): seq<Text>
    requires p < m.last && Behind(m, p) < m.last
  {
    if IsPointer(m.bytes[p]) then [] else [m.bytes[p + 1..Behind(m, p)]]
  }

  function Prepend(ls: seq<Text>, rest: Read): Read {
    if rest.Name? then Name(ls + rest.labels) else rest
  }

  /** The labels from p on, in at most `steps` labels and pointers. */
  function Decode(m: Message, p: nat, steps: nat): Read
    requires p < m.last
    decreases steps, m.last
  {
    if steps == 0 then Invalid
    else if m.bytes[p] == 0 then Name([])
    else if Behind(m, p) >= m.last then Invalid
    else Prepend(LabelAt(m, p), Decode(m, Behind(m, p), steps - 1))
  }

  lemma {:induction false} FilledPrefix(t: Text, k: nat)
    requires k <= Lead(t)
    ensures Filled(t) == t[..k] + Filled(t[k..])
    decreases k
  {
    if k > 0 {
      FilledPrefix(t[1..], k - 1);
      assert t[1..][k - 1..] == t[k..] && t[..k] == [t[0]] + t[1..][..k - 1];
    } else {
      assert t[0..] == t;
    }
  }

  /** The counted form of a single label. */
  lemma CountedOnce(t: Text)
    requires Lead(t) == |t|
    ensures Counted(t) == [LengthByte(|t|)] + t
  {
    FilledPrefix(t, |t|);
    assert t[|t|..] == [] && t[..|t|] == t;
    assert t + Filled([]) == t;
  }

  /** The counted form of a name: its first label, and the counted form of what follows the dot. */
  lemma CountedMore(t: Text)
    requires Lead(t) < |t|
    ensures Counted(t) == [LengthByte(Lead(t))] + (t[..Lead(t)] + Counted(t[Lead(t) + 1..]))
  {
    var k := Lead(t);
    FilledPrefix(t, k);
    FilledFromDot(t, k);
    assert Filled(t) == t[..k] + Counted(t[k + 1..]);
  }

  lemma Regroup(x: Text, y: Text, z: Text, w: Text)
    ensures (x + (y + z)) + w == x + y + (z + w)
    ensures (x + y) + w == x + y + w
  {
  }

  lemma FilledFromDot(t: Text, k: nat)
    requires k < |t| && t[k] == DOT
    ensures Filled(t[k..]) == Counted(t[k + 1..])
  {
    assert t[k..][0] == DOT && t[k..][1..] == t[k + 1..];
  }

  /** Labels that fit their length byte. */
  ghost predicate Fit(ls: seq<Text>) {
    forall i | 0 <= i < |ls| :: 1 <= |ls[i]| <= 63
  }

  /** These bytes lie at p, within the message. */
  ghost predicate LiesAt(m: Message, p: nat, t: Text) {
    p + |t| <= m.last && m.bytes[p..p + |t|] == t
  }

  lemma LiesApart(m: Message, p: nat, x: Text, y: Text)
    requires LiesAt(m, p, x + y)
    ensures LiesAt(m, p, x) && LiesAt(m, p + |x|, y)
  {
    assert m.bytes[p..p + |x|] == (x + y)[..|x|];
    assert m.bytes[p + |x|..p + |x| + |y|] == (x + y)[|x|..];
  }

  /** A label and its length before it. */
  lemma LabelLies(m: Message, p: nat, first: Text)
    requires 1 <= |first| <= 63 && LiesAt(m, p, [|first|] + first)
    ensures m.bytes[p] == |first| && m.bytes[p + 1..p + 1 + |first|] == first
  {
    LiesApart(m, p, [|first|], first);
    assert m.bytes[p] == m.bytes[p..p + 1][0];
  }

  lemma DecodeStep(m: Message, p: nat, first: Text, steps: nat)
    requires 1 <= |first| <= 63 && p + 1 + |first| < m.last && steps > 0
    requires m.bytes[p] == |first| && m.bytes[p + 1..p + 1 + |first|] == first
    ensures Decode(m, p, steps) == Prepend([first], Decode(m, p + 1 + |first|, steps - 1))
  {
  }

  lemma EndStep(m: Message, p: nat, n: nat, steps: nat)
    requires 1 <= n <= 63 && p + 1 + n < m.last && m.bytes[p] == n && Decode(m, p, steps).Name? && steps > 0
    requires Decode(m, p + 1 + n, steps - 1).Name?
    ensures EndsByPointer(m, p, steps) <==>
      if Decode(m, p + 1 + n, steps - 1).labels == [] then m.bytes[p + 1 + n] != 0 else EndsByPointer(m, p + 1 + n, steps - 1)
  {
  }

  lemma DecodeLabel(m: Message, p: nat, first: Text, steps: nat)
    requires 1 <= |first| <= 63 && LiesAt(m, p, [|first|] + first) && p + 1 + |first| < m.last && steps > 0
    ensures Decode(m, p, steps) == Prepend([first], Decode(m, p + 1 + |first|, steps - 1))
  {
    LabelLies(m, p, first);
    DecodeStep(m, p, first, steps);
  }

  lemma LiesSplit(m: Message, p: nat, t: Text, x: Text, y: Text)
    requires LiesAt(m, p, t) && t == x + y
    ensures LiesAt(m, p, x) && LiesAt(m, p + |x|, y)
  {
    LiesApart(m, p, x, y);
  }

  lemma ZeroLies(m: Message, p: nat)
    requires LiesAt(m, p, [0])
    ensures p < m.last && m.bytes[p] == 0
  {
    assert m.bytes[p] == m.bytes[p..p + 1][0];
  }

  lemma LastShape(t: Text, c: Text)
    requires Lead(t) == |t| <= 63 && c == Counted(t)
    ensures c == [|t|] + t
  {
    CountedOnce(t);
  }

  lemma FirstShape(t: Text, first: Text, more: Text, c: Text, d: Text)
    requires Lead(t) < |t| && Lead(t) <= 63 && first == t[..Lead(t)] && more == t[Lead(t) + 1..]
    requires c == Counted(t) && d == Counted(more)
    ensures c == [|first|] + (first + d)
  {
    CountedMore(t);
  }

  /** A last label, and the zero behind it. */
  lemma LastLabelLies(m: Message, p: nat, t: Text)
    requires |t| <= 63 && LiesAt(m, p, ([|t|] + t) + [0])
    ensures LiesAt(m, p, [|t|] + t) && p + 1 + |t| < m.last && m.bytes[p + 1 + |t|] == 0
  {
    LiesSplit(m, p, ([|t|] + t) + [0], [|t|] + t, [0]);
    ZeroLies(m, p + 1 + |t|);
  }

  /** The first of several labels, and the others behind it. */
  lemma FirstLabelLies(m: Message, p: nat, first: Text, d: Text)
    requires |first| <= 63 && LiesAt(m, p, ([|first|] + (first + d)) + [0])
    ensures LiesAt(m, p, [|first|] + first) && LiesAt(m, p + 1 + |first|, d + [0])
  {
    Regroup([|first|], first, d, [0]);
    LiesSplit(m, p, ([|first|] + (first + d)) + [0], [|first|] + first, d + [0]);
  }

  lemma CountedLies(m: Message, p: nat, t: Text, first: Text, more: Text, c: Text, d: Text)
    requires Lead(t) < |t| && Lead(t) <= 63 && first == t[..Lead(t)] && more == t[Lead(t) + 1..]
    requires c == Counted(t) && d == Counted(more) && LiesAt(m, p, c + [0])
    ensures LiesAt(m, p, [|first|] + first) && LiesAt(m, p + 1 + |first|, d + [0])
  {
    FirstShape(t, first, more, c, d);
    FirstLabelLies(m, p, first, d);
  }

  /** Counted labels and a zero lie at p, within the message. */
  ghost predicate LabelsLie(m: Message, p: nat, ls: seq<Text>)
    decreases |ls|
  {
    p < m.last &&
    if ls == [] then m.bytes[p] == 0
    else 1 <= |ls[0]| <= 63 && LiesAt(m, p, [|ls[0]|] + ls[0]) && LabelsLie(m, p + 1 + |ls[0]|, ls[1..])
  }

  /** A label before what is read. */
  lemma LabelBefore(m: Message, p: nat, first: Text, rest: seq<Text>, steps: nat)
    requires 1 <= |first| <= 63 && LiesAt(m, p, [|first|] + first) && p + 1 + |first| < m.last && steps > 0
    requires Decode(m, p + 1 + |first|, steps - 1) == Name(rest) && !EndsByPointer(m, p + 1 + |first|, steps - 1)
    requires rest == [] ==> m.bytes[p + 1 + |first|] == 0
    ensures Decode(m, p, steps) == Name([first] + rest) && !EndsByPointer(m, p, steps)
  {
    LabelLies(m, p, first);
    DecodeStep(m, p, first, steps);
    EndStep(m, p, |first|, steps);
  }

  /** Labels that lie there are read, and nothing of them is a pointer. */
  lemma {:induction false} LabelsAreRead(m: Message, p: nat, ls: seq<Text>, steps: nat)
    requires LabelsLie(m, p, ls) && |ls| < steps
    ensures Decode(m, p, steps) == Name(ls) && !EndsByPointer(m, p, steps)
    decreases |ls|
  {
    if ls != [] {
      var q := p + 1 + |ls[0]|;
      LabelsAreRead(m, q, ls[1..], steps - 1);
      LabelBefore(m, p, ls[0], ls[1..], steps);
      assert ls == [ls[0]] + ls[1..];
    }
  }

  /** What the first dot splits off. */
  lemma LabelsMore(t: Text, first: Text, more: Text)
    requires Lead(t) < |t| && first == t[..Lead(t)] && more == t[Lead(t) + 1..]
    ensures Labels(t) == [first] + Labels(more)
  {
  }

  lemma LabelsLast(t: Text)
    requires Lead(t) == |t|
    ensures Labels(t) == [t]
  {
  }

  lemma FitCons(first: Text, rest: seq<Text>)
    requires Fit([first] + rest)
    ensures 1 <= |first| <= 63 && Fit(rest)
  {
    var ls := [first] + rest;
    assert ls[0] == first;
    forall i | 0 <= i < |rest|
      ensures 1 <= |rest[i]| <= 63
    {
      assert rest[i] == ls[i + 1];
    }
  }

  /** A name of several labels: the first one, and a shorter name behind it. */
  lemma CountedSplits(m: Message, p: nat, t: Text, first: Text, more: Text)
    requires Fit(Labels(t)) && Lead(t) < |t| && first == t[..Lead(t)] && more == t[Lead(t) + 1..]
    requires LiesAt(m, p, Counted(t) + [0])
    ensures Labels(t) == [first] + Labels(more) && Fit(Labels(more)) && 1 <= |first| <= 63
    ensures LiesAt(m, p, [|first|] + first) && LiesAt(m, p + 1 + |first|, Counted(more) + [0])
  {
    LabelsMore(t, first, more);
    FitCons(first, Labels(more));
    CountedLies(m, p, t, first, more, Counted(t), Counted(more));
  }

  lemma LastCountedLies(m: Message, p: nat, t: Text)
    requires Fit(Labels(t)) && Lead(t) == |t| && LiesAt(m, p, Counted(t) + [0])
    ensures LabelsLie(m, p, Labels(t))
  {
    LabelsLast(t);
    FitCons(t, []);
    LastShape(t, Counted(t));
    LastLabelLies(m, p, t);
  }

  lemma LabelsLieCons(m: Message, p: nat, first: Text, rest: seq<Text>, all: seq<Text>)
    requires 1 <= |first| <= 63 && LiesAt(m, p, [|first|] + first) && LabelsLie(m, p + 1 + |first|, rest)
    requires all == [first] + rest
    ensures LabelsLie(m, p, all)
  {
    assert all[1..] == rest;
  }

  /** Where a counted name and a zero lie, its labels do. */
  lemma {:induction false} CountedIsLabels(m: Message, p: nat, t: Text, ls: seq<Text>)
    requires ls == Labels(t) && Fit(ls) && LiesAt(m, p, Counted(t) + [0])
    ensures LabelsLie(m, p, ls)
    decreases |t|
  {
    if Lead(t) == |t| {
      LastCountedLies(m, p, t);
    } else {
      var first, more := t[..Lead(t)], t[Lead(t) + 1..];
      CountedSplits(m, p, t, first, more);
      CountedIsLabels(m, p + 1 + |first|, more, Labels(more));
      LabelsLieCons(m, p, first, Labels(more), ls);
    }
  }

  /** Only empty labels after the first make the builder give up. */
  lemma {:induction false} FitHasNoEmptyLabel(t: Text, i: nat)
    requires Fit(Labels(t)) && i < |t|
    ensures !EmptyAt(t, i)
    decreases |t|
  {
    var k := Lead(t);
    if k < |t| {
      var rest := t[k + 1..];
      assert Labels(t)[1..] == Labels(rest);
      if i > k {
        FitHasNoEmptyLabel(rest, i - k - 1);
        assert rest[i - k - 1] == t[i];
      } else if i == k {
        assert |Labels(rest)[0]| >= 1;
        assert |rest| > 0 && rest[0] != DOT;
        assert rest[0] == t[k + 1];
      }
    }
  }

  /** Every name of at most 127 labels of 1 to 63 bytes is built, and read back wherever the question lies. */
  lemma NameRoundTrip(name: Text, m: Message, p: nat)
    requires Fit(Labels(name)) && |Labels(name)| <= 127 && LiesAt(m, p, Wire(name))
    ensures !HasEmptyLabel(name)
    ensures p < m.last && Decode(m, p, STEPS) == Name(Labels(name)) && Dotted(Labels(name)) == name
    ensures Copied(m, p, STEPS) == name
  {
    forall i | 0 <= i < |name|
      ensures !EmptyAt(name, i)
    {
      FitHasNoEmptyLabel(name, i);
    }
    assert |Labels(name)[0]| >= 1;
    CountedIsLabels(m, p, name, Labels(name));
    LabelsAreRead(m, p, Labels(name), STEPS);
    LabelsMakeTheName(name);
    CopiedIs(m, p, STEPS);
  }

  // ---------------------------------------------------------------- the two passes of the decoder

  /** The bytes that labels and the dots between them take; -1 for no label. */
  function Measure(ls: seq<Text>): int {
    if ls == [] then -1 else 1 + |ls[0]| + Measure(ls[1..])
  }

  lemma {:induction false} MeasureIsLength(ls: seq<Text>)
    requires ls != []
    ensures Measure(ls) == |Dotted(ls)|
    decreases |ls|
  {
    if |ls| > 1 {
      MeasureIsLength(ls[1..]);
    } else {
      assert ls[1..] == [];
    }
  }

  /** What is still to be read accounts for the rest of the length. */
  ghost predicate MeasuredSoFar(all: Read, todo: Read, len: int) {
    if all.Name? then todo.Name? && len + 1 + Measure(todo.labels) == Measure(all.labels) else todo == all
  }

  lemma MeasureTurn(all: Read, m: Message, p: nat, steps: nat, len: int)
    requires p < m.last && steps > 0 && MeasuredSoFar(all, Decode(m, p, steps), len)
    ensures m.bytes[p] == 0 ==> all.Name? && len == Measure(all.labels)
    ensures m.bytes[p] != 0 && Behind(m, p) >= m.last ==> all == Invalid
    ensures m.bytes[p] != 0 && Behind(m, p) < m.last ==>
      MeasuredSoFar(all, Decode(m, Behind(m, p), steps - 1), if IsPointer(m.bytes[p]) then len else len + 1 + m.bytes[p])
  {
    if m.bytes[p] != 0 && Behind(m, p) < m.last {
      var rest := Decode(m, Behind(m, p), steps - 1);
      if rest.Name? {
        MeasureMore(LabelAt(m, p), rest.labels);
      }
    }
  }

  lemma MeasureMore(ls: seq<Text>, rest: seq<Text>)
    requires |ls| <= 1
    ensures Measure(ls + rest) == (if ls == [] then 0 else 1 + |ls[0]|) + Measure(rest)
  {
    if ls == [] {
      assert ls + rest == rest;
    } else {
      assert (ls + rest)[1..] == rest;
    }
  }

  /** The first loop of ngx_resolver_copy: the length of the name. */
  method MeasurePass(m: Message, src: nat) returns (r: Read, len: int)
    requires src < m.last
    ensures var d := Decode(m, src, STEPS);
      if d.Name? then r.Name? && len == Measure(d.labels) else r == d
  {
    len := -1;
    var p: nat, i: nat := src, 0;
    ghost var all := Decode(m, src, STEPS);
    while i < STEPS
      invariant 0 <= i <= STEPS && p < m.last
      invariant MeasuredSoFar(all, Decode(m, p, STEPS - i), len)
    {
      MeasureTurn(all, m, p, STEPS - i, len);
      var n := m.bytes[p];
      if n == 0 {
        return Name([]), len;
      }
      if IsPointer(n) {
        p := Target(n, m.bytes[p + 1]);
      } else {
        len := len + 1 + n;
        p := p + 1 + n;
      }
      if p >= m.last {
        return Invalid, len;
      }
      i := i + 1;
    }
    return Invalid, len;
  }

  /** What the copying loop writes from the length byte at p on.  It writes the dot when it sees that more follows. */
  ghost function Copied(m: Message, p: nat, steps: nat): Text
    requires p < m.last && Decode(m, p, steps).Name?
    decreases steps, m.last
  {
    if m.bytes[p] == 0 then []
    else
      var q := Behind(m, p);
      if IsPointer(m.bytes[p]) then Copied(m, q, steps - 1)
      else if m.bytes[q] == 0 then m.bytes[p + 1..q]
      else m.bytes[p + 1..q] + ([DOT] + Copied(m, q, steps - 1))
  }

  /** Behind the last label there is not the zero that ends a name but a pointer that leads to one. */
  ghost predicate EndsByPointer(m: Message, p: nat, steps: nat)
    requires p < m.last && Decode(m, p, steps).Name?
    decreases steps, m.last
  {
    m.bytes[p] != 0 &&
    var q := Behind(m, p);
    if !IsPointer(m.bytes[p]) && Decode(m, q, steps - 1).labels == [] then m.bytes[q] != 0
    else EndsByPointer(m, q, steps - 1)
  }

  lemma CopiedLabel(first: Text, rest: seq<Text>, dot: Text, copied: Text)
    requires rest != [] && copied == Dotted(rest) + dot
    ensures first + ([DOT] + copied) == Dotted([first] + rest) + dot
  {
    DottedCons(first, rest);
    Joined(first, [DOT] + Dotted(rest), dot);
    Joined([DOT], Dotted(rest), dot);
  }

  lemma PointerCopies(m: Message, p: nat, steps: nat)
    requires p < m.last && Decode(m, p, steps).Name? && IsPointer(m.bytes[p])
    ensures var q := Behind(m, p);
      && Decode(m, q, steps - 1) == Decode(m, p, steps) && Copied(m, p, steps) == Copied(m, q, steps - 1)
      && EndsByPointer(m, p, steps) == EndsByPointer(m, q, steps - 1)
  {
    var rest := Decode(m, Behind(m, p), steps - 1);
    assert LabelAt(m, p) + rest.labels == rest.labels;
  }

  lemma LabelThenRest(m: Message, p: nat, steps: nat)
    requires p < m.last && Decode(m, p, steps).Name? && m.bytes[p] != 0 && !IsPointer(m.bytes[p])
    ensures var q := Behind(m, p); Decode(m, p, steps) == Prepend([m.bytes[p + 1..q]], Decode(m, q, steps - 1))
  {
  }

  lemma LastLabelCopies(m: Message, p: nat, steps: nat)
    requires p < m.last && Decode(m, p, steps).Name? && m.bytes[p] != 0 && !IsPointer(m.bytes[p])
    requires Decode(m, Behind(m, p), steps - 1) == Name([])
    ensures var first, ends := m.bytes[p + 1..Behind(m, p)], EndsByPointer(m, p, steps);
      Copied(m, p, steps) == first + if ends then [DOT] else []
  {
    NothingCopied(m, Behind(m, p), steps - 1);
  }

  lemma LabelCopies(m: Message, p: nat, steps: nat, rest: seq<Text>, copied: Text, dot: Text)
    requires p < m.last && Decode(m, p, steps).Name? && m.bytes[p] != 0 && !IsPointer(m.bytes[p])
    requires var q := Behind(m, p);
      && rest == Decode(m, q, steps - 1).labels && copied == Copied(m, q, steps - 1) == Dotted(rest) + dot
      && dot == if EndsByPointer(m, q, steps - 1) then [DOT] else []
    ensures Copied(m, p, steps) ==
      Dotted(Decode(m, p, steps).labels) + if EndsByPointer(m, p, steps) then [DOT] else []
  {
    var first := m.bytes[p + 1..Behind(m, p)];
    LabelThenRest(m, p, steps);
    if rest == [] {
      DottedCons(first, rest);
      LastLabelCopies(m, p, steps);
    } else {
      CopiedLabel(first, rest, dot, copied);
    }
  }

  /** The copying loop writes the labels with dots between them, and one dot more after such an end. */
  lemma {:induction false} CopiedIs(m: Message, p: nat, steps: nat)
    requires p < m.last && Decode(m, p, steps).Name?
    ensures Copied(m, p, steps) ==
      Dotted(Decode(m, p, steps).labels) + if EndsByPointer(m, p, steps) then [DOT] else []
    decreases steps
  {
    if m.bytes[p] != 0 {
      var q := Behind(m, p);
      CopiedIs(m, q, steps - 1);
      if IsPointer(m.bytes[p]) {
        PointerCopies(m, p, steps);
      } else {
        LabelCopies(m, p, steps, Decode(m, q, steps - 1).labels, Copied(m, q, steps - 1),
                    if EndsByPointer(m, q, steps - 1) then [DOT] else []);
      }
    }
  }

  lemma DottedCons(first: Text, rest: seq<Text>)
    ensures Dotted([first] + rest) == if rest == [] then first else first + ([DOT] + Dotted(rest))
  {
    assert ([first] + rest)[1..] == rest;
  }

  lemma {:induction false} NothingCopied(m: Message, p: nat, steps: nat)
    requires p < m.last && Decode(m, p, steps) == Name([])
    ensures Copied(m, p, steps) == [] && !EndsByPointer(m, p, steps)
    decreases steps
  {
    if m.bytes[p] != 0 {
      assert IsPointer(m.bytes[p]);
      NothingCopied(m, Behind(m, p), steps - 1);
    }
  }

  /** The copying loop writes as many bytes as were measured if and only if the name does not end by a pointer. */
  lemma MeasuredIsCopiedIff(m: Message, p: nat)
    requires p < m.last && Decode(m, p, STEPS).Name? && Decode(m, p, STEPS).labels != []
    ensures |Copied(m, p, STEPS)| == Measure(Decode(m, p, STEPS).labels) <==> !EndsByPointer(m, p, STEPS)
    ensures |Copied(m, p, STEPS)| <= Measure(Decode(m, p, STEPS).labels) + 1
  {
    CopiedIs(m, p, STEPS);
    MeasureIsLength(Decode(m, p, STEPS).labels);
  }

  /** "\3www" and a pointer to a zero: three bytes are measured, "www." is copied. */
  lemma DotIsNotMeasured()
    ensures var m: Message := Memory([3, 119, 119, 119, 192, 6, 0, 0], 7);
      && Decode(m, 0, STEPS) == Name([[119, 119, 119]]) && Measure(Decode(m, 0, STEPS).labels) == 3
      && Copied(m, 0, STEPS) == [119, 119, 119, DOT]
  {
    var m: Message := Memory([3, 119, 119, 119, 192, 6, 0, 0], 7);
    var k := STEPS;
    assert Behind(m, 0) == 4 && Behind(m, 4) == 6 && m.bytes[1..4] == [119, 119, 119];
    assert Decode(m, 6, k - 2) == Name([]);
    assert Decode(m, 4, k - 1) == Name([]);
    assert Decode(m, 0, k) == Prepend([[119, 119, 119]], Decode(m, 4, k - 1));
    var ls: seq<Text> := [[119, 119, 119]];
    assert ls + [] == ls && ls[1..] == [] && Measure(ls[1..]) == -1;
    NothingCopied(m, 4, k - 1);
    assert [DOT] + Copied(m, 4, k - 1) == [DOT];
  }

  /** ngx_memcpy into the name */
  method Put(dst: array<byte>, at: nat, bytes: Text)
    requires at + |bytes| <= dst.Length
    modifies dst
    ensures dst[..at + |bytes|] == old(dst[..at]) + bytes
  {
    var i := 0;
    while i < |bytes|
      invariant 0 <= i <= |bytes| && dst[..at + i] == old(dst[..at]) + bytes[..i]
    {
      dst[at + i] := bytes[i];
      i := i + 1;
    }
    assert bytes[..i] == bytes;
  }

  /** A label and, unless it is the last thing of the name, a dot. */
  method CopyLabel(m: Message, src: nat, dst: array<byte>, at: nat, ghost steps: nat) returns (src': nat, at': nat)
    requires src < m.last && Decode(m, src, steps).Name? && m.bytes[src] != 0 && !IsPointer(m.bytes[src])
    requires at + |Copied(m, src, steps)| <= dst.Length
    modifies dst
    ensures src' == Behind(m, src) && at <= at' <= dst.Length
    ensures dst[..at'] + Copied(m, src', steps - 1) == old(dst[..at]) + Copied(m, src, steps)
  {
    ghost var done := dst[..at];
    var n := m.bytes[src];
    src', at' := src + 1 + n, at + n;
    Put(dst, at, m.bytes[src + 1..src']);
    if m.bytes[src'] != 0 {
      ghost var here, more := m.bytes[src + 1..src'], Copied(m, src', steps - 1);
      Joined(done, here, [DOT] + more);
      Joined(done + here, [DOT], more);
      Put(dst, at', [DOT]);
      at' := at' + 1;
    }
  }

  /** The second loop, and how much of the buffer it fills. */
  method CopyPass(m: Message, start: nat, dst: array<byte>) returns (len: nat)
    requires start < m.last && Decode(m, start, STEPS).Name? && Decode(m, start, STEPS).labels != []
    requires dst.Length >= |Copied(m, start, STEPS)|
    modifies dst
    ensures len <= dst.Length && dst[..len] == Copied(m, start, STEPS)
  {
    ghost var all, k: nat := Copied(m, start, STEPS), STEPS;
    var src: nat := start;
    len := 0;
    assert dst[..0] + all == all;
    while true
      invariant src < m.last && Decode(m, src, k).Name? && m.bytes[src] != 0
      invariant len <= dst.Length && dst[..len] + Copied(m, src, k) == all && |all| <= dst.Length
      decreases k
    {
      var n := m.bytes[src];
      assert len + |Copied(m, src, k)| == |all|;
      if IsPointer(n) {
        src := Target(n, m.bytes[src + 1]);
      } else {
        src, len := CopyLabel(m, src, dst, len, k);
      }
      k := k - 1;
      if m.bytes[src] == 0 {
        break;
      }
    }
    assert dst[..len] + [] == dst[..len];
  }

  lemma Joined(x: Text, y: Text, z: Text)
    ensures x + (y + z) == (x + y) + z && (z == [] ==> x + (y + z) == x + y)
  {
  }

  /** ngx_resolver_copy.  The block that holds the name has room for one byte more than was measured, to describe what
    * the copying loop writes there. */
  method CopyName(m: Message, src: nat) returns (r: Read, name: Text)
    requires src < m.last
    ensures var d := Decode(m, src, STEPS);
      && (if d.Name? then r.Name? && name == Copied(m, src, STEPS) else r == d)
      && (d.Name? && !EndsByPointer(m, src, STEPS) ==> name == Dotted(d.labels))
  {
    var len;
    r, len := MeasurePass(m, src);
    name := [];
    if r.Name? {
      ghost var ls := Decode(m, src, STEPS).labels;
      MeasureIsNatural(ls);
      CopiedIs(m, src, STEPS);
      if len == -1 {
        NothingCopied(m, src, STEPS);
      } else {
        MeasuredIsCopiedIff(m, src);
        var dst := new byte[len + 1](i => 0);
        var n := CopyPass(m, src, dst);
        name := dst[..n];
      }
    }
  }

  lemma {:induction false} MeasureIsNatural(ls: seq<Text>)
    ensures if ls == [] then Measure(ls) == -1 else Measure(ls) >= 0
    decreases |ls|
  {
    if ls != [] {
      MeasureIsNatural(ls[1..]);
    }
  }

  // ---------------------------------------------------------------- addresses

  /** The octets of an address, the lowest first. */
  function Split(addr: nat): seq<byte> {
    [addr % 256, addr / 0x100 % 256, addr / 0x1_0000 % 256, addr / 0x100_0000 % 256]
  }

  /** Octets shifted to their places and added up. */
  function Value(o: seq<nat>): nat {
    if o == [] then 0 else o[0] + 256 * Value(o[1..])
  }

  lemma SplitValue(addr: nat)
    requires addr < 0x1_0000_0000
    ensures Value(Split(addr)) == addr
  {
    var o := Split(addr);
    var o1, o2, o3 := o[1..], o[1..][1..], o[1..][1..][1..];
    assert o1 == [o[1], o[2], o[3]] && o2 == [o[2], o[3]] && o3 == [o[3]] && o3[1..] == [];
    assert Value(o3) == o[3];
    assert Value(o2) == o[2] + 256 * Value(o3);
    assert Value(o1) == o[1] + 256 * Value(o2);
    assert addr == addr % 256 + 256 * (addr / 0x100);
    assert addr / 0x100 == addr / 0x100 % 256 + 256 * (addr / 0x1_0000);
    assert addr / 0x1_0000 == addr / 0x1_0000 % 256 + 256 * (addr / 0x100_0000);
  }

  /** The counted octets. */
  function Octets(o: seq<byte>): Text {
    if o == [] then [] else [LengthByte(|Inet.Dec(o[0])|)] + Inet.Dec(o[0]) + Octets(o[1..])
  }

  /** "\7in-addr\4arpa" and the byte that ends a name */
  const ARPA: Text := [7, 105, 110, 45, 97, 100, 100, 114, 4, 97, 114, 112, 97, 0]

  /** ngx_resolver_create_addr_query: the name in the question */
  method BuildAddr(addr: nat) returns (q: Text)
    requires addr < 0x1_0000_0000
    ensures q == Octets(Split(addr)) + ARPA
  {
    q := [];
    var o, n := Split(addr), 0;
    assert o[0..] == o && q + Octets(o) == Octets(o);
    while n < 4
      invariant 0 <= n <= 4 && q + Octets(o[n..]) == Octets(o)
    {
      ghost var was := q;
      var d := Inet.Dec(o[n]);
      q := q + [LengthByte(|d|)] + d;
      assert o[n..][1..] == o[n + 1..];
      OctetsStep(was, [LengthByte(|d|)], d, Octets(o[n + 1..]));
      n := n + 1;
    }
    assert o[4..] == [] && q + [] == q;
    q := q + ARPA;
  }

  lemma OctetsStep(w: Text, x: Text, y: Text, z: Text)
    ensures w + (x + y + z) == (w + x + y) + z
  {
  }

  /** ngx_atoi on the digits of a label; None for its errors.  The count of tens wraps around. */
  function Atoi(t: Text, value: nat): Option<nat> {
    if t == [] then (if value < TWO64 / 2 then Some(value) else None)
    else if !IsDigit(t[0]) then None
    else Atoi(t[1..], Inet.TimesTen(value, t[0] - ZERO))
  }

  function Octet(t: Text): Option<nat> {
    if t == [] then None
    else
      var d := Atoi(t, 0);
      if d.Some? && d.value > 255 then None else d
  }

  /** The address-decoding part of ngx_resolver_process_ptr: k octets, and then the given end. */
  function ReadOctets(q: Text, k: nat, end: Text): Option<seq<nat>>
    decreases k, |q|
  {
    if k == 0 then (if end <= q then Some([]) else None)
    else if q == [] || 1 + q[0] > |q| then None
    else Before(Octet(q[1..1 + q[0]]), ReadOctets(q[1 + q[0]..], k - 1, end))
  }

  function Before(d: Option<nat>, rest: Option<seq<nat>>): Option<seq<nat>> {
    if d.Some? && rest.Some? then Some([d.value] + rest.value) else None
  }

  /** The address in the question at p.  The octets are read without regard to pointers. */
  function ReadAddr(m: Message, p: nat): Option<nat>
    requires p < m.last
  {
    var o := ReadOctets(m.bytes[p..], 4, ARPA);
    if Decode(m, p, STEPS).Name? && o.Some? then Some(Value(o.value)) else None
  }

  lemma {:induction false} AtoiOfDec(n: nat, rest: Text)
    requires n < 0x1_0000
    ensures Atoi(Inet.Dec(n) + rest, 0) == Atoi(rest, n)
    decreases n
  {
    if n < 10 {
      assert ([ZERO + n] + rest)[1..] == rest;
    } else {
      var d: byte := ZERO + n % 10;
      assert Inet.Dec(n) + rest == Inet.Dec(n / 10) + ([d] + rest);
      AtoiOfDec(n / 10, [d] + rest);
      assert ([d] + rest)[1..] == rest;
    }
  }

  lemma OctetOfDec(n: byte)
    ensures Octet(Inet.Dec(n)) == Some(n) && |Inet.Dec(n)| <= 3
  {
    AtoiOfDec(n, []);
    assert Inet.Dec(n) + [] == Inet.Dec(n);
    Inet.DecLength(n);
  }

  lemma FirstOctetIsRead(n: byte, more: Text, k: nat, end: Text)
    requires k > 0
    ensures var d := Inet.Dec(n);
      |d| <= 3 && ReadOctets([|d|] + d + more, k, end) == Before(Some(n), ReadOctets(more, k - 1, end))
  {
    OctetOfDec(n);
    var d := Inet.Dec(n);
    var q := [|d|] + d + more;
    assert q[0] == |d| && q[1..1 + |d|] == d && q[1 + |d|..] == more;
  }

  lemma OctetsSplit(o: seq<byte>, rest: Text)
    requires o != []
    ensures var d := Inet.Dec(o[0]);
      |d| <= 3 && Octets(o) + rest == [|d|] + d + (Octets(o[1..]) + rest)
  {
    OctetOfDec(o[0]);
    var d := Inet.Dec(o[0]);
    Grouped([|d|] + d, Octets(o[1..]), rest);
  }

  lemma Grouped(x: Text, y: Text, z: Text)
    ensures (x + y) + z == x + (y + z)
  {
  }

  /** Reading what was counted. */
  lemma {:induction false} OctetsAreRead(o: seq<byte>, end: Text, rest: Text)
    requires end <= rest
    ensures ReadOctets(Octets(o) + rest, |o|, end) == Some(o)
    decreases |o|
  {
    if o == [] {
      assert Octets(o) + rest == rest;
    } else {
      OctetsSplit(o, rest);
      FirstOctetIsRead(o[0], Octets(o[1..]) + rest, |o|, end);
      OctetsAreRead(o[1..], end, rest);
      assert o == [o[0]] + o[1..];
    }
  }

  /** The question is a name that can be measured. */
  lemma {:induction false} OctetsDecode(m: Message, p: nat, o: seq<byte>, steps: nat)
    requires LiesAt(m, p, Octets(o)) && p + |Octets(o)| < m.last && steps >= |o|
    requires Decode(m, p + |Octets(o)|, steps - |o|).Name?
    ensures Decode(m, p, steps).Name?
    decreases |o|
  {
    if o != [] {
      OctetOfDec(o[0]);
      var d := Inet.Dec(o[0]);
      assert |d| >= 1 && LengthByte(|d|) == |d|;
      LiesApart(m, p, [|d|] + d, Octets(o[1..]));
      OctetsDecode(m, p + 1 + |d|, o[1..], steps - 1);
      DecodeLabel(m, p, d, steps);
    }
  }

  lemma TwoLabelsDecode(m: Message, p: nat, l1: Text, l2: Text, steps: nat)
    requires 1 <= |l1| <= 63 && 1 <= |l2| <= 63 && LiesAt(m, p, ([|l1|] + l1) + (([|l2|] + l2) + [0])) && steps >= 3
    ensures Decode(m, p, steps).Name?
  {
    LiesApart(m, p, [|l1|] + l1, ([|l2|] + l2) + [0]);
    LastLabelLies(m, p + 1 + |l1|, l2);
    LabelsLieCons(m, p + 1 + |l1|, l2, [], [l2]);
    LabelsLieCons(m, p, l1, [l2], [l1, l2]);
    LabelsAreRead(m, p, [l1, l2], steps);
  }

  lemma ArpaDecodes(m: Message, p: nat, steps: nat)
    requires LiesAt(m, p, ARPA) && steps >= 3
    ensures Decode(m, p, steps).Name?
  {
    var l1: Text, l2: Text := [105, 110, 45, 97, 100, 100, 114], [97, 114, 112, 97];
    assert ARPA == ([|l1|] + l1) + (([|l2|] + l2) + [0]);
    TwoLabelsDecode(m, p, l1, l2, steps);
  }

  /** For every IPv4 address, decoding the question built for it returns the address. */
  lemma AddrRoundTrip(addr: nat, m: Message, p: nat)
    requires addr < 0x1_0000_0000 && LiesAt(m, p, Octets(Split(addr)) + ARPA)
    ensures p < m.last && ReadAddr(m, p) == Some(addr)
  {
    var o := Split(addr);
    var q := Octets(o);
    LiesApart(m, p, q, ARPA);
    ArpaDecodes(m, p + |q|, STEPS - 4);
    OctetsDecode(m, p, o, STEPS);
    var rest := m.bytes[p + |q|..];
    assert rest[..|ARPA|] == ARPA;
    assert m.bytes[p..] == q + rest;
    OctetsAreRead(o, ARPA, rest);
    SplitValue(addr);
  }

  /** ngx_resolver_process_ptr up to the address */
  method ParsePtr(m: Message) returns (addr: Option<nat>)
    requires 12 < m.last
    ensures addr == ReadAddr(m, 12)
  {
    var r, len := MeasurePass(m, 12);
    if !r.Name? {
      return None;
    }
    var o := TakeOctets(m.bytes[12..], ARPA);
    return if o.Some? then Some(Value(o.value)) else None;
  }

  /** The loop over the four lowest labels. */
  method TakeOctets(q: Text, end: Text) returns (o: Option<seq<nat>>)
    ensures o == ReadOctets(q, 4, end)
  {
    var digits: seq<nat>, i, k: nat := [], 0, 4;
    ghost var all, todo := ReadOctets(q, 4, end), ReadOctets(q, 4, end);
    assert q[0..] == q;
    Nothing(all);
    while k > 0
      invariant 0 <= i <= |q| && todo == ReadOctets(q[i..], k, end) && all == After(digits, todo)
    {
      var digit := NextOctet(q, i);
      if digit.None? {
        NoOctet(q, i, k, end);
        return None;
      }
      OctetTaken(q, i, k, end, digits, digit.value);
      i := i + 1 + q[i];
      k := k - 1;
      todo := ReadOctets(q[i..], k, end);
      digits := digits + [digit.value];
    }
    assert digits + [] == digits;
    return if end <= q[i..] then Some(digits) else None;
  }

  lemma OctetTaken(q: Text, i: nat, k: nat, end: Text, digits: seq<nat>, d: nat)
    requires i <= |q| && k > 0 && NextOctet(q, i) == Some(d)
    ensures After(digits, ReadOctets(q[i..], k, end)) == After(digits + [d], ReadOctets(q[i + 1 + q[i]..], k - 1, end))
  {
    ReadOctetsStep(q, i, k, end);
    OneMore(digits, d, ReadOctets(q[i + 1 + q[i]..], k - 1, end));
  }

  /** The label at i as an octet, if there is one. */
  function NextOctet(q: Text, i: nat): (d: Option<nat>)
    requires i <= |q|
    ensures d.Some? ==> i < |q| && i + 1 + q[i] <= |q| && d == Octet(q[i + 1..i + 1 + q[i]])
  {
    if i == |q| || i + 1 + q[i] > |q| then None else Octet(q[i + 1..i + 1 + q[i]])
  }

  lemma NoOctet(q: Text, i: nat, k: nat, end: Text)
    requires i <= |q| && k > 0 && NextOctet(q, i) == None
    ensures ReadOctets(q[i..], k, end) == None
  {
    if i < |q| && i + 1 + q[i] <= |q| {
      ReadOctetsStep(q, i, k, end);
    }
  }

  ghost function After(digits: seq<nat>, rest: Option<seq<nat>>): Option<seq<nat>> {
    if rest.Some? then Some(digits + rest.value) else None
  }

  lemma Nothing(all: Option<seq<nat>>)
    ensures After([], all) == all
  {
    if all.Some? {
      assert [] + all.value == all.value;
    }
  }

  lemma OneMore(digits: seq<nat>, d: nat, rest: Option<seq<nat>>)
    ensures After(digits, Before(Some(d), rest)) == After(digits + [d], rest)
  {
    if rest.Some? {
      assert digits + ([d] + rest.value) == digits + [d] + rest.value;
    }
  }

  lemma ReadOctetsStep(q: Text, i: nat, k: nat, end: Text)
    requires k > 0 && i < |q| && i + 1 + q[i] <= |q|
    ensures var n := q[i];
      ReadOctets(q[i..], k, end) == Before(Octet(q[i + 1..i + 1 + n]), ReadOctets(q[i + 1 + n..], k - 1, end))
  {
    var n := q[i];
    assert q[i..][1..1 + n] == q[i + 1..i + 1 + n] && q[i..][1 + n..] == q[i + 1 + n..];
  }
}
