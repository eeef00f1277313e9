/** The event pipe (src/event/ngx_event_pipe.c) from an upstream to a client, with the copy input filter.
  *
  * Raw buffers are memory that is used again and again; the buffers handed on refer to that memory or to a range
  * of the temporary file.  A raw buffer is free, or referred to by one buffer of the incoming chain, or by one
  * buffer that the output filter has not sent yet.  The temporary file is only ever appended to: every caller
  * leaves cyclic_temp_file off.
  */
module Pipe {
  import opened Bytes

  type Text = seq<byte>
  type Id = nat

  /** The bytes between pos and last, the room behind them, and the size of the whole memory. */
  datatype Raw = Raw(data: Text, room: nat, size: nat)

  /** A buffer for the output filter: a raw buffer's contents, or a range of the temporary file. */
  datatype Buf = InMemory(raw: Id) | InFile(from: nat, to: nat)

  /** The chains; `incoming` is p->in, always in memory, and `out` is always in the file.  `header` is
    * p->buf_to_file, which precedes everything else in the file. */
  datatype State = State(
    raws: seq<Raw>, free: seq<Id>, incoming: seq<Id>, out: seq<Buf>, busy: seq<Buf>, file: Text,
    header: Option<Text>)

  // ---------------------------------------------------------------- what the chains hold

  function Stored(raws: seq<Raw>, id: Id): Text {
    if id < |raws| then raws[id].data else []
  }

  function MemText(raws: seq<Raw>, ids: seq<Id>): Text {
    if ids == [] then [] else Stored(raws, ids[0]) + MemText(raws, ids[1..])
  }

  function BufText(raws: seq<Raw>, file: Text, b: Buf): Text {
    match b
    case InMemory(id) => Stored(raws, id)
    case InFile(from, to) => if from <= to <= |file| then file[from..to] else []
  }

  function ChainText(raws: seq<Raw>, file: Text, bufs: seq<Buf>): Text {
    if bufs == [] then [] else BufText(raws, file, bufs[0]) + ChainText(raws, file, bufs[1..])
  }

  function Owned(b: Buf): seq<Id> {
    if b.InMemory? then [b.raw] else []
  }

  /** The raw buffers a chain refers to. */
  function RawsOf(bufs: seq<Buf>): seq<Id> {
    if bufs == [] then [] else Owned(bufs[0]) + RawsOf(bufs[1..])
  }

  /** Everything read and not yet sent, in order; only the first free buffer holds anything. */
  function Unsent(s: State): Text {
    ChainText(s.raws, s.file, s.busy) + ChainText(s.raws, s.file, s.out) + MemText(s.raws, s.incoming)
    + MemText(s.raws, s.free)
  }

  // ---------------------------------------------------------------- ownership

  /** How often the chains refer to a raw buffer. */
  ghost function Uses(s: State): multiset<Id> {
    multiset(s.free) + multiset(s.incoming) + multiset(RawsOf(s.busy))
  }

  /** All but the first are empty: only the first may be partially filled. */
  ghost predicate OnlyFirstFilled(raws: seq<Raw>, ids: seq<Id>) {
    forall i | 0 < i < |ids| :: Stored(raws, ids[i]) == []
  }

  ghost predicate InFileWithin(bufs: seq<Buf>, limit: nat) {
    forall i | 0 <= i < |bufs| && bufs[i].InFile? :: bufs[i].from <= bufs[i].to <= limit
  }

  ghost predicate Valid(s: State) {
    && Once(Uses(s), s.raws) && OnlyFirstFilled(s.raws, s.free)
    && AllInFile(s.out) && InFileWithin(s.out, |s.file|) && InFileWithin(s.busy, |s.file|)
    && (s.header.Some? ==> s.file == [])
  }

  ghost predicate AllKnown(ids: seq<Id>, raws: seq<Raw>) {
    forall i | 0 <= i < |ids| :: ids[i] < |raws|
  }

  /** Known raw buffers, each at most once. */
  ghost predicate Once(uses: multiset<Id>, raws: seq<Raw>) {
    forall id :: uses[id] <= 1 && (id in uses ==> id < |raws|)
  }

  ghost predicate AllInFile(bufs: seq<Buf>) {
    forall i | 0 <= i < |bufs| :: bufs[i].InFile?
  }

  lemma OnceKnows(uses: multiset<Id>, raws: seq<Raw>, ids: seq<Id>)
    requires Once(uses, raws) && multiset(ids) <= uses
    ensures AllKnown(ids, raws)
  {
    forall i | 0 <= i < |ids|
      ensures ids[i] < |raws|
    {
      assert ids[i] in multiset(ids);
      assert ids[i] in uses;
    }
  }

  lemma OnceLess(uses: multiset<Id>, uses': multiset<Id>, raws: seq<Raw>, raws': seq<Raw>)
    requires Once(uses, raws) && uses' <= uses && |raws| <= |raws'|
    ensures Once(uses', raws')
  {
    forall id
      ensures uses'[id] <= 1 && (id in uses' ==> id < |raws'|)
    {
      assert uses'[id] <= uses[id] <= 1;
    }
  }

  // ---------------------------------------------------------------- chains

  lemma MemTextCons(raws: seq<Raw>, id: Id, ids: seq<Id>)
    ensures MemText(raws, [id] + ids) == Stored(raws, id) + MemText(raws, ids)
  {
    assert ([id] + ids)[1..] == ids;
  }

  lemma ChainTextCons(raws: seq<Raw>, file: Text, b: Buf, bufs: seq<Buf>)
    ensures ChainText(raws, file, [b] + bufs) == BufText(raws, file, b) + ChainText(raws, file, bufs)
  {
    assert ([b] + bufs)[1..] == bufs;
  }

  lemma HeadFirst<T>(a: seq<T>, b: seq<T>)
    requires a != []
    ensures a + b == [a[0]] + (a[1..] + b)
  {
  }

  lemma NothingFirst<T>(a: seq<T>, b: seq<T>)
    requires a == []
    ensures a + b == b
  {
  }

  lemma {:induction false} MemTextAppend(raws: seq<Raw>, a: seq<Id>, b: seq<Id>)
    ensures MemText(raws, a + b) == MemText(raws, a) + MemText(raws, b)
    decreases |a|
  {
    if a == [] {
      NothingFirst(a, b);
      NothingFirst(MemText(raws, a), MemText(raws, b));
    } else {
      HeadFirst(a, b);
      MemTextAppend(raws, a[1..], b);
      MemTextCons(raws, a[0], a[1..] + b);
      Assoc(Stored(raws, a[0]), MemText(raws, a[1..]), MemText(raws, b));
    }
  }

  lemma {:induction false} ChainTextAppend(raws: seq<Raw>, file: Text, a: seq<Buf>, b: seq<Buf>)
    ensures ChainText(raws, file, a + b) == ChainText(raws, file, a) + ChainText(raws, file, b)
    decreases |a|
  {
    if a == [] {
      NothingFirst(a, b);
      NothingFirst(ChainText(raws, file, a), ChainText(raws, file, b));
    } else {
      HeadFirst(a, b);
      ChainTextAppend(raws, file, a[1..], b);
      ChainTextCons(raws, file, a[0], a[1..] + b);
      Assoc(BufText(raws, file, a[0]), ChainText(raws, file, a[1..]), ChainText(raws, file, b));
    }
  }

  lemma {:induction false} RawsOfAppend(a: seq<Buf>, b: seq<Buf>)
    ensures RawsOf(a + b) == RawsOf(a) + RawsOf(b)
    decreases |a|
  {
    if a != [] {
      assert (a + b)[1..] == a[1..] + b;
      RawsOfAppend(a[1..], b);
    } else {
      assert a + b == b;
    }
  }

  /** Memory that a chain does not refer to does not matter to it. */
  lemma {:induction false} MemTextFrame(raws: seq<Raw>, raws': seq<Raw>, ids: seq<Id>)
    requires forall id | id in ids :: Stored(raws', id) == Stored(raws, id)
    ensures MemText(raws', ids) == MemText(raws, ids)
    decreases |ids|
  {
    if ids != [] {
      MemTextFrame(raws, raws', ids[1..]);
    }
  }

  /** ... nor do bytes appended to the file. */
  lemma {:induction false} ChainTextFrame(raws: seq<Raw>, raws': seq<Raw>, file: Text, file': Text, bufs: seq<Buf>)
    requires forall id | id in RawsOf(bufs) :: Stored(raws', id) == Stored(raws, id)
    requires InFileWithin(bufs, |file|) && file <= file'
    ensures ChainText(raws', file', bufs) == ChainText(raws, file, bufs)
    decreases |bufs|
  {
    if bufs != [] {
      var b := bufs[0];
      assert b.InMemory? ==> b.raw in RawsOf(bufs);
      assert b.InFile? ==> file'[b.from..b.to] == file[b.from..b.to];
      ChainTextFrame(raws, raws', file, file', bufs[1..]);
    }
  }

  lemma {:induction false} EmptyText(raws: seq<Raw>, ids: seq<Id>)
    requires forall i | 0 <= i < |ids| :: Stored(raws, ids[i]) == []
    ensures MemText(raws, ids) == []
    decreases |ids|
  {
    if ids != [] {
      EmptyText(raws, ids[1..]);
    }
  }

  /** A free list holds what its first buffer holds. */
  lemma FirstText(raws: seq<Raw>, ids: seq<Id>)
    requires OnlyFirstFilled(raws, ids) && ids != []
    ensures MemText(raws, ids) == Stored(raws, ids[0])
  {
    EmptyText(raws, ids[1..]);
  }

  // ---------------------------------------------------------------- reading: filling raw buffers

  function Room(raws: seq<Raw>, ids: seq<Id>): nat {
    if ids == [] then 0 else (if ids[0] < |raws| then raws[ids[0]].room else 0) + Room(raws, ids[1..])
  }

  datatype Poured = Poured(raws: seq<Raw>, full: seq<Id>, rest: seq<Id>)

  function Filled(r: Raw, bytes: Text): Raw
    requires |bytes| <= r.room
  {
    Raw(r.data + bytes, r.room - |bytes|, r.size)
  }

  /** The input filter takes a full buffer unless it is empty. */
  function Taken(r: Raw, id: Id): seq<Id> {
    if r.data == [] then [] else [id]
  }

  /** Bytes read into a chain: full buffers go to the input filter, the rest of the chain stays. */
  function Pour(raws: seq<Raw>, ids: seq<Id>, bytes: Text): Poured
    decreases |ids|
  {
    if ids == [] || bytes == [] || ids[0] >= |raws| then Poured(raws, [], ids)
    else
      var r := raws[ids[0]];
      if |bytes| >= r.room then
        var full := Filled(r, bytes[..r.room]);
        var p := Pour(raws[ids[0] := full], ids[1..], bytes[r.room..]);
        Poured(p.raws, Taken(full, ids[0]) + p.full, p.rest)
      else Poured(raws[ids[0] := Filled(r, bytes)], [], ids)
  }

  ghost predicate Distinct(ids: seq<Id>) {
    forall i, j | 0 <= i < j < |ids| :: ids[i] != ids[j]
  }

  /** What pouring leaves alone. */
  lemma {:induction false} PourOthers(raws: seq<Raw>, ids: seq<Id>, bytes: Text)
    requires AllKnown(ids, raws)
    ensures var p := Pour(raws, ids, bytes);
      |p.raws| == |raws| && forall id: nat | id < |raws| && id !in ids :: p.raws[id] == raws[id]
    decreases |ids|
  {
    if ids != [] && bytes != [] && |bytes| >= raws[ids[0]].room {
      var r := raws[ids[0]];
      PourOthers(raws[ids[0] := Filled(r, bytes[..r.room])], ids[1..], bytes[r.room..]);
    }
  }

  lemma {:induction false} PourUses(raws: seq<Raw>, ids: seq<Id>, bytes: Text)
    requires AllKnown(ids, raws)
    ensures var p := Pour(raws, ids, bytes); multiset(p.full) + multiset(p.rest) <= multiset(ids)
    decreases |ids|
  {
    if ids != [] && bytes != [] && |bytes| >= raws[ids[0]].room {
      var r := raws[ids[0]];
      PourUses(raws[ids[0] := Filled(r, bytes[..r.room])], ids[1..], bytes[r.room..]);
      assert ids == [ids[0]] + ids[1..];
    }
  }

  lemma PourFrame(raws: seq<Raw>, ids: seq<Id>, bytes: Text)
    requires AllKnown(ids, raws)
    ensures var p := Pour(raws, ids, bytes);
      && |p.raws| == |raws| && (forall id: nat | id < |raws| && id !in ids :: p.raws[id] == raws[id])
      && multiset(p.full) + multiset(p.rest) <= multiset(ids)
  {
    PourOthers(raws, ids, bytes);
    PourUses(raws, ids, bytes);
  }

  lemma {:induction false} PourText(raws: seq<Raw>, ids: seq<Id>, bytes: Text)
    requires AllKnown(ids, raws) && Distinct(ids) && OnlyFirstFilled(raws, ids)
    requires |bytes| <= Room(raws, ids)
    ensures var p := Pour(raws, ids, bytes);
      && MemText(p.raws, p.full) + MemText(p.raws, p.rest) == MemText(raws, ids) + bytes
      && OnlyFirstFilled(p.raws, p.rest)
    decreases |ids|
  {
    if ids != [] && bytes != [] {
      var id, tail := ids[0], ids[1..];
      var r := raws[id];
      FirstText(raws, ids);
      assert id !in tail;
      if |bytes| >= r.room {
        PourFull(raws, ids, bytes);
      } else {
        var raws' := raws[id := Filled(r, bytes)];
        assert OnlyFirstFilled(raws', ids);
        FirstText(raws', ids);
      }
    }
  }

  /** The step of PourText for a buffer that gets full. */
  lemma {:induction false} PourFull(raws: seq<Raw>, ids: seq<Id>, bytes: Text)
    requires ids != [] && bytes != [] && AllKnown(ids, raws) && Distinct(ids)
    requires OnlyFirstFilled(raws, ids) && raws[ids[0]].room <= |bytes| <= Room(raws, ids)
    ensures var p := Pour(raws, ids, bytes);
      && MemText(p.raws, p.full) + MemText(p.raws, p.rest) == MemText(raws, ids) + bytes
      && OnlyFirstFilled(p.raws, p.rest)
    decreases |ids|, 0
  {
    var id, tail := ids[0], ids[1..];
    var r := raws[id];
    var full, more := Filled(r, bytes[..r.room]), bytes[r.room..];
    var raws' := raws[id := full];
    assert id !in tail;
    RoomFrame(raws, raws', tail);
    EmptyText(raws', tail);
    FirstText(raws, ids);
    PourText(raws', tail, more);
    PourFrame(raws', tail, more);
    var q := Pour(raws', tail, more);
    PourJoin(q, full, id, more);
    assert Pour(raws, ids, bytes) == Poured(q.raws, Taken(full, id) + q.full, q.rest);
    PourSums(r.data, bytes, r.room);
  }

  lemma PourJoin(q: Poured, full: Raw, id: Id, more: Text)
    requires id < |q.raws| && q.raws[id] == full
    requires MemText(q.raws, q.full) + MemText(q.raws, q.rest) == more
    ensures MemText(q.raws, Taken(full, id) + q.full) + MemText(q.raws, q.rest) == full.data + more
  {
    MemTextAppend(q.raws, Taken(full, id), q.full);
    TakenText(q.raws, full, id);
    Assoc(full.data, MemText(q.raws, q.full), MemText(q.raws, q.rest));
  }

  lemma Assoc(x: Text, y: Text, z: Text)
    ensures x + (y + z) == (x + y) + z
  {
  }

  lemma PourSums(data: Text, bytes: Text, n: nat)
    requires n <= |bytes|
    ensures (data + bytes[..n]) + bytes[n..] == data + bytes
  {
  }

  lemma TakenText(raws: seq<Raw>, full: Raw, id: Id)
    requires id < |raws| && raws[id] == full
    ensures MemText(raws, Taken(full, id)) == full.data
  {
    if full.data != [] {
      assert [id][1..] == [];
    }
  }

  lemma {:induction false} RoomFrame(raws: seq<Raw>, raws': seq<Raw>, ids: seq<Id>)
    requires forall id | id in ids :: id < |raws| && id < |raws'| && raws'[id] == raws[id]
    ensures Room(raws', ids) == Room(raws, ids)
    decreases |ids|
  {
    if ids != [] {
      RoomFrame(raws, raws', ids[1..]);
    }
  }

  // ---------------------------------------------------------------- what every step keeps

  /** Nothing is lost, doubled or reordered: what was sent and what is unsent is what was read. */
  ghost predicate Conserves(s: State, sent: Text, received: Text) {
    Valid(s) && sent + Unsent(s) == received
  }

  /** Bytes arrive in the free buffers. */
  function Receive(s: State, bytes: Text): State {
    var p := Pour(s.raws, s.free, bytes);
    s.(raws := p.raws, incoming := s.incoming + p.full, free := p.rest)
  }

  /** One use of a raw buffer excludes the others. */
  lemma FreeIsApart(s: State)
    requires Valid(s)
    ensures Distinct(s.free) && AllKnown(s.free, s.raws)
    ensures forall id | id in s.free :: id !in s.incoming && id !in RawsOf(s.busy)
  {
    OnceKnows(Uses(s), s.raws, s.free);
    forall i, j | 0 <= i < j < |s.free|
      ensures s.free[i] != s.free[j]
    {
      if s.free[i] == s.free[j] {
        assert Uses(s)[s.free[i]] <= 1;
        TwiceCounted(s.free, i, j);
      }
    }
    forall id | id in s.free
      ensures id !in s.incoming && id !in RawsOf(s.busy)
    {
      assert id in Uses(s) && Uses(s)[id] <= 1;
    }
  }

  lemma TwiceCounted(ids: seq<Id>, i: nat, j: nat)
    requires i < j < |ids| && ids[i] == ids[j]
    ensures multiset(ids)[ids[i]] >= 2
  {
    assert ids == ids[..j] + ids[j..];
    assert ids[i] == ids[..j][i] && ids[j] == ids[j..][0];
    assert ids[i] in multiset(ids[..j]) && ids[i] in multiset(ids[j..]);
  }

  lemma Known(s: State, id: Id)
    requires Valid(s) && (id in s.free || id in s.incoming || id in RawsOf(s.busy))
    ensures id < |s.raws|
  {
    assert id in Uses(s);
  }

  /** Chains are what they were if their raw buffers are. */
  lemma Untouched(s: State, raws': seq<Raw>)
    requires Valid(s)
    requires forall id | id in s.incoming || id in RawsOf(s.busy) :: Stored(raws', id) == Stored(s.raws, id)
    ensures ChainText(raws', s.file, s.busy) == ChainText(s.raws, s.file, s.busy)
    ensures ChainText(raws', s.file, s.out) == ChainText(s.raws, s.file, s.out)
    ensures MemText(raws', s.incoming) == MemText(s.raws, s.incoming)
  {
    FileChainHasNoRaws(s.out);
    ChainTextFrame(s.raws, raws', s.file, s.file, s.busy);
    ChainTextFrame(s.raws, raws', s.file, s.file, s.out);
    MemTextFrame(s.raws, raws', s.incoming);
  }

  lemma {:induction false} FileChainHasNoRaws(bufs: seq<Buf>)
    requires AllInFile(bufs)
    ensures RawsOf(bufs) == []
    decreases |bufs|
  {
    if bufs != [] {
      FileChainHasNoRaws(bufs[1..]);
    }
  }

  lemma ReceiveValid(s: State, bytes: Text)
    requires Valid(s) && |bytes| <= Room(s.raws, s.free)
    ensures Valid(Receive(s, bytes))
  {
    FreeIsApart(s);
    PourFrame(s.raws, s.free, bytes);
    PourText(s.raws, s.free, bytes);
    var s' := Receive(s, bytes);
    OnceLess(Uses(s), Uses(s'), s.raws, s'.raws);
  }

  lemma ReceiveText(s: State, bytes: Text)
    requires Valid(s) && |bytes| <= Room(s.raws, s.free)
    ensures Unsent(Receive(s, bytes)) == Unsent(s) + bytes
  {
    FreeIsApart(s);
    PourFrame(s.raws, s.free, bytes);
    PourText(s.raws, s.free, bytes);
    var p := Pour(s.raws, s.free, bytes);
    forall id | id in s.incoming || id in RawsOf(s.busy)
      ensures Stored(p.raws, id) == Stored(s.raws, id)
    {
      Known(s, id);
    }
    Untouched(s, p.raws);
    MemTextAppend(p.raws, s.incoming, p.full);
    ReceiveSums(ChainText(s.raws, s.file, s.busy) + ChainText(s.raws, s.file, s.out), MemText(s.raws, s.incoming),
                MemText(p.raws, p.full), MemText(p.raws, p.rest), MemText(s.raws, s.free), bytes);
  }

  lemma ReceiveSums(a: Text, b: Text, full: Text, rest: Text, partial: Text, bytes: Text)
    requires full + rest == partial + bytes
    ensures a + (b + full) + rest == (a + b + partial) + bytes
  {
    Assoc(b, full, rest);
    Assoc(b, partial, bytes);
    assert a + (b + full) + rest == a + b + (full + rest);
  }

  /** At the end of the upstream the first free buffer goes to the input filter, full or not. */
  function Flush(s: State): State {
    if s.free == [] then s
    else s.(incoming := s.incoming + (if Stored(s.raws, s.free[0]) == [] then [] else [s.free[0]]), free := s.free[1..])
  }

  lemma FlushValid(s: State)
    requires Valid(s)
    ensures Valid(Flush(s)) && MemText(s.raws, Flush(s).free) == []
  {
    if s.free != [] {
      assert s.free == [s.free[0]] + s.free[1..];
      var s' := Flush(s);
      OnceLess(Uses(s), Uses(s'), s.raws, s.raws);
      EmptyText(s.raws, s.free[1..]);
    }
  }

  lemma FlushText(s: State)
    requires Valid(s)
    ensures Unsent(Flush(s)) == Unsent(s)
  {
    if s.free != [] {
      var first := s.free[0];
      var moved := if Stored(s.raws, first) == [] then [] else [first];
      EmptyText(s.raws, s.free[1..]);
      FirstText(s.raws, s.free);
      MemTextAppend(s.raws, s.incoming, moved);
      assert MemText(s.raws, moved) == Stored(s.raws, first);
      Assoc(ChainText(s.raws, s.file, s.busy) + ChainText(s.raws, s.file, s.out), MemText(s.raws, s.incoming),
            Stored(s.raws, first));
    }
  }

  /** A new raw buffer, when no free one is left. */
  function Allocate(s: State, id: Id, room: nat, size: nat): State {
    s.(raws := s.raws + [Raw([], room, size)], free := [|s.raws|])
  }

  lemma OnceMore(uses: multiset<Id>, raws: seq<Raw>, raws': seq<Raw>, id: Id)
    requires Once(uses, raws) && id !in uses && |raws| <= |raws'| && id < |raws'|
    ensures Once(uses + multiset{id}, raws')
  {
    var uses' := uses + multiset{id};
    forall x
      ensures uses'[x] <= 1 && (x in uses' ==> x < |raws'|)
    {
      assert uses'[x] == uses[x] + if x == id then 1 else 0;
      assert x in uses ==> x < |raws|;
    }
  }

  lemma AllocateValid(s: State, id: Id, room: nat, size: nat)
    requires Valid(s) && s.free == [] && id == |s.raws|
    ensures Valid(Allocate(s, id, room, size))
  {
    var s' := Allocate(s, id, room, size);
    assert Uses(s') == Uses(s) + multiset{id};
    assert id in Uses(s) ==> id < |s.raws|;
    OnceMore(Uses(s), s.raws, s'.raws, id);
  }

  lemma AllocateText(s: State, id: Id, room: nat, size: nat)
    requires Valid(s) && s.free == [] && id == |s.raws|
    ensures Unsent(Allocate(s, id, room, size)) == Unsent(s)
  {
    var s' := Allocate(s, id, room, size);
    forall x | x in s.incoming || x in RawsOf(s.busy)
      ensures Stored(s'.raws, x) == Stored(s.raws, x)
    {
      Known(s, x);
    }
    Untouched(s, s'.raws);
    EmptyText(s'.raws, s'.free);
  }

  // ---------------------------------------------------------------- spilling to the temporary file

  function Reset(r: Raw): Raw {
    Raw([], r.size, r.size)
  }

  function ResetOne(raws: seq<Raw>, id: Id): seq<Raw> {
    if id < |raws| then raws[id := Reset(raws[id])] else raws
  }

  function ResetAll(raws: seq<Raw>, ids: seq<Id>): (r: seq<Raw>)
    ensures |r| == |raws|
  {
    if ids == [] then raws else ResetOne(ResetAll(raws, ids[..|ids| - 1]), ids[|ids| - 1])
  }

  /** The file ranges of buffers written one after the other. */
  function Ranges(raws: seq<Raw>, ids: seq<Id>, base: nat): seq<Buf> {
    if ids == [] then []
    else
      var end := base + |Stored(raws, ids[0])|;
      [InFile(base, end)] + Ranges(raws, ids[1..], end)
  }

  function Prefixed(s: State): Text {
    if s.header.Some? then s.header.value else []
  }

  /** The header, if it is still to be written, and the first k incoming buffers go to the file; their raw buffers
    * join the end of the free list. */
  function Spill(s: State, k: nat): State
    requires k <= |s.incoming|
  {
    var ids := s.incoming[..k];
    var base := s.file + Prefixed(s);
    State(ResetAll(s.raws, ids), s.free + ids, s.incoming[k..], s.out + Ranges(s.raws, ids, |base|), s.busy,
          base + MemText(s.raws, ids), None)
  }

  /** The ranges read back what was written. */
  lemma {:induction false} RangesText(raws: seq<Raw>, raws': seq<Raw>, ids: seq<Id>, base: Text, file: Text)
    requires base + MemText(raws, ids) <= file
    ensures ChainText(raws', file, Ranges(raws, ids, |base|)) == MemText(raws, ids)
    decreases |ids|
  {
    if ids != [] {
      var data, rest := Stored(raws, ids[0]), ids[1..];
      Slice(base, data, MemText(raws, rest), file);
      RangesText(raws, raws', rest, base + data, file);
      assert |base + data| == |base| + |data|;
      OneRange(raws, raws', ids, |base|, file);
    }
  }

  /** The first range reads the first buffer. */
  lemma OneRange(raws: seq<Raw>, raws': seq<Raw>, ids: seq<Id>, at: nat, file: Text)
    requires ids != []
    requires at + |Stored(raws, ids[0])| <= |file| && file[at..at + |Stored(raws, ids[0])|] == Stored(raws, ids[0])
    ensures ChainText(raws', file, Ranges(raws, ids, at)) ==
      Stored(raws, ids[0]) + ChainText(raws', file, Ranges(raws, ids[1..], at + |Stored(raws, ids[0])|))
  {
    var end := at + |Stored(raws, ids[0])|;
    ChainTextCons(raws', file, InFile(at, end), Ranges(raws, ids[1..], end));
  }

  lemma Slice(base: Text, data: Text, rest: Text, file: Text)
    requires base + (data + rest) <= file
    ensures (base + data) + rest <= file && |base| + |data| <= |file| && file[|base|..|base| + |data|] == data
  {
    Assoc(base, data, rest);
    var all := (base + data) + rest;
    assert file[..|all|] == all;
    assert all[|base|..|base| + |data|] == data;
  }

  lemma {:induction false} RangesWithin(raws: seq<Raw>, ids: seq<Id>, base: nat)
    ensures InFileWithin(Ranges(raws, ids, base), base + |MemText(raws, ids)|) && AllInFile(Ranges(raws, ids, base))
    decreases |ids|
  {
    if ids != [] {
      var end := base + |Stored(raws, ids[0])|;
      RangesWithin(raws, ids[1..], end);
      WithinCons(InFile(base, end), Ranges(raws, ids[1..], end), base + |MemText(raws, ids)|);
    }
  }

  lemma WithinCons(b: Buf, bufs: seq<Buf>, limit: nat)
    requires b.InFile? && b.from <= b.to <= limit && InFileWithin(bufs, limit) && AllInFile(bufs)
    ensures InFileWithin([b] + bufs, limit) && AllInFile([b] + bufs)
  {
  }

  lemma WithinAppend(a: seq<Buf>, b: seq<Buf>, limit: nat, limit': nat)
    requires InFileWithin(a, limit) && InFileWithin(b, limit') && limit <= limit'
    ensures InFileWithin(a + b, limit')
  {
  }

  lemma SplitIncoming(s: State, k: nat)
    requires k <= |s.incoming|
    ensures multiset(s.incoming) == multiset(s.incoming[..k]) + multiset(s.incoming[k..])
    ensures MemText(s.raws, s.incoming) == MemText(s.raws, s.incoming[..k]) + MemText(s.raws, s.incoming[k..])
  {
    assert s.incoming == s.incoming[..k] + s.incoming[k..];
    MemTextAppend(s.raws, s.incoming[..k], s.incoming[k..]);
  }

  /** The buffers that stay are apart from those that are spilled. */
  lemma SpilledIsApart(s: State, k: nat)
    requires Valid(s) && k <= |s.incoming|
    ensures forall id | id in s.free || id in s.incoming[k..] || id in RawsOf(s.busy) :: id !in s.incoming[..k]
    ensures AllKnown(s.incoming[..k], s.raws)
  {
    SplitIncoming(s, k);
    OnceKnows(Uses(s), s.raws, s.incoming[..k]);
    forall id | id in s.incoming[..k]
      ensures id !in s.free && id !in s.incoming[k..] && id !in RawsOf(s.busy)
    {
      assert id in Uses(s) && Uses(s)[id] <= 1;
    }
  }

  lemma SpillOnce(s: State, k: nat)
    requires Valid(s) && k <= |s.incoming|
    ensures Once(Uses(Spill(s, k)), Spill(s, k).raws)
  {
    SplitIncoming(s, k);
    OnceLess(Uses(s), Uses(Spill(s, k)), s.raws, Spill(s, k).raws);
  }

  lemma SpillOnlyFirst(s: State, k: nat)
    requires Valid(s) && k <= |s.incoming|
    ensures OnlyFirstFilled(Spill(s, k).raws, Spill(s, k).free)
  {
    var ids := s.incoming[..k];
    var raws', free' := ResetAll(s.raws, ids), s.free + ids;
    ResetStored(s.raws, ids);
    forall i | 0 < i < |free'|
      ensures Stored(raws', free'[i]) == []
    {
      if i < |s.free| {
        assert free'[i] == s.free[i];
      } else {
        assert free'[i] == ids[i - |s.free|];
      }
    }
  }

  lemma SpillValid(s: State, k: nat)
    requires Valid(s) && k <= |s.incoming|
    ensures Valid(Spill(s, k))
  {
    var s', ids := Spill(s, k), s.incoming[..k];
    var base := s.file + Prefixed(s);
    SpillOnce(s, k);
    SpillOnlyFirst(s, k);
    RangesWithin(s.raws, ids, |base|);
    WithinAppend(s.out, Ranges(s.raws, ids, |base|), |s.file|, |s'.file|);
    WithinAppend(s.busy, [], |s.file|, |s'.file|);
    assert s.busy + [] == s.busy;
  }

  lemma {:induction false} ResetStored(raws: seq<Raw>, ids: seq<Id>)
    ensures forall id | id !in ids :: Stored(ResetAll(raws, ids), id) == Stored(raws, id)
    ensures forall id | id in ids :: Stored(ResetAll(raws, ids), id) == []
    decreases |ids|
  {
    if ids != [] {
      var front, last := ids[..|ids| - 1], ids[|ids| - 1];
      assert ids == front + [last];
      ResetStored(raws, front);
    }
  }

  /** Resetting the spilled buffers changes no other. */
  lemma SpilledStored(s: State, k: nat, raws': seq<Raw>)
    requires Valid(s) && k <= |s.incoming| && raws' == ResetAll(s.raws, s.incoming[..k])
    ensures forall id | id in s.free || id in s.incoming[k..] || id in RawsOf(s.busy) :: Stored(raws', id) == Stored(s.raws, id)
    ensures forall id | id in s.incoming[..k] :: Stored(raws', id) == []
  {
    SpilledIsApart(s, k);
    ResetStored(s.raws, s.incoming[..k]);
  }

  lemma SpillKeepsBusy(s: State, k: nat, raws': seq<Raw>, file': Text)
    requires Valid(s) && k <= |s.incoming| && raws' == ResetAll(s.raws, s.incoming[..k]) && s.file <= file'
    ensures ChainText(raws', file', s.busy) == ChainText(s.raws, s.file, s.busy)
    ensures ChainText(raws', file', s.out) == ChainText(s.raws, s.file, s.out)
    ensures MemText(raws', s.incoming[k..]) == MemText(s.raws, s.incoming[k..])
  {
    SpilledStored(s, k, raws');
    FileChainHasNoRaws(s.out);
    ChainTextFrame(s.raws, raws', s.file, file', s.busy);
    ChainTextFrame(s.raws, raws', s.file, file', s.out);
    MemTextFrame(s.raws, raws', s.incoming[k..]);
  }

  lemma SpillText(s: State, k: nat)
    requires Valid(s) && k <= |s.incoming|
    ensures Unsent(Spill(s, k)) == Unsent(s)
  {
    var s', ids := Spill(s, k), s.incoming[..k];
    var base := s.file + Prefixed(s);
    SplitIncoming(s, k);
    assert s.file <= s'.file;
    SpillKeepsBusy(s, k, s'.raws, s'.file);
    RangesText(s.raws, s'.raws, ids, base, s'.file);
    ChainTextAppend(s'.raws, s'.file, s.out, Ranges(s.raws, ids, |base|));
    SpillFree(s, k);
    SpillSums(ChainText(s.raws, s.file, s.busy), ChainText(s.raws, s.file, s.out), MemText(s.raws, ids),
              MemText(s.raws, s.incoming[k..]), MemText(s.raws, s.free));
  }

  lemma SpillFree(s: State, k: nat)
    requires Valid(s) && k <= |s.incoming|
    ensures MemText(Spill(s, k).raws, Spill(s, k).free) == MemText(s.raws, s.free)
  {
    var ids := s.incoming[..k];
    var raws' := ResetAll(s.raws, ids);
    SpilledStored(s, k, raws');
    MemTextAppend(raws', s.free, ids);
    MemTextFrame(s.raws, raws', s.free);
    EmptyText(raws', ids);
  }

  lemma SpillSums(busy: Text, out: Text, spilled: Text, rest: Text, partial: Text)
    ensures busy + (out + spilled) + rest + partial == busy + out + (spilled + rest) + partial
  {
  }

  // ---------------------------------------------------------------- handing on and recycling

  function Refer(ids: seq<Id>): seq<Buf> {
    if ids == [] then [] else [InMemory(ids[0])] + Refer(ids[1..])
  }

  lemma {:induction false} ReferIs(raws: seq<Raw>, file: Text, ids: seq<Id>)
    ensures RawsOf(Refer(ids)) == ids && ChainText(raws, file, Refer(ids)) == MemText(raws, ids)
    ensures forall i | 0 <= i < |Refer(ids)| :: Refer(ids)[i].InMemory?
    decreases |ids|
  {
    if ids != [] {
      ReferIs(raws, file, ids[1..]);
    }
  }

  /** The first i buffers of out and the first j incoming ones go to the output filter. */
  function Hand(s: State, i: nat, j: nat): State
    requires i <= |s.out| && j <= |s.incoming|
  {
    s.(busy := s.busy + (s.out[..i] + Refer(s.incoming[..j])), out := s.out[i..], incoming := s.incoming[j..])
  }

  /** Incoming buffers are handed on only after everything in out. */
  ghost predicate InTurn(s: State, i: nat, j: nat) {
    i <= |s.out| && j <= |s.incoming| && (j > 0 ==> i == |s.out|)
  }

  lemma HandUses(s: State, i: nat, j: nat)
    requires AllInFile(s.out) && InTurn(s, i, j)
    ensures Uses(Hand(s, i, j)) == Uses(s)
  {
    SplitIncoming(s, j);
    ReferIs(s.raws, s.file, s.incoming[..j]);
    FileChainHasNoRaws(s.out[..i]);
    RawsOfAppend(s.out[..i], Refer(s.incoming[..j]));
    RawsOfAppend(s.busy, s.out[..i] + Refer(s.incoming[..j]));
  }

  lemma HandValid(s: State, i: nat, j: nat)
    requires Valid(s) && InTurn(s, i, j)
    ensures Valid(Hand(s, i, j))
  {
    HandUses(s, i, j);
    ReferIs(s.raws, s.file, s.incoming[..j]);
    WithinAppend(s.out[..i], Refer(s.incoming[..j]), |s.file|, |s.file|);
    WithinAppend(s.busy, s.out[..i] + Refer(s.incoming[..j]), |s.file|, |s.file|);
  }

  lemma HandText(s: State, i: nat, j: nat)
    requires InTurn(s, i, j)
    ensures Unsent(Hand(s, i, j)) == Unsent(s)
  {
    SplitIncoming(s, j);
    ReferIs(s.raws, s.file, s.incoming[..j]);
    var chain := s.out[..i] + Refer(s.incoming[..j]);
    ChainTextAppend(s.raws, s.file, s.busy, chain);
    ChainTextAppend(s.raws, s.file, s.out[..i], Refer(s.incoming[..j]));
    assert s.out == s.out[..i] + s.out[i..];
    ChainTextAppend(s.raws, s.file, s.out[..i], s.out[i..]);
    if j == 0 {
      assert s.incoming[..0] == [];
    } else {
      assert s.out[i..] == [];
    }
    HandSums(ChainText(s.raws, s.file, s.busy), ChainText(s.raws, s.file, s.out[..i]),
             ChainText(s.raws, s.file, s.out[i..]), MemText(s.raws, s.incoming[..j]),
             MemText(s.raws, s.incoming[j..]), MemText(s.raws, s.free));
  }

  lemma HandSums(busy: Text, out1: Text, out2: Text, in1: Text, in2: Text, partial: Text)
    requires out2 == [] || in1 == []
    ensures (busy + (out1 + in1)) + out2 + in2 + partial == busy + (out1 + out2) + (in1 + in2) + partial
  {
  }

  /** ngx_event_pipe_add_free_buf: a buffer that is partially filled stays first. */
  function AddFree(s: State, id: Id): State {
    var raws := if id < |s.raws| then s.raws[id := Reset(s.raws[id])] else s.raws;
    if s.free == [] then s.(raws := raws, free := [id])
    else if Stored(raws, s.free[0]) == [] then s.(raws := raws, free := [id] + s.free)
    else s.(raws := raws, free := [s.free[0], id] + s.free[1..])
  }

  lemma AddFreeUses(s: State, id: Id)
    requires id < |s.raws|
    ensures Uses(AddFree(s, id)) == Uses(s) + multiset{id}
  {
    var s' := AddFree(s, id);
    assert multiset(s'.free) == multiset(s.free) + multiset{id} by {
      if s.free != [] {
        assert s.free == [s.free[0]] + s.free[1..];
      }
    }
  }

  lemma AddFreeOnlyFirst(s: State, id: Id)
    requires OnlyFirstFilled(s.raws, s.free) && id < |s.raws|
    ensures OnlyFirstFilled(AddFree(s, id).raws, AddFree(s, id).free)
  {
    var s' := AddFree(s, id);
    forall i | 0 < i < |s'.free|
      ensures Stored(s'.raws, s'.free[i]) == []
    {
      if s'.free[i] != id {
        assert Stored(s'.raws, s'.free[i]) == Stored(s.raws, s'.free[i]);
        if s'.free == [id] + s.free {
          assert s'.free[i] == s.free[i - 1];
        } else {
          assert s'.free[i] == s.free[i - 1];
        }
      }
    }
  }

  lemma AddFreeValid(s: State, id: Id)
    requires Valid(s) && id < |s.raws| && id !in Uses(s)
    ensures Valid(AddFree(s, id)) && Uses(AddFree(s, id)) == Uses(s) + multiset{id}
  {
    AddFreeUses(s, id);
    OnceMore(Uses(s), s.raws, AddFree(s, id).raws, id);
    AddFreeOnlyFirst(s, id);
  }

  lemma AddFreePartial(s: State, id: Id)
    requires Valid(s) && id < |s.raws| && id !in Uses(s)
    ensures MemText(AddFree(s, id).raws, AddFree(s, id).free) == MemText(s.raws, s.free)
  {
    var s' := AddFree(s, id);
    AddFreeOnlyFirst(s, id);
    FirstText(s'.raws, s'.free);
    AddFreeFirst(s, id);
    if s.free != [] {
      FirstText(s.raws, s.free);
    }
  }

  lemma AddFreeFirst(s: State, id: Id)
    requires id < |s.raws| && id !in s.free
    ensures var s' := AddFree(s, id);
      s'.free != [] && Stored(s'.raws, s'.free[0]) == if s.free == [] then [] else Stored(s.raws, s.free[0])
  {
    if s.free != [] {
      assert s.free[0] in s.free;
    }
  }

  lemma AddFreeText(s: State, id: Id)
    requires Valid(s) && id < |s.raws| && id !in Uses(s)
    ensures Unsent(AddFree(s, id)) == Unsent(s)
  {
    Untouched(s, AddFree(s, id).raws);
    AddFreePartial(s, id);
  }

  /** Several buffers are freed, the last of them first. */
  function AddAll(s: State, ids: seq<Id>): (t: State)
    ensures |t.raws| == |s.raws|
  {
    if ids == [] then s else AddFree(AddAll(s, ids[1..]), ids[0])
  }

  lemma {:induction false} AddAllKeeps(s: State, ids: seq<Id>)
    requires Valid(s) && Once(Uses(s) + multiset(ids), s.raws) && AllKnown(ids, s.raws)
    ensures Valid(AddAll(s, ids)) && Uses(AddAll(s, ids)) == Uses(s) + multiset(ids)
    ensures Unsent(AddAll(s, ids)) == Unsent(s)
    ensures MemText(AddAll(s, ids).raws, AddAll(s, ids).free) == MemText(s.raws, s.free)
    decreases |ids|
  {
    if ids != [] {
      var id, rest := ids[0], ids[1..];
      assert ids == [id] + rest;
      var u := Uses(s) + multiset(rest);
      assert Uses(s) + multiset(ids) == u + multiset{id};
      OneOfThem(u, id, s.raws);
      AddAllKeeps(s, rest);
      AddFreeValid(AddAll(s, rest), id);
      AddFreeText(AddAll(s, rest), id);
      AddFreePartial(AddAll(s, rest), id);
    }
  }

  lemma OneOfThem(uses: multiset<Id>, id: Id, raws: seq<Raw>)
    requires Once(uses + multiset{id}, raws)
    ensures id !in uses && id < |raws| && Once(uses, raws)
  {
    assert (uses + multiset{id})[id] == uses[id] + 1;
    OnceLess(uses + multiset{id}, uses, raws, raws);
  }

  /** The first m busy buffers have been sent; their raw buffers can be read into again. */
  function Release(s: State, m: nat): State
    requires m <= |s.busy|
  {
    AddAll(s.(busy := s.busy[m..]), RawsOf(s.busy[..m]))
  }

  lemma ReleaseKeeps(s: State, m: nat)
    requires Valid(s) && m <= |s.busy|
    ensures Valid(Release(s, m)) && MemText(Release(s, m).raws, Release(s, m).free) == MemText(s.raws, s.free)
    ensures Unsent(s) == ChainText(s.raws, s.file, s.busy[..m]) + Unsent(Release(s, m))
  {
    var done, rest := s.busy[..m], s.busy[m..];
    assert s.busy == done + rest;
    RawsOfAppend(done, rest);
    ChainTextAppend(s.raws, s.file, done, rest);
    var t := s.(busy := rest);
    ReleaseOnce(s, done, rest);
    OnceKnows(Uses(s), s.raws, RawsOf(done));
    AddAllKeeps(t, RawsOf(done));
    ReleaseSums(ChainText(s.raws, s.file, done), ChainText(s.raws, s.file, rest), ChainText(s.raws, s.file, s.out),
                MemText(s.raws, s.incoming), MemText(s.raws, s.free));
  }

  lemma ReleaseOnce(s: State, done: seq<Buf>, rest: seq<Buf>)
    requires Valid(s) && RawsOf(s.busy) == RawsOf(done) + RawsOf(rest) && s.busy == done + rest
    ensures Valid(s.(busy := rest)) && Once(Uses(s.(busy := rest)) + multiset(RawsOf(done)), s.raws)
  {
    var t := s.(busy := rest);
    assert Uses(t) + multiset(RawsOf(done)) == Uses(s);
    OnceLess(Uses(s), Uses(t), s.raws, s.raws);
    forall i | 0 <= i < |rest|
      ensures rest[i] == s.busy[|done| + i]
    {
    }
  }

  lemma ReleaseSums(done: Text, rest: Text, out: Text, incoming: Text, partial: Text)
    ensures (done + rest) + out + incoming + partial == done + (rest + out + incoming + partial)
  {
  }

  // ---------------------------------------------------------------- every interleaving

  /** What changes the chains.  Reads, spills and writes come in any order. */
  datatype Step =
    | Read(bytes: Text)               // bytes arrive in the free buffers
    | EndOfInput                      // the upstream has closed
    | NewRaw(room: nat, size: nat)    // a raw buffer is allocated
    | ToFile(count: nat)              // incoming buffers are saved to the file
    | Pass(fromOut: nat, fromIn: nat) // buffers are given to the output filter
    | Sent(count: nat)                // busy buffers have been sent
    | Fail                            // the upstream connection has failed

  /** `busySize` is how much memory the output filter may be given while the upstream goes on. */
  datatype Flow = Flow(s: State, sent: Text, received: Text, ended: bool, failed: bool, busySize: nat)

  ghost predicate WithinBusySize(f: Flow, j: nat)
    requires j <= |f.s.incoming|
  {
    BusySize(f.s.raws, f.s.busy) + |MemText(f.s.raws, f.s.incoming[..j])| <= f.busySize
  }

  ghost predicate Enabled(f: Flow, step: Step) {
    match step
    case Read(bytes) => !f.ended && !f.failed && |bytes| <= Room(f.s.raws, f.s.free)
    case EndOfInput => true
    case NewRaw(_, _) => |f.s.free| == 0
    case ToFile(k) => k <= |f.s.incoming|
    case Pass(i, j) => InTurn(f.s, i, j) && (j > 0 && !f.ended && !f.failed ==> WithinBusySize(f, j))
    case Sent(m) => m <= |f.s.busy|
    case Fail => true
  }

  ghost function Next(f: Flow, step: Step): Flow
    requires Enabled(f, step)
  {
    match step
    case Read(bytes) => f.(s := Receive(f.s, bytes), received := f.received + bytes)
    case EndOfInput => f.(s := Flush(f.s), ended := true)
    case NewRaw(room, size) => f.(s := Allocate(f.s, |f.s.raws|, room, size))
    case ToFile(k) => f.(s := Spill(f.s, k))
    case Pass(i, j) => f.(s := Hand(f.s, i, j))
    case Sent(m) => f.(s := Release(f.s, m), sent := f.sent + ChainText(f.s.raws, f.s.file, f.s.busy[..m]))
    case Fail => f.(failed := true)
  }

  /** These steps lead from f to g. */
  ghost predicate Ran(f: Flow, steps: seq<Step>, g: Flow)
    decreases |steps|
  {
    if steps == [] then f == g else Enabled(f, steps[0]) && Ran(Next(f, steps[0]), steps[1..], g)
  }

  ghost predicate Start(f: Flow) {
    && |f.s.raws| + |f.s.free| + |f.s.incoming| + |f.s.out| + |f.s.busy| + |f.s.file| == 0
    && |f.sent| + |f.received| == 0 && !f.ended && !f.failed
  }

  ghost predicate Good(f: Flow) {
    Conserves(f.s, f.sent, f.received) && (f.ended ==> |MemText(f.s.raws, f.s.free)| == 0)
  }

  lemma ReadKeeps(f: Flow, bytes: Text)
    requires Good(f) && Enabled(f, Read(bytes))
    ensures Good(Next(f, Read(bytes)))
  {
    ReceiveValid(f.s, bytes);
    ReceiveText(f.s, bytes);
    Assoc(f.sent, Unsent(f.s), bytes);
  }

  lemma EndKeeps(f: Flow)
    requires Good(f)
    ensures Good(Next(f, EndOfInput))
  {
    FlushValid(f.s);
    FlushText(f.s);
  }

  lemma NewRawKeeps(f: Flow, room: nat, size: nat)
    requires Good(f) && Enabled(f, NewRaw(room, size))
    ensures Good(Next(f, NewRaw(room, size)))
  {
    AllocateValid(f.s, |f.s.raws|, room, size);
    AllocateText(f.s, |f.s.raws|, room, size);
    var t := Allocate(f.s, |f.s.raws|, room, size);
    EmptyText(t.raws, t.free);
  }

  lemma ToFileKeeps(f: Flow, k: nat)
    requires Good(f) && Enabled(f, ToFile(k))
    ensures Good(Next(f, ToFile(k)))
  {
    SpillValid(f.s, k);
    SpillText(f.s, k);
    SpillFree(f.s, k);
  }

  lemma PassKeeps(f: Flow, i: nat, j: nat)
    requires Good(f) && Enabled(f, Pass(i, j))
    ensures Good(Next(f, Pass(i, j)))
  {
    HandValid(f.s, i, j);
    HandText(f.s, i, j);
  }

  lemma SentKeeps(f: Flow, m: nat)
    requires Good(f) && Enabled(f, Sent(m))
    ensures Good(Next(f, Sent(m)))
  {
    ReleaseKeeps(f.s, m);
    Assoc(f.sent, ChainText(f.s.raws, f.s.file, f.s.busy[..m]), Unsent(Release(f.s, m)));
  }

  lemma StepKeeps(f: Flow, step: Step)
    requires Good(f) && Enabled(f, step)
    ensures Good(Next(f, step))
  {
    match step
    case Read(bytes) => ReadKeeps(f, bytes);
    case EndOfInput => EndKeeps(f);
    case NewRaw(room, size) => NewRawKeeps(f, room, size);
    case ToFile(k) => ToFileKeeps(f, k);
    case Pass(i, j) => PassKeeps(f, i, j);
    case Sent(m) => SentKeeps(f, m);
    case Fail =>
  }

  lemma StartIsGood(f: Flow)
    requires Start(f)
    ensures Good(f)
  {
    assert f.sent == [] && f.received == [] && Unsent(f.s) == [];
  }

  lemma {:induction false} RunKeeps(f: Flow, steps: seq<Step>, g: Flow)
    requires Good(f) && Ran(f, steps, g)
    ensures Good(g)
    decreases |steps|
  {
    if steps != [] {
      StepKeeps(f, steps[0]);
      RunKeeps(Next(f, steps[0]), steps[1..], g);
    }
  }

  /** In every interleaving the bytes given to the output filter, sent or not, are a prefix of what was read; nothing
    * the output filter still has to send has been overwritten; only the first free buffer is partially filled; and
    * once the upstream has ended and the chains are empty, everything read has been given to the output filter. */
  lemma PipeIsFifo(f: Flow, steps: seq<Step>, g: Flow)
    requires Start(f) && Ran(f, steps, g)
    ensures g.sent + ChainText(g.s.raws, g.s.file, g.s.busy) <= g.received
    ensures OnlyFirstFilled(g.s.raws, g.s.free)
    ensures g.ended && |g.s.out| + |g.s.incoming| == 0 ==>
      g.sent + ChainText(g.s.raws, g.s.file, g.s.busy) == g.received
  {
    StartIsGood(f);
    RunKeeps(f, steps, g);
    HandedIsPrefix(g.s, g.sent, g.received);
    if g.ended && |g.s.out| + |g.s.incoming| == 0 {
      DoneHandsEverything(g.s, g.sent, g.received);
    }
  }

  /** At any time the bytes handed to the output filter, sent or not, are a prefix of what was read. */
  lemma HandedIsPrefix(s: State, sent: Text, received: Text)
    requires Conserves(s, sent, received)
    ensures sent + ChainText(s.raws, s.file, s.busy) <= received
  {
    PrefixSums(sent, ChainText(s.raws, s.file, s.busy), ChainText(s.raws, s.file, s.out),
               MemText(s.raws, s.incoming), MemText(s.raws, s.free));
  }

  lemma PrefixSums(sent: Text, busy: Text, out: Text, incoming: Text, partial: Text)
    ensures sent + busy <= sent + (busy + out + incoming + partial)
  {
  }

  /** When the pipe is done, the handed bytes are all that was read, but for what a failed upstream left in a
    * partially filled buffer. */
  lemma DoneHandsEverything(s: State, sent: Text, received: Text)
    requires Conserves(s, sent, received) && s.out == [] && s.incoming == []
    ensures sent + ChainText(s.raws, s.file, s.busy) + MemText(s.raws, s.free) == received
  {
    DoneSums(sent, ChainText(s.raws, s.file, s.busy), ChainText(s.raws, s.file, s.out), MemText(s.raws, s.incoming),
             MemText(s.raws, s.free));
  }

  lemma DoneSums(sent: Text, busy: Text, out: Text, incoming: Text, partial: Text)
    requires out == [] && incoming == []
    ensures sent + (busy + out + incoming + partial) == sent + busy + partial
  {
  }

  lemma {:induction false} RanThen(f: Flow, a: seq<Step>, g: Flow, b: seq<Step>, h: Flow)
    requires Ran(f, a, g) && Ran(g, b, h)
    ensures Ran(f, a + b, h)
    decreases |a|
  {
    if a == [] {
      assert a + b == b;
    } else {
      var f' := Next(f, a[0]);
      RanThen(f', a[1..], g, b, h);
      RanCons(f, a[0], f', a[1..] + b, h);
      HeadFirst(a, b);
    }
  }

  lemma RanCons(f: Flow, step: Step, f': Flow, steps: seq<Step>, g: Flow)
    requires Enabled(f, step) && f' == Next(f, step) && Ran(f', steps, g)
    ensures Ran(f, [step] + steps, g)
  {
    assert ([step] + steps)[1..] == steps;
  }

  lemma RanOne(f: Flow, step: Step)
    requires Enabled(f, step)
    ensures Ran(f, [step], Next(f, step))
  {
    assert [step][1..] == [];
  }

  lemma RanSnoc(f: Flow, a: seq<Step>, g: Flow, step: Step)
    requires Ran(f, a, g) && Enabled(g, step)
    ensures Ran(f, a + [step], Next(g, step))
  {
    RanOne(g, step);
    RanThen(f, a, g, [step], Next(g, step));
  }

  // ---------------------------------------------------------------- loops

  lemma {:induction false} RangesSnoc(raws: seq<Raw>, ids: seq<Id>, id: Id, base: nat)
    ensures var end := base + |MemText(raws, ids)|;
      Ranges(raws, ids + [id], base) == Ranges(raws, ids, base) + [InFile(end, end + |Stored(raws, id)|)]
    decreases |ids|
  {
    if ids != [] {
      assert (ids + [id])[1..] == ids[1..] + [id];
      RangesSnoc(raws, ids[1..], id, base + |Stored(raws, ids[0])|);
    } else {
      assert (ids + [id])[1..] == [];
    }
  }

  lemma MemTextSnoc(raws: seq<Raw>, ids: seq<Id>, id: Id)
    ensures MemText(raws, ids + [id]) == MemText(raws, ids) + Stored(raws, id)
  {
    MemTextAppend(raws, ids, [id]);
    assert [id][1..] == [];
  }

  /** The memory held by busy buffers. */
  function BusySize(raws: seq<Raw>, bufs: seq<Buf>): nat {
    if bufs == [] then 0
    else (if bufs[0].InMemory? && bufs[0].raw < |raws| then raws[bufs[0].raw].size else 0) + BusySize(raws, bufs[1..])
  }

  /** Answers of recv_chain() on the upstream connection. */
  datatype Recv = Data(bytes: Text) | Blocked | Closed | Failed

  /** Answers of the output filter: whether it succeeded, and how many busy buffers are sent by then. */
  datatype Answer = Answer(ok: bool, count: nat)

  datatype Rc = Ok | Busy | Abort | Error

  datatype Preread = Preread(bytes: Text, room: nat, size: nat)

  datatype Limits = Limits(
    num: nat, size: nat, busySize: nat, writeSize: nat, maxTempSize: nat, cacheable: bool, singleBuf: bool)

  /** The header, if any, and the first k incoming buffers respect both limits on what is written to the file. */
  ghost predicate Fits(s: State, limits: Limits, k: nat) {
    k <= |s.incoming| &&
    var size := |Prefixed(s)| + |MemText(s.raws, s.incoming[..k])|;
    size <= limits.writeSize && |s.file| + size <= limits.maxTempSize
  }

  /** How many incoming buffers one spill takes. */
  ghost predicate Spills(s: State, limits: Limits, k: nat) {
    if limits.cacheable then k == |s.incoming|
    else k <= |s.incoming| && Fits(s, limits, k) && (k == |s.incoming| || !Fits(s, limits, k + 1))
  }

  /** How many raw buffers of that size were allocated. */
  function NewRaws(steps: seq<Step>, size: nat): nat {
    if steps == [] then 0 else (if steps[0] == NewRaw(size, size) then 1 else 0) + NewRaws(steps[1..], size)
  }

  lemma {:induction false} NewRawsAppend(a: seq<Step>, b: seq<Step>, size: nat)
    ensures NewRaws(a + b, size) == NewRaws(a, size) + NewRaws(b, size)
    decreases |a|
  {
    if a == [] {
      assert a + b == b;
    } else {
      assert (a + b)[1..] == a[1..] + b;
      NewRawsAppend(a[1..], b, size);
    }
  }

  lemma {:induction false} RoomOfFirst(raws: seq<Raw>, ids: seq<Id>)
    requires ids != []
    ensures Room(raws, ids[..1]) <= Room(raws, ids)
  {
    assert ids[..1][1..] == [];
  }

  lemma SpillNothing(s: State)
    ensures Spill(s, 0) == s.(file := s.file + Prefixed(s), header := None)
  {
    assert s.incoming[..0] == [] && s.incoming[0..] == s.incoming && s.free + [] == s.free && s.out + [] == s.out;
    assert ResetAll(s.raws, []) == s.raws;
    var base := s.file + Prefixed(s);
    assert base + [] == base;
  }

  datatype Linked = Linked(raws: seq<Raw>, free: seq<Id>, out: seq<Buf>, offset: nat)

  /** After the first buffers of the written chain have been moved. */
  ghost function LinkedAfter(s: State, ids: seq<Id>, base: nat): Linked {
    Linked(ResetAll(s.raws, ids), s.free + ids, s.out + Ranges(s.raws, ids, base), base + |MemText(s.raws, ids)|)
  }

  function LinkOne(s: State, l: Linked, id: Id): Linked {
    var end := l.offset + |Stored(s.raws, id)|;
    Linked(ResetOne(l.raws, id), l.free + [id], l.out + [InFile(l.offset, end)], end)
  }

  lemma LinkStep(s: State, ids: seq<Id>, id: Id, base: nat)
    ensures LinkedAfter(s, ids + [id], base) == LinkOne(s, LinkedAfter(s, ids, base), id)
  {
    RangesSnoc(s.raws, ids, id, base);
    MemTextSnoc(s.raws, ids, id);
    ResetSnoc(s.raws, ids, id);
    SnocIds(s.free, ids, id);
    var end := base + |MemText(s.raws, ids)|;
    SnocBufs(s.out, Ranges(s.raws, ids, base), InFile(end, end + |Stored(s.raws, id)|));
  }

  lemma SnocIds(a: seq<Id>, b: seq<Id>, x: Id)
    ensures a + (b + [x]) == a + b + [x]
  {
  }

  lemma SnocBufs(a: seq<Buf>, b: seq<Buf>, x: Buf)
    ensures a + (b + [x]) == a + b + [x]
  {
  }

  lemma LinkNothing(s: State, base: nat)
    ensures LinkedAfter(s, [], base) == Linked(s.raws, s.free, s.out, base)
  {
    assert ResetAll(s.raws, []) == s.raws;
  }

  /** The loop that moves written buffers from the incoming chain to out. */
  method Relink(s: State, k: nat) returns (t: State)
    requires k <= |s.incoming|
    ensures t == Spill(s, k)
  {
    var ids, base := s.incoming[..k], s.file + Prefixed(s);
    var l := Linked(s.raws, s.free, s.out, |base|);
    var j := 0;
    LinkNothing(s, |base|);
    assert ids[..0] == [];
    while j < k
      invariant j <= k && l == LinkedAfter(s, ids[..j], |base|)
    {
      assert ids[..j + 1] == ids[..j] + [ids[j]];
      LinkStep(s, ids[..j], ids[j], |base|);
      l := LinkOne(s, l, ids[j]);
      j := j + 1;
    }
    assert ids[..k] == ids;
    t := State(l.raws, l.free, s.incoming[k..], l.out, s.busy, base + MemText(s.raws, ids), None);
  }

  lemma ResetSnoc(raws: seq<Raw>, ids: seq<Id>, id: Id)
    ensures ResetAll(raws, ids + [id]) == ResetOne(ResetAll(raws, ids), id)
  {
    assert (ids + [id])[..|ids|] == ids;
  }

  /** The loop over the raw buffers that were read into, with the copy input filter. */
  method FillChain(raws: seq<Raw>, incoming: seq<Id>, free: seq<Id>, bytes: Text)
    returns (raws': seq<Raw>, incoming': seq<Id>, free': seq<Id>)
    ensures var p := Pour(raws, free, bytes); raws' == p.raws && incoming' == incoming + p.full && free' == p.rest
  {
    ghost var goal := Pour(raws, free, bytes);
    ghost var all := incoming + goal.full;
    var left := bytes;
    raws', incoming', free' := raws, incoming, free;
    while free' != [] && left != [] && free'[0] < |raws'|
      invariant ToGo(raws', incoming', free', left, goal.raws, all, goal.rest)
      decreases |free'|, |left|
    {
      var id := free'[0];
      var r := raws'[id];
      if |left| >= r.room {
        var full := Raw(r.data + left[..r.room], 0, r.size);
        OneFull(raws', incoming', free', left, goal.raws, all, goal.rest);
        raws' := raws'[id := full];
        if full.data != [] {
          incoming' := incoming' + [id];
        }
        left, free' := left[r.room..], free'[1..];
      } else {
        raws' := raws'[id := Raw(r.data + left, r.room - |left|, r.size)];
        left := [];
      }
    }
  }

  /** Pouring what is left leads to the given result. */
  ghost predicate ToGo(raws: seq<Raw>, incoming: seq<Id>, free: seq<Id>, left: Text,
                       raws': seq<Raw>, incoming': seq<Id>, free': seq<Id>)
  {
    var p := Pour(raws, free, left);
    p.raws == raws' && incoming + p.full == incoming' && p.rest == free'
  }

  lemma OneFull(raws: seq<Raw>, incoming: seq<Id>, free: seq<Id>, left: Text,
                raws': seq<Raw>, incoming': seq<Id>, free': seq<Id>)
    requires free != [] && left != [] && free[0] < |raws|
    requires raws[free[0]].room <= |left| && ToGo(raws, incoming, free, left, raws', incoming', free')
    ensures var r := raws[free[0]];
      var full := Filled(r, left[..r.room]);
      ToGo(raws[free[0] := full], incoming + Taken(full, free[0]), free[1..], left[r.room..], raws', incoming', free')
  {
    var r := raws[free[0]];
    var full := Filled(r, left[..r.room]);
    var q := Pour(raws[free[0] := full], free[1..], left[r.room..]);
    assert incoming + (Taken(full, free[0]) + q.full) == incoming + Taken(full, free[0]) + q.full;
  }
}
