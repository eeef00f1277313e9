/** Whether the event pipe can run out of raw buffers to save to the file.
  *
  * A spill is tried when no raw buffer is free and no more may be allocated; the code then looks at the first
  * incoming buffer without asking whether there is one (src/event/ngx_event_pipe.c:678).  There is one because not
  * all raw buffers can be with the output filter: it is given memory only up to busy_size, and the configuration
  * demands that all raw buffers together are larger (src/http/modules/ngx_http_proxy_module.c:1804).
  */
module PipeStock {
  import opened Bytes
  import opened Pipe

  /** A raw buffer of the configured size, none of whose memory precedes its data. */
  ghost predicate Whole(r: Raw, size: nat) {
    r.size == size && |r.data| + r.room == size
  }

  ghost predicate WholeAt(raws: seq<Raw>, id: Id, size: nat) {
    id < |raws| && Whole(raws[id], size)
  }

  ghost predicate Full(raws: seq<Raw>, id: Id) {
    id < |raws| ==> raws[id].room == 0
  }

  ghost function Wholes(raws: seq<Raw>, size: nat): set<Id> {
    set id: Id | id < |raws| && WholeAt(raws, id, size)
  }

  /** The memory of the whole raw buffers among these. */
  ghost function Held(raws: seq<Raw>, ids: seq<Id>, size: nat): nat {
    if ids == [] then 0 else (if WholeAt(raws, ids[0], size) then size else 0) + Held(raws, ids[1..], size)
  }

  /** No whole raw buffer is out of use, and incoming buffers are full. */
  ghost predicate Stocked(s: State, size: nat) {
    && (forall id: Id | WholeAt(s.raws, id, size) :: id in Uses(s))
    && (forall id | id in s.incoming :: Full(s.raws, id))
  }

  /** What holds while the upstream goes on. */
  ghost predicate Bounded(f: Flow, size: nat) {
    f.ended || f.failed || (Stocked(f.s, size) && Held(f.s.raws, RawsOf(f.s.busy), size) <= f.busySize)
  }

  // ---------------------------------------------------------------- sums

  lemma {:induction false} HeldAppend(raws: seq<Raw>, a: seq<Id>, b: seq<Id>, size: nat)
    ensures Held(raws, a + b, size) == Held(raws, a, size) + Held(raws, b, size)
    decreases |a|
  {
    if a == [] {
      assert a + b == b;
    } else {
      assert (a + b)[1..] == a[1..] + b;
      HeldAppend(raws, a[1..], b, size);
    }
  }

  lemma {:induction false} HeldFrame(raws: seq<Raw>, raws': seq<Raw>, ids: seq<Id>, size: nat)
    requires forall id | id in ids :: WholeAt(raws', id, size) == WholeAt(raws, id, size)
    ensures Held(raws', ids, size) == Held(raws, ids, size)
    decreases |ids|
  {
    if ids != [] {
      HeldFrame(raws, raws', ids[1..], size);
    }
  }

  /** What the code counts as busy is at least what is held. */
  lemma {:induction false} BusyCountsHeld(raws: seq<Raw>, bufs: seq<Buf>, size: nat)
    ensures Held(raws, RawsOf(bufs), size) <= BusySize(raws, bufs)
    decreases |bufs|
  {
    if bufs != [] {
      BusyCountsHeld(raws, bufs[1..], size);
      HeldAppend(raws, Owned(bufs[0]), RawsOf(bufs[1..]), size);
      if bufs[0].InMemory? {
        assert [bufs[0].raw][1..] == [];
      }
    }
  }

  /** Full buffers hold as many bytes as they are large. */
  lemma {:induction false} FullCountsHeld(raws: seq<Raw>, ids: seq<Id>, size: nat)
    requires forall id | id in ids :: Full(raws, id)
    ensures Held(raws, ids, size) <= |MemText(raws, ids)|
    decreases |ids|
  {
    if ids != [] {
      assert Full(raws, ids[0]);
      FullCountsHeld(raws, ids[1..], size);
    }
  }

  lemma OneMore(n: nat, size: nat)
    ensures (n + 1) * size == n * size + size
  {
  }

  /** Each of these whole raw buffers counts. */
  lemma {:induction false} HeldIsMany(raws: seq<Raw>, ids: seq<Id>, w: set<Id>, size: nat)
    requires forall id | id in w :: WholeAt(raws, id, size) && id in ids
    ensures Held(raws, ids, size) >= |w| * size
    decreases |ids|
  {
    if ids == [] {
      assert w == {};
    } else {
      var rest := w - {ids[0]};
      HeldIsMany(raws, ids[1..], rest, size);
      if ids[0] in w {
        OneMore(|rest|, size);
      } else {
        assert rest == w;
      }
    }
  }

  lemma WholesGrow(raws: seq<Raw>, raws': seq<Raw>, size: nat)
    requires forall id | WholeAt(raws, id, size) :: WholeAt(raws', id, size)
    ensures |Wholes(raws, size)| <= |Wholes(raws', size)|
  {
    SubsetSize(Wholes(raws, size), Wholes(raws', size));
  }

  // ---------------------------------------------------------------- steps

  /** Pouring keeps whole buffers whole. */
  lemma {:induction false} PourWhole(raws: seq<Raw>, ids: seq<Id>, bytes: Text, size: nat)
    ensures forall id: Id :: WholeAt(Pour(raws, ids, bytes).raws, id, size) == WholeAt(raws, id, size)
    decreases |ids|
  {
    if ids != [] && bytes != [] && ids[0] < |raws| {
      var r := raws[ids[0]];
      if |bytes| >= r.room {
        PourWhole(raws[ids[0] := Filled(r, bytes[..r.room])], ids[1..], bytes[r.room..], size);
      }
    }
  }

  /** ... and in the chain: only a buffer without memory is dropped. */
  lemma {:induction false} PourDropsNone(raws: seq<Raw>, ids: seq<Id>, bytes: Text, size: nat)
    requires size > 0
    ensures var p := Pour(raws, ids, bytes);
      forall id | id in ids && WholeAt(raws, id, size) :: id in p.full || id in p.rest
    decreases |ids|
  {
    if ids != [] && bytes != [] && ids[0] < |raws| && |bytes| >= raws[ids[0]].room {
      var r := raws[ids[0]];
      var full := Filled(r, bytes[..r.room]);
      var raws', tail := raws[ids[0] := full], ids[1..];
      PourDropsNone(raws', tail, bytes[r.room..], size);
      var p, q := Pour(raws, ids, bytes), Pour(raws', tail, bytes[r.room..]);
      forall id | id in ids && WholeAt(raws, id, size)
        ensures id in p.full || id in p.rest
      {
        if id == ids[0] && full.data != [] {
          assert p.full == [id] + q.full;
        } else {
          assert id in tail && WholeAt(raws', id, size);
        }
      }
    }
  }

  /** The buffers that pouring takes are full. */
  lemma {:induction false} PourTakesFull(raws: seq<Raw>, ids: seq<Id>, bytes: Text)
    requires AllKnown(ids, raws) && Distinct(ids)
    ensures var p := Pour(raws, ids, bytes); forall id | id in p.full :: Full(p.raws, id)
    decreases |ids|
  {
    if ids != [] && bytes != [] && |bytes| >= raws[ids[0]].room {
      var r := raws[ids[0]];
      var full := Filled(r, bytes[..r.room]);
      var raws', tail := raws[ids[0] := full], ids[1..];
      PourTakesFull(raws', tail, bytes[r.room..]);
      PourOthers(raws', tail, bytes[r.room..]);
      assert ids[0] !in tail;
    }
  }

  lemma ReadStocks(s: State, bytes: Text, size: nat)
    requires Valid(s) && Stocked(s, size) && size > 0
    ensures Stocked(Receive(s, bytes), size)
    ensures Held(Receive(s, bytes).raws, RawsOf(s.busy), size) == Held(s.raws, RawsOf(s.busy), size)
  {
    var p := Pour(s.raws, s.free, bytes);
    FreeIsApart(s);
    PourWhole(s.raws, s.free, bytes, size);
    HeldFrame(s.raws, p.raws, RawsOf(s.busy), size);
    ReadDropsNone(s, bytes, size);
    ReadFull(s, bytes, size);
  }

  lemma ReadDropsNone(s: State, bytes: Text, size: nat)
    requires Stocked(s, size) && size > 0
    ensures var t := Receive(s, bytes); forall id: Id | WholeAt(t.raws, id, size) :: id in Uses(t)
  {
    var t := Receive(s, bytes);
    PourWhole(s.raws, s.free, bytes, size);
    PourDropsNone(s.raws, s.free, bytes, size);
    forall id: Id | WholeAt(t.raws, id, size)
      ensures id in Uses(t)
    {
      assert WholeAt(s.raws, id, size) && id in Uses(s);
      UsedSomewhere(s, id);
      UsedSomewhere(t, id);
    }
  }

  lemma UsedSomewhere(s: State, id: Id)
    ensures id in Uses(s) <==> id in s.free || id in s.incoming || id in RawsOf(s.busy)
  {
  }

  lemma ReadFull(s: State, bytes: Text, size: nat)
    requires Valid(s) && Stocked(s, size)
    ensures var t := Receive(s, bytes); forall id | id in t.incoming :: Full(t.raws, id)
  {
    var t := Receive(s, bytes);
    FreeIsApart(s);
    PourTakesFull(s.raws, s.free, bytes);
    PourOthers(s.raws, s.free, bytes);
    forall id | id in t.incoming
      ensures Full(t.raws, id)
    {
      if id in s.incoming {
        assert Full(s.raws, id);
        Known(s, id);
      }
    }
  }

  /** Raw buffers that were not there are no part of any chain. */
  lemma AllocateStocks(s: State, room: nat, size': nat, size: nat)
    requires Valid(s) && Stocked(s, size) && s.free == []
    ensures var t := Allocate(s, |s.raws|, room, size');
      Stocked(t, size) && Held(t.raws, RawsOf(s.busy), size) == Held(s.raws, RawsOf(s.busy), size)
  {
    var t := Allocate(s, |s.raws|, room, size');
    forall id: Id | WholeAt(t.raws, id, size)
      ensures id in Uses(t)
    {
      UsedSomewhere(s, id);
      UsedSomewhere(t, id);
      if id < |s.raws| {
        assert WholeAt(s.raws, id, size);
      }
    }
    forall id | id in s.incoming || id in RawsOf(s.busy)
      ensures id < |s.raws| && t.raws[id] == s.raws[id]
    {
      Known(s, id);
    }
    forall id | id in s.incoming
      ensures Full(t.raws, id)
    {
      assert Full(s.raws, id);
    }
    HeldFrame(s.raws, t.raws, RawsOf(s.busy), size);
  }

  lemma NewWhole(s: State, room: nat, size': nat, size: nat)
    ensures |Wholes(Allocate(s, |s.raws|, room, size').raws, size)| >=
      |Wholes(s.raws, size)| + if room == size && size' == size then 1 else 0
  {
    var raws' := Allocate(s, |s.raws|, room, size').raws;
    assert forall id | WholeAt(s.raws, id, size) :: WholeAt(raws', id, size);
    if room == size && size' == size {
      assert WholeAt(raws', |s.raws|, size);
      SubsetSize(Wholes(s.raws, size) + {|s.raws|}, Wholes(raws', size));
    } else {
      WholesGrow(s.raws, raws', size);
    }
  }

  /** Some of these were reset, the others are as before. */
  ghost predicate SomeReset(raws: seq<Raw>, raws': seq<Raw>, ids: seq<Id>) {
    |raws'| == |raws| &&
    forall id: Id | id < |raws| :: raws'[id] == raws[id] || (id in ids && raws'[id] == Reset(raws[id]))
  }

  lemma {:induction false} ResetAllResets(raws: seq<Raw>, ids: seq<Id>)
    ensures SomeReset(raws, ResetAll(raws, ids), ids)
    decreases |ids|
  {
    if ids != [] {
      var front, last := ids[..|ids| - 1], ids[|ids| - 1];
      assert ids == front + [last];
      ResetAllResets(raws, front);
    }
  }

  lemma AddFreeResets(s: State, id: Id)
    ensures var t := AddFree(s, id);
      t.raws == ResetOne(s.raws, id) && t.incoming == s.incoming && t.busy == s.busy && t.header == s.header
  {
  }

  lemma ResetMore(raws: seq<Raw>, raws': seq<Raw>, raws'': seq<Raw>, ids: seq<Id>)
    requires ids != [] && SomeReset(raws, raws', ids[1..]) && raws'' == ResetOne(raws', ids[0])
    ensures SomeReset(raws, raws'', ids)
  {
    assert forall id | id in ids[1..] :: id in ids;
  }

  lemma {:induction false} AddAllResets(s: State, ids: seq<Id>)
    ensures var t := AddAll(s, ids);
      SomeReset(s.raws, t.raws, ids) && t.incoming == s.incoming && t.busy == s.busy && t.header == s.header
    decreases |ids|
  {
    if ids != [] {
      var u := AddAll(s, ids[1..]);
      AddAllResets(s, ids[1..]);
      AddFreeResets(u, ids[0]);
      ResetMore(s.raws, u.raws, AddFree(u, ids[0]).raws, ids);
    }
  }

  /** Resetting raw buffers that stay in use, and are not incoming, leaves the pipe stocked. */
  lemma ResetStocks(s: State, t: State, ids: seq<Id>, size: nat)
    requires Stocked(s, size) && SomeReset(s.raws, t.raws, ids) && Uses(t) == Uses(s)
    requires forall id | id in ids :: id in Uses(s)
    requires forall id | id in t.incoming :: id in s.incoming && id !in ids
    ensures Stocked(t, size)
  {
    forall id: Id | WholeAt(t.raws, id, size)
      ensures id in Uses(t)
    {
      if id !in ids {
        assert WholeAt(s.raws, id, size);
      }
    }
    forall id | id in t.incoming
      ensures Full(t.raws, id)
    {
      assert Full(s.raws, id);
    }
  }

  lemma ResetGrows(raws: seq<Raw>, raws': seq<Raw>, ids: seq<Id>, size: nat)
    requires SomeReset(raws, raws', ids)
    ensures |Wholes(raws, size)| <= |Wholes(raws', size)|
    ensures forall id: Id | id !in ids :: WholeAt(raws', id, size) == WholeAt(raws, id, size)
  {
    forall id: Id | WholeAt(raws, id, size)
      ensures WholeAt(raws', id, size)
    {
      assert raws'[id] == raws[id] || raws'[id] == Reset(raws[id]);
    }
    WholesGrow(raws, raws', size);
  }

  lemma SpillUses(s: State, k: nat)
    requires k <= |s.incoming|
    ensures Uses(Spill(s, k)) == Uses(s)
    ensures forall id | id in s.incoming[..k] :: id in Uses(s)
  {
    SplitIncoming(s, k);
  }

  lemma SpillStocks(s: State, k: nat, size: nat)
    requires Valid(s) && Stocked(s, size) && k <= |s.incoming|
    ensures Stocked(Spill(s, k), size)
    ensures Held(Spill(s, k).raws, RawsOf(s.busy), size) == Held(s.raws, RawsOf(s.busy), size)
  {
    var t, ids := Spill(s, k), s.incoming[..k];
    ResetAllResets(s.raws, ids);
    ResetGrows(s.raws, t.raws, ids, size);
    SpillUses(s, k);
    SpilledIsApart(s, k);
    ResetStocks(s, t, ids, size);
    HeldFrame(s.raws, t.raws, RawsOf(s.busy), size);
  }

  lemma ReleaseStocks(s: State, m: nat, size: nat)
    requires Valid(s) && Stocked(s, size) && m <= |s.busy|
    ensures Stocked(Release(s, m), size)
    ensures Held(Release(s, m).raws, RawsOf(Release(s, m).busy), size) <= Held(s.raws, RawsOf(s.busy), size)
  {
    var done, rest := s.busy[..m], s.busy[m..];
    var u, t, ids := s.(busy := rest), Release(s, m), RawsOf(done);
    AddAllResets(u, ids);
    assert s.busy == done + rest;
    RawsOfAppend(done, rest);
    ReleaseUses(s, m);
    SentIsApart(s, ids, RawsOf(rest));
    ResetStocks(s, t, ids, size);
    RestHolds(s.raws, t.raws, ids, RawsOf(rest), size);
  }

  lemma RestHolds(raws: seq<Raw>, raws': seq<Raw>, ids: seq<Id>, rest: seq<Id>, size: nat)
    requires SomeReset(raws, raws', ids) && forall id | id in ids :: id !in rest
    ensures Held(raws', rest, size) <= Held(raws, ids + rest, size)
  {
    ResetGrows(raws, raws', ids, size);
    HeldFrame(raws, raws', rest, size);
    HeldAppend(raws, ids, rest, size);
  }

  lemma ReleaseUses(s: State, m: nat)
    requires Valid(s) && m <= |s.busy|
    ensures Uses(Release(s, m)) == Uses(s)
  {
    var done, rest := s.busy[..m], s.busy[m..];
    assert s.busy == done + rest;
    RawsOfAppend(done, rest);
    ReleaseOnce(s, done, rest);
    OnceKnows(Uses(s), s.raws, RawsOf(done));
    AddAllKeeps(s.(busy := rest), RawsOf(done));
  }

  /** What has been sent is neither incoming nor still busy. */
  lemma SentIsApart(s: State, ids: seq<Id>, rest: seq<Id>)
    requires Valid(s) && RawsOf(s.busy) == ids + rest
    ensures forall id | id in ids :: id in Uses(s) && id !in s.incoming && id !in rest
  {
    forall id | id in ids
      ensures id in Uses(s) && id !in s.incoming && id !in rest
    {
      assert multiset(RawsOf(s.busy)) == multiset(ids) + multiset(rest);
      assert Uses(s)[id] <= 1;
      assert id in multiset(ids);
    }
  }

  /** What is handed on in memory is what the code counts, since incoming buffers are full. */
  lemma HandHolds(s: State, i: nat, j: nat, size: nat)
    requires Valid(s) && Stocked(s, size) && InTurn(s, i, j)
    ensures Held(s.raws, RawsOf(Hand(s, i, j).busy), size) ==
      Held(s.raws, RawsOf(s.busy), size) + Held(s.raws, s.incoming[..j], size)
    ensures Held(s.raws, s.incoming[..j], size) <= |MemText(s.raws, s.incoming[..j])|
  {
    var ids := s.incoming[..j];
    ReferIs(s.raws, s.file, ids);
    FileChainHasNoRaws(s.out[..i]);
    RawsOfAppend(s.out[..i], Refer(ids));
    RawsOfAppend(s.busy, s.out[..i] + Refer(ids));
    assert [] + ids == ids;
    HeldAppend(s.raws, RawsOf(s.busy), ids, size);
    FullCountsHeld(s.raws, ids, size);
  }

  lemma HandStocks(s: State, i: nat, j: nat, size: nat)
    requires Valid(s) && Stocked(s, size) && InTurn(s, i, j)
    ensures Stocked(Hand(s, i, j), size)
  {
    HandUses(s, i, j);
    var t := Hand(s, i, j);
    forall id | id in t.incoming
      ensures Full(t.raws, id)
    {
      assert id in s.incoming;
    }
  }

  lemma PassBounded(f: Flow, i: nat, j: nat, size: nat)
    requires Good(f) && Enabled(f, Pass(i, j)) && Bounded(f, size)
    ensures Bounded(Next(f, Pass(i, j)), size)
  {
    if !f.ended && !f.failed {
      HandStocks(f.s, i, j, size);
      HandHolds(f.s, i, j, size);
      BusyCountsHeld(f.s.raws, f.s.busy, size);
      if j == 0 {
        assert f.s.incoming[..0] == [];
      }
    }
  }

  lemma StepBounded(f: Flow, step: Step, size: nat)
    requires Good(f) && Enabled(f, step) && Bounded(f, size) && size > 0
    ensures Bounded(Next(f, step), size)
  {
    if f.ended || f.failed {
      return;
    }
    match step
    case Read(bytes) => ReadStocks(f.s, bytes, size);
    case EndOfInput =>
    case NewRaw(room, size') => AllocateStocks(f.s, room, size', size);
    case ToFile(k) => SpillStocks(f.s, k, size);
    case Pass(i, j) => PassBounded(f, i, j, size);
    case Sent(m) => ReleaseStocks(f.s, m, size);
    case Fail =>
  }

  lemma StepAllocates(f: Flow, step: Step, size: nat)
    requires Enabled(f, step)
    ensures |Wholes(Next(f, step).s.raws, size)| >= |Wholes(f.s.raws, size)| + NewRaws([step], size)
  {
    var s := f.s;
    assert [step][1..] == [];
    match step
    case Read(bytes) =>
      PourWhole(s.raws, s.free, bytes, size);
      WholesGrow(s.raws, Receive(s, bytes).raws, size);
    case NewRaw(room, size') => NewWhole(s, room, size', size);
    case ToFile(k) =>
      ResetAllResets(s.raws, s.incoming[..k]);
      ResetGrows(s.raws, Spill(s, k).raws, s.incoming[..k], size);
    case Sent(m) =>
      AddAllResets(s.(busy := s.busy[m..]), RawsOf(s.busy[..m]));
      ResetGrows(s.raws, Release(s, m).raws, RawsOf(s.busy[..m]), size);
    case EndOfInput =>
    case Pass(i, j) =>
    case Fail =>
  }

  /** A header is saved at most once. */
  lemma {:induction false} RunSavesHeader(f: Flow, steps: seq<Step>, g: Flow)
    requires Ran(f, steps, g)
    ensures g.s.header.None? || g.s.header == f.s.header
    decreases |steps|
  {
    if steps != [] {
      if steps[0].Sent? {
        var s, m := f.s, steps[0].count;
        AddAllResets(s.(busy := s.busy[m..]), RawsOf(s.busy[..m]));
      }
      RunSavesHeader(Next(f, steps[0]), steps[1..], g);
    }
  }

  lemma {:induction false} RunBounded(f: Flow, steps: seq<Step>, g: Flow, size: nat)
    requires Good(f) && Bounded(f, size) && Ran(f, steps, g) && size > 0
    ensures Good(g) && Bounded(g, size) && g.busySize == f.busySize
    ensures |Wholes(g.s.raws, size)| >= |Wholes(f.s.raws, size)| + NewRaws(steps, size)
    decreases |steps|
  {
    if steps != [] {
      OneStepBounded(f, steps[0], size);
      RunBounded(Next(f, steps[0]), steps[1..], g, size);
      assert steps == [steps[0]] + steps[1..];
      NewRawsAppend([steps[0]], steps[1..], size);
    }
  }

  lemma OneStepBounded(f: Flow, step: Step, size: nat)
    requires Good(f) && Bounded(f, size) && Enabled(f, step) && size > 0
    ensures var g := Next(f, step);
      && Good(g) && Bounded(g, size) && g.busySize == f.busySize
      && |Wholes(g.s.raws, size)| >= |Wholes(f.s.raws, size)| + NewRaws([step], size)
  {
    StepKeeps(f, step);
    StepBounded(f, step, size);
    StepAllocates(f, step, size);
  }

  /** Whole buffers are all with the output filter when they are neither free nor incoming. */
  lemma AllBusy(s: State, size: nat)
    requires Stocked(s, size) && s.free == [] && s.incoming == []
    ensures Held(s.raws, RawsOf(s.busy), size) >= |Wholes(s.raws, size)| * size
  {
    var w, ids := Wholes(s.raws, size), RawsOf(s.busy);
    forall id | id in w
      ensures WholeAt(s.raws, id, size) && id in ids
    {
      UsedSomewhere(s, id);
    }
    HeldIsMany(s.raws, ids, w, size);
  }

  lemma StartIsBounded(f: Flow, size: nat)
    requires Start(f)
    ensures Bounded(f, size)
  {
    assert RawsOf(f.s.busy) == [];
  }

  /** What the configuration demands of the buffers (src/http/modules/ngx_http_proxy_module.c:1770). */
  ghost predicate Demanded(num: nat, size: nat, busySize: nat) {
    num > 0 && size > 0 && busySize <= (num - 1) * size
  }

  /** Not all raw buffers can be with the output filter. */
  lemma NotAllBusy(f: Flow, num: nat, size: nat)
    requires Bounded(f, size) && !f.ended && !f.failed
    requires |Wholes(f.s.raws, size)| >= num && Demanded(num, size, f.busySize)
    ensures f.s.free != [] || f.s.incoming != []
  {
    if f.s.free == [] && f.s.incoming == [] {
      AllBusy(f.s, size);
      TooMany(|Wholes(f.s.raws, size)|, num, size);
    }
  }

  /** In every run, once as many raw buffers are allocated as the configuration allows and while the upstream goes on,
    * a pipe without free buffers has incoming ones to save. */
  lemma NoEmptySpill(f: Flow, steps: seq<Step>, g: Flow, num: nat, size: nat)
    requires Start(f) && Ran(f, steps, g) && !g.ended && !g.failed
    requires NewRaws(steps, size) >= num && Demanded(num, size, f.busySize)
    ensures g.s.free != [] || g.s.incoming != []
  {
    StartIsGood(f);
    StartIsBounded(f, size);
    RunBounded(f, steps, g, size);
    NotAllBusy(g, num, size);
  }

  lemma TooMany(n: nat, num: nat, size: nat)
    requires n >= num > 0 && size > 0
    ensures n * size > (num - 1) * size
  {
    assert n * size == (num - 1) * size + (n - num + 1) * size;
  }

  // ---------------------------------------------------------------- room in free buffers

  /** Every raw buffer has memory, and every free one has room. */
  ghost predicate Roomy(s: State) {
    && (forall i | 0 <= i < |s.raws| :: s.raws[i].size > 0)
    && (forall i | 0 <= i < |s.free| :: HasRoom(s.raws, s.free[i]))
  }

  ghost predicate HasRoom(raws: seq<Raw>, id: Id) {
    id < |raws| && raws[id].room > 0
  }

  /** No buffer is allocated without room. */
  ghost predicate NewRawsAreRoomy(steps: seq<Step>) {
    forall i | 0 <= i < |steps| && steps[i].NewRaw? :: steps[i].room > 0 && steps[i].size > 0
  }

  lemma {:induction false} PourRoomy(raws: seq<Raw>, ids: seq<Id>, bytes: Text)
    requires AllKnown(ids, raws) && Distinct(ids) && forall i | 0 <= i < |ids| :: HasRoom(raws, ids[i])
    ensures var p := Pour(raws, ids, bytes);
      && |p.raws| == |raws| && (forall id: Id | id < |raws| :: p.raws[id].size == raws[id].size)
      && (forall i | 0 <= i < |p.rest| :: HasRoom(p.raws, p.rest[i]))
    decreases |ids|
  {
    if ids != [] && bytes != [] {
      assert HasRoom(raws, ids[0]);
      var r, tail := raws[ids[0]], ids[1..];
      if |bytes| >= r.room {
        var raws' := raws[ids[0] := Filled(r, bytes[..r.room])];
        forall i | 0 <= i < |tail|
          ensures HasRoom(raws', tail[i])
        {
          assert HasRoom(raws, ids[i + 1]) && ids[i + 1] != ids[0];
        }
        PourRoomy(raws', tail, bytes[r.room..]);
      } else {
        var raws' := raws[ids[0] := Filled(r, bytes)];
        forall i | 0 <= i < |ids|
          ensures HasRoom(raws', ids[i])
        {
          assert HasRoom(raws, ids[i]);
        }
      }
    }
  }

  lemma {:induction false} ResetHasRoom(raws: seq<Raw>, ids: seq<Id>)
    ensures forall id | id in ids && id < |raws| :: ResetAll(raws, ids)[id] == Reset(raws[id])
    ensures forall id: Id | id < |raws| && id !in ids :: ResetAll(raws, ids)[id] == raws[id]
    decreases |ids|
  {
    if ids != [] {
      var front, last := ids[..|ids| - 1], ids[|ids| - 1];
      assert ids == front + [last];
      ResetHasRoom(raws, front);
    }
  }

  lemma SpillRoomy(s: State, k: nat)
    requires Valid(s) && Roomy(s) && k <= |s.incoming|
    ensures Roomy(Spill(s, k))
  {
    var t, ids := Spill(s, k), s.incoming[..k];
    SpilledIsApart(s, k);
    ResetHasRoom(s.raws, ids);
    forall i | 0 <= i < |t.free|
      ensures HasRoom(t.raws, t.free[i])
    {
      if i < |s.free| {
        assert HasRoom(s.raws, s.free[i]) && t.free[i] == s.free[i];
      } else {
        assert t.free[i] == ids[i - |s.free|];
      }
    }
  }

  lemma AddFreeRoomy(s: State, id: Id)
    requires Roomy(s) && id < |s.raws|
    ensures Roomy(AddFree(s, id))
  {
    var t := AddFree(s, id);
    forall i | 0 <= i < |t.free|
      ensures HasRoom(t.raws, t.free[i])
    {
      if t.free[i] != id {
        assert t.free[i] in s.free;
        var j :| 0 <= j < |s.free| && s.free[j] == t.free[i];
        assert HasRoom(s.raws, s.free[j]);
      }
    }
  }

  lemma {:induction false} AddAllRoomy(s: State, ids: seq<Id>)
    requires Roomy(s) && AllKnown(ids, s.raws)
    ensures Roomy(AddAll(s, ids))
    decreases |ids|
  {
    if ids != [] {
      AddAllRoomy(s, ids[1..]);
      AddFreeRoomy(AddAll(s, ids[1..]), ids[0]);
    }
  }

  lemma ReadRoomy(s: State, bytes: Text)
    requires Valid(s) && Roomy(s)
    ensures Roomy(Receive(s, bytes))
  {
    FreeIsApart(s);
    PourRoomy(s.raws, s.free, bytes);
  }

  lemma ReleaseRoomy(s: State, m: nat)
    requires Valid(s) && Roomy(s) && m <= |s.busy|
    ensures Roomy(Release(s, m))
  {
    var done, rest := s.busy[..m], s.busy[m..];
    assert s.busy == done + rest;
    RawsOfAppend(done, rest);
    OnceKnows(Uses(s), s.raws, RawsOf(done));
    AddAllRoomy(s.(busy := rest), RawsOf(done));
  }

  lemma StepRoomy(f: Flow, step: Step)
    requires Good(f) && Roomy(f.s) && Enabled(f, step) && (step.NewRaw? ==> step.room > 0 && step.size > 0)
    ensures Roomy(Next(f, step).s)
  {
    match step
    case Read(bytes) => ReadRoomy(f.s, bytes);
    case EndOfInput =>
    case NewRaw(room, size) =>
    case ToFile(k) => SpillRoomy(f.s, k);
    case Pass(i, j) =>
    case Sent(m) => ReleaseRoomy(f.s, m);
    case Fail =>
  }

  /** Free buffers have room in every run, unless one was allocated without. */
  lemma {:induction false} RunRoomy(f: Flow, steps: seq<Step>, g: Flow)
    requires Good(f) && Roomy(f.s) && Ran(f, steps, g) && NewRawsAreRoomy(steps)
    ensures Roomy(g.s)
    decreases |steps|
  {
    if steps != [] {
      StepKeeps(f, steps[0]);
      StepRoomy(f, steps[0]);
      assert forall i | 0 <= i < |steps| - 1 :: steps[1..][i] == steps[i + 1];
      RunRoomy(Next(f, steps[0]), steps[1..], g);
    }
  }
}
