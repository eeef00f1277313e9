/** The two directions of the event pipe as src/event/ngx_event_pipe.c drives them.
  *
  * Every method does steps of the machine in module Pipe and reports them.
  */
module PipeEvents {
  import opened Bytes
  import opened Pipe
  import opened PipeStock

  // ---------------------------------------------------------------- what is read

  /** How many bytes the chain given to recv_chain() can take. */
  ghost function Offer(s: State, limits: Limits): nat {
    if limits.singleBuf && s.free != [] then Room(s.raws, s.free[..1]) else Room(s.raws, s.free)
  }

  /** The bytes that an answer puts into so much room. */
  function Got(e: Recv, room: nat): Text {
    if !e.Data? then [] else if |e.bytes| <= room then e.bytes else e.bytes[..room]
  }

  /** An answer that is taken for the end of the upstream. */
  predicate TakenForEnd(e: Recv, room: nat) {
    (e.Closed? || e.Data?) && Got(e, room) == []
  }

  /** recv_chain() was called after these steps, with the pipe in this state. */
  datatype Asked = Asked(before: seq<Step>, flow: Flow)

  ghost predicate WasAsked(f: Flow, steps: seq<Step>, a: Asked) {
    a.before <= steps && Ran(f, a.before, a.flow) && a.flow.s.free != []
  }

  ghost predicate AllAsked(f: Flow, steps: seq<Step>, log: seq<Asked>) {
    forall i | 0 <= i < |log| :: WasAsked(f, steps, log[i])
  }

  ghost function GotAt(limits: Limits, script: seq<Recv>, log: seq<Asked>, i: nat): Text
    requires i < |log| <= |script|
  {
    Got(script[i], Offer(log[i].flow.s, limits))
  }

  /** The bytes of the answers that were asked for, one after the other. */
  ghost function AllGot(limits: Limits, script: seq<Recv>, log: seq<Asked>): Text
    requires |log| <= |script|
    decreases |log|
  {
    if log == [] then [] else AllGot(limits, script, log[..|log| - 1]) + GotAt(limits, script, log, |log| - 1)
  }

  /** From f to g the pipe took `lead` and the bytes of the first |log| answers, each as far as there was room, and no
    * other; all but the last of them gave some.  The upstream has ended if the last one is taken for the end, and
    * failed if the last one says so. */
  ghost predicate Heard(limits: Limits, f: Flow, lead: Text, script: seq<Recv>, log: seq<Asked>, g: Flow) {
    && |log| <= |script|
    && g.received == f.received + lead + AllGot(limits, script, log)
    && (forall i | 0 <= i < |log| - 1 :: GotAt(limits, script, log, i) != [])
    && (g.ended <==> log != [] && TakenForEnd(script[|log| - 1], Offer(log[|log| - 1].flow.s, limits)))
    && (g.failed <==> log != [] && script[|log| - 1].Failed?)
  }

  /** The loop has reason to stop: the last answer gave nothing. */
  ghost predicate Silenced(limits: Limits, script: seq<Recv>, log: seq<Asked>) {
    0 < |log| <= |script| && GotAt(limits, script, log, |log| - 1) == []
  }

  /** No buffer is to be had: all are allocated and in use, and the client is to take some first, or the file must
    * not grow, or not even the first incoming buffer may be written. */
  ghost predicate NoBuffers(limits: Limits, s: State, created: nat, downstreamReady: bool) {
    && !limits.cacheable && s.free == [] && created >= limits.num
    && (downstreamReady || |s.file| >= limits.maxTempSize || !Fits(s, limits, if s.header.Some? then 0 else 1))
  }

  /** What has to be written is more than the disk takes. */
  ghost predicate DiskFull(limits: Limits, s: State, space: nat) {
    exists k: nat :: k <= |s.incoming| && Spills(s, limits, k) && |Prefixed(s)| + |MemText(s.raws, s.incoming[..k])| > space
  }

  function PrereadBytes(p: Option<Preread>): Text {
    if p.Some? then p.value.bytes else []
  }

  // ---------------------------------------------------------------- states of a run

  ghost predicate FromStart(limits: Limits, f: Flow, past: seq<Step>, g: Flow, created: nat) {
    && Start(f) && f.busySize == limits.busySize && Ran(f, past, g) && created <= NewRaws(past, limits.size)
    && (f.s.header.Some? ==> limits.cacheable)
  }

  /** A run leads to g, in which at least so many raw buffers of the configured size were allocated. */
  ghost predicate Reached(limits: Limits, g: Flow, created: nat) {
    exists f: Flow, past: seq<Step> :: FromStart(limits, f, past, g, created)
  }

  lemma ReachedLater(limits: Limits, g: Flow, created: nat, steps: seq<Step>, h: Flow, created': nat)
    requires Reached(limits, g, created) && Ran(g, steps, h) && created' <= created + NewRaws(steps, limits.size)
    ensures Reached(limits, h, created')
  {
    var f: Flow, past: seq<Step> :| FromStart(limits, f, past, g, created);
    RanThen(f, past, g, steps, h);
    NewRawsAppend(past, steps, limits.size);
    assert FromStart(limits, f, past + steps, h, created');
  }

  /** There the byte account is right, and the raw buffers allocated so far are in the chains. */
  lemma ReachedIsGood(limits: Limits, g: Flow, created: nat)
    requires Reached(limits, g, created) && limits.size > 0
    ensures Good(g) && Bounded(g, limits.size) && created <= |Wholes(g.s.raws, limits.size)|
    ensures g.busySize == limits.busySize && (g.s.header.Some? ==> limits.cacheable)
  {
    var f: Flow, past: seq<Step> :| FromStart(limits, f, past, g, created);
    StartIsGood(f);
    StartIsBounded(f, limits.size);
    RunBounded(f, past, g, limits.size);
    RunSavesHeader(f, past, g);
  }

  lemma SomethingToSpill(limits: Limits, g: Flow, created: nat)
    requires Reached(limits, g, created) && Demanded(limits.num, limits.size, limits.busySize)
    requires !g.ended && !g.failed && created >= limits.num && g.s.free == []
    ensures g.s.incoming != [] && (g.s.header.Some? ==> limits.cacheable)
  {
    ReachedIsGood(limits, g, created);
    NotAllBusy(g, limits.num, limits.size);
  }

  lemma AskedLater(f: Flow, steps: seq<Step>, more: seq<Step>, log: seq<Asked>)
    requires AllAsked(f, steps, log)
    ensures AllAsked(f, steps + more, log)
  {
    forall i | 0 <= i < |log|
      ensures WasAsked(f, steps + more, log[i])
    {
      assert WasAsked(f, steps, log[i]);
    }
  }

  ghost function Shifted(pre: seq<Step>, log: seq<Asked>): (r: seq<Asked>)
    ensures |r| == |log| && forall i | 0 <= i < |log| :: r[i] == Asked(pre + log[i].before, log[i].flow)
  {
    if log == [] then [] else Shifted(pre, log[..|log| - 1]) + [Asked(pre + log[|log| - 1].before, log[|log| - 1].flow)]
  }

  lemma AskedNow(f: Flow, before: seq<Step>, g: Flow, taken: seq<Step>, h: Flow, size: nat)
    requires Ran(f, before, g) && Ran(g, taken, h) && g.s.free != []
    requires NewRawsAreRoomy(before) && NewRawsAreRoomy(taken) && NewRaws(taken, size) == 0
    ensures Ran(f, before + taken, h) && WasAsked(f, before + taken, Asked(before, g))
    ensures NewRaws(before + taken, size) == NewRaws(before, size) && NewRawsAreRoomy(before + taken)
  {
    RanThen(f, before, g, taken, h);
    NewRawsAppend(before, taken, size);
  }

  lemma AskedEarlier(f: Flow, pre: seq<Step>, g: Flow, steps: seq<Step>, log: seq<Asked>)
    requires Ran(f, pre, g) && AllAsked(g, steps, log)
    ensures AllAsked(f, pre + steps, Shifted(pre, log))
  {
    forall i | 0 <= i < |log|
      ensures WasAsked(f, pre + steps, Shifted(pre, log)[i])
    {
      assert WasAsked(g, steps, log[i]);
      RanThen(f, pre, g, log[i].before, log[i].flow);
    }
  }

  lemma {:induction false} GotShifted(limits: Limits, script: seq<Recv>, pre: seq<Step>, log: seq<Asked>)
    requires |log| <= |script|
    ensures AllGot(limits, script, Shifted(pre, log)) == AllGot(limits, script, log)
    decreases |log|
  {
    if log != [] {
      var init := log[..|log| - 1];
      GotShifted(limits, script, pre, init);
      assert Shifted(pre, log)[..|log| - 1] == Shifted(pre, init);
    }
  }

  lemma HeardShifted(limits: Limits, f: Flow, lead: Text, g: Flow, pre: seq<Step>, script: seq<Recv>, log: seq<Asked>, h: Flow)
    requires g.received == f.received + lead && Heard(limits, g, [], script, log, h)
    ensures Heard(limits, f, lead, script, Shifted(pre, log), h)
  {
    GotShifted(limits, script, pre, log);
    assert g.received + [] == f.received + lead;
    forall i | 0 <= i < |log| - 1
      ensures GotAt(limits, script, Shifted(pre, log), i) != []
    {
      assert GotAt(limits, script, log, i) != [];
    }
  }

  lemma OneRoom(raws: seq<Raw>, id: Id)
    ensures Room(raws, [id]) == if id < |raws| then raws[id].room else 0
  {
    assert [id][1..] == [];
  }

  lemma OneOffer(limits: Limits, s: State)
    requires |s.free| == 1 && s.free[0] < |s.raws|
    ensures Offer(s, limits) == s.raws[s.free[0]].room
  {
    assert s.free == [s.free[0]] && s.free[..1] == s.free;
    OneRoom(s.raws, s.free[0]);
  }

  lemma HeardNothing(limits: Limits, f: Flow, script: seq<Recv>)
    requires !f.ended && !f.failed
    ensures Heard(limits, f, [], script, [], f)
  {
    assert f.received + [] + [] == f.received;
  }

  /** One more answer. */
  lemma HeardMore(limits: Limits, f: Flow, script: seq<Recv>, log: seq<Asked>, g: Flow, a: Asked, h: Flow)
    requires Heard(limits, f, [], script, log, g) && !g.ended && !g.failed && |log| < |script|
    requires forall i | 0 <= i < |log| :: GotAt(limits, script, log, i) != []
    requires var e, room := script[|log|], Offer(a.flow.s, limits);
      h.received == g.received + Got(e, room) && h.ended == TakenForEnd(e, room) && h.failed == e.Failed?
    ensures Heard(limits, f, [], script, log + [a], h)
    ensures forall i | 0 <= i < |log| :: GotAt(limits, script, log + [a], i) != []
    ensures GotAt(limits, script, log + [a], |log|) == Got(script[|log|], Offer(a.flow.s, limits))
  {
    var log' := log + [a];
    assert log'[..|log'| - 1] == log;
    forall i | 0 <= i < |log|
      ensures GotAt(limits, script, log', i) != []
    {
      assert GotAt(limits, script, log, i) != [];
    }
    var all, got := AllGot(limits, script, log), Got(script[|log|], Offer(a.flow.s, limits));
    assert AllGot(limits, script, log') == all + got;
    assert f.received + [] + all + got == f.received + [] + (all + got);
  }

  /** These steps lead from f to g, and this is what was asked and heard on the way. */
  ghost predicate Told(limits: Limits, f: Flow, steps: seq<Step>, lead: Text, script: seq<Recv>, log: seq<Asked>, g: Flow) {
    Ran(f, steps, g) && AllAsked(f, steps, log) && Heard(limits, f, lead, script, log, g)
  }

  ghost predicate AllGave(limits: Limits, script: seq<Recv>, log: seq<Asked>) {
    |log| <= |script| && forall i | 0 <= i < |log| :: GotAt(limits, script, log, i) != []
  }

  /** What an answer does to the pipe that asked for it. */
  ghost predicate Answered(limits: Limits, g: Flow, e: Recv, a: Asked, h: Flow) {
    var room := Offer(a.flow.s, limits);
    h.received == g.received + Got(e, room) && h.ended == TakenForEnd(e, room) && h.failed == e.Failed?
  }

  ghost function Behind(steps: seq<Step>, a: Asked): Asked {
    Asked(steps + a.before, a.flow)
  }

  lemma ToldMore(limits: Limits, f: Flow, steps: seq<Step>, script: seq<Recv>, log: seq<Asked>, g: Flow,
                 taken: seq<Step>, a: Asked, h: Flow)
    requires Told(limits, f, steps, [], script, log, g) && AllGave(limits, script, log) && |log| < |script|
    requires !g.ended && !g.failed && Ran(g, taken, h) && WasAsked(g, taken, a) && Answered(limits, g, script[|log|], a, h)
    ensures Told(limits, f, steps + taken, [], script, log + [Behind(steps, a)], h)
    ensures if Got(script[|log|], Offer(a.flow.s, limits)) != [] then AllGave(limits, script, log + [Behind(steps, a)])
            else Silenced(limits, script, log + [Behind(steps, a)])
  {
    RanThen(f, steps, g, taken, h);
    RanThen(f, steps, g, a.before, a.flow);
    AskedLater(f, steps, taken, log);
    HeardMore(limits, f, script, log, g, Behind(steps, a), h);
  }

  /** Steps by which nothing is heard. */
  lemma ToldLater(limits: Limits, f: Flow, steps: seq<Step>, lead: Text, script: seq<Recv>, log: seq<Asked>, g: Flow,
                  taken: seq<Step>, h: Flow)
    requires Told(limits, f, steps, lead, script, log, g) && Ran(g, taken, h)
    requires h.received == g.received && h.ended == g.ended && h.failed == g.failed
    ensures Told(limits, f, steps + taken, lead, script, log, h)
  {
    RanThen(f, steps, g, taken, h);
    AskedLater(f, steps, taken, log);
  }

  lemma ToldFirst(limits: Limits, f: Flow, pre: seq<Step>, lead: Text, g: Flow, steps: seq<Step>, script: seq<Recv>,
                  log: seq<Asked>, h: Flow)
    requires Ran(f, pre, g) && g.received == f.received + lead && Told(limits, g, steps, [], script, log, h)
    ensures Told(limits, f, pre + steps, lead, script, Shifted(pre, log), h)
    ensures Silenced(limits, script, log) ==> Silenced(limits, script, Shifted(pre, log))
  {
    RanThen(f, pre, g, steps, h);
    AskedEarlier(f, pre, g, steps, log);
    HeardShifted(limits, f, lead, g, pre, script, log, h);
  }

  // ---------------------------------------------------------------- what is written

  /** The buffers that the output filter is given next: none while it holds too much memory; otherwise all of out, and
    * as many incoming ones as it may hold, but none of a response to be cached. */
  ghost predicate Chosen(limits: Limits, s: State, i: nat, j: nat) {
    var busy := BusySize(s.raws, s.busy);
    if busy >= limits.busySize then i == 0 && j == 0
    else
      && i == |s.out| && j <= |s.incoming| && (limits.cacheable ==> j == 0)
      && (j > 0 ==> busy + |MemText(s.raws, s.incoming[..j])| <= limits.busySize)
      && (limits.cacheable || j == |s.incoming| || busy + |MemText(s.raws, s.incoming[..j + 1])| > limits.busySize)
  }

  /** Nothing is left to give. */
  ghost predicate NothingLeft(limits: Limits, s: State) {
    s.out == [] && (limits.cacheable || s.incoming == []) && BusySize(s.raws, s.busy) < limits.busySize
  }

  /** After the end of the upstream both chains are given to the output filter, and a header that a response to be cached
    * has not saved yet goes to the file. */
  ghost predicate PassedAll(limits: Limits, s: State, space: nat, ok: bool, rc: Rc, t: State) {
    if !ok then rc == Error && t == s
    else
      && t.out == [] && t.incoming == [] && t.busy == s.busy + (s.out + Refer(s.incoming))
      && t.raws == s.raws && t.free == s.free
      && if !limits.cacheable || s.header.None? then rc == Ok && t.file == s.file && t.header == s.header
         else if |s.header.value| > space then rc == Abort && t.file == s.file
         else rc == Ok && t.file == s.file + s.header.value && t.header == None
  }

  lemma HandAll(s: State)
    ensures var t := Hand(s, |s.out|, |s.incoming|);
      t.out == [] && t.incoming == [] && t.busy == s.busy + (s.out + Refer(s.incoming))
  {
    assert s.out[..|s.out|] == s.out && s.incoming[..|s.incoming|] == s.incoming;
  }

  /** One call of the output filter: the pipe before it, what it was given and how many busy buffers were sent by then. */
  datatype Call = Call(flow: Flow, fromOut: nat, fromIn: nat, count: nat)

  ghost predicate Serves(limits: Limits, c: Call, a: Answer, g: Flow) {
    && a.ok && Chosen(limits, c.flow.s, c.fromOut, c.fromIn) && Enabled(c.flow, Pass(c.fromOut, c.fromIn))
    && var h := Next(c.flow, Pass(c.fromOut, c.fromIn));
    && c.count == (if a.count < |h.s.busy| then a.count else |h.s.busy|)
    && g == Next(h, Step.Sent(c.count))
  }

  /** From f to g the output filter was called so often, each time with what was to be given then. */
  ghost predicate Wrote(limits: Limits, f: Flow, script: seq<Answer>, calls: seq<Call>, g: Flow)
    decreases |calls|
  {
    if calls == [] then f == g
    else
      var n := |calls| - 1;
      n < |script| && Wrote(limits, f, script, calls[..n], calls[n].flow) && Serves(limits, calls[n], script[n], g)
  }

  /** How many calls gave the output filter nothing. */
  ghost function EmptyCalls(calls: seq<Call>): nat {
    if calls == [] then 0
    else
      var n := |calls| - 1;
      EmptyCalls(calls[..n]) + if calls[n].fromOut + calls[n].fromIn == 0 then 1 else 0
  }

  lemma WroteMore(limits: Limits, f: Flow, script: seq<Answer>, calls: seq<Call>, c: Call, g: Flow)
    requires Wrote(limits, f, script, calls, c.flow) && |calls| < |script| && Serves(limits, c, script[|calls|], g)
    ensures Wrote(limits, f, script, calls + [c], g)
    ensures EmptyCalls(calls + [c]) == EmptyCalls(calls) + if c.fromOut + c.fromIn == 0 then 1 else 0
  {
    assert (calls + [c])[..|calls|] == calls;
  }

  class EventPipe {
    const limits: Limits
    var s: State
    var preread: Option<Preread>
    var created: nat
    var space: nat           // how much the disk still takes
    var eof: bool            // p->upstream_eof
    var error: bool          // p->upstream_error
    var done: bool           // p->downstream_done
    ghost var received: Text
    ghost var sent: Text

    /** Only a response to be cached has a header to save (src/http/ngx_http_upstream.c:2258). */
    constructor (limits: Limits, preread: Option<Preread>, header: Option<Text>, space: nat)
      requires Demanded(limits.num, limits.size, limits.busySize) && (header.Some? ==> limits.cacheable)
      ensures Supplied() && Start(F()) && this.limits == limits && this.preread == preread && !eof && !error && !done
    {
      this.limits, this.preread, this.space := limits, preread, space;
      s := State([], [], [], [], [], [], header);
      created, eof, error, done, received, sent := 0, false, false, false, [], [];
      new;
      assert FromStart(limits, F(), [], F(), created);
    }

    /** The configuration is as demanded, and the pipe is in a state that a run leads to. */
    ghost predicate Supplied()
      reads this
    {
      Demanded(limits.num, limits.size, limits.busySize) && Reached(limits, F(), created)
    }

    /** Steps keep a pipe supplied; an allocated buffer may be counted. */
    twostate lemma StaysSupplied(steps: seq<Step>)
      requires old(Supplied()) && Ran(old(F()), steps, F())
      requires created <= old(created) + NewRaws(steps, limits.size)
      ensures Supplied()
    {
      ReachedLater(limits, old(F()), old(created), steps, F(), created);
    }

    ghost function F(): Flow
      reads this
    {
      Flow(s, sent, received, eof, error, limits.busySize)
    }

    /** Bytes have been read into the free buffers. */
    method Fill(bytes: Text)
      requires Enabled(F(), Read(bytes))
      modifies this`s, this`received
      ensures F() == Next(old(F()), Read(bytes))
    {
      var raws, incoming, free := FillChain(s.raws, s.incoming, s.free, bytes);
      s := s.(raws := raws, incoming := incoming, free := free);
      received := received + bytes;
    }

    /** The upstream has closed: the partially filled buffer is passed to the input filter. */
    method End()
      modifies this`s, this`eof
      ensures F() == Next(old(F()), EndOfInput)
    {
      if s.free != [] {
        var pushed := if Stored(s.raws, s.free[0]) == [] then [] else [s.free[0]];
        s := s.(incoming := s.incoming + pushed, free := s.free[1..]);
      }
      eof := true;
    }

    /** How many incoming buffers fit into the next piece of the file; None if not even the first thing to write does. */
    method CountFitting() returns (k: Option<nat>)
      requires s.incoming != [] || s.header.Some?
      ensures k.Some? ==> k.value <= |s.incoming| && Fits(s, limits, k.value)
      ensures k.Some? ==> k.value == |s.incoming| || !Fits(s, limits, k.value + 1)
      ensures k.Some? && s.header.None? ==> k.value > 0
      ensures k.None? ==> if s.header.Some? then !Fits(s, limits, 0) else !Fits(s, limits, 1)
    {
      var size, n := 0, 0;
      assert s.incoming[..0] == [];
      if s.header.Some? {
        size := |s.header.value|;
        if size > limits.writeSize || |s.file| + size > limits.maxTempSize {
          return None;
        }
      }
      while n < |s.incoming|
        invariant n <= |s.incoming| && (n > 0 || s.header.Some? ==> Fits(s, limits, n))
        invariant size == |Prefixed(s)| + |MemText(s.raws, s.incoming[..n])|
      {
        var bsize := |Stored(s.raws, s.incoming[n])|;
        assert s.incoming[..n + 1] == s.incoming[..n] + [s.incoming[n]];
        MemTextSnoc(s.raws, s.incoming[..n], s.incoming[n]);
        if size + bsize > limits.writeSize || |s.file| + size + bsize > limits.maxTempSize {
          break;
        }
        size, n := size + bsize, n + 1;
      }
      return if n == 0 && s.header.None? then None else Some(n);
    }

    /** ngx_event_pipe_write_chain_to_temp_file: one spill of all incoming buffers, or of as many as fit if the
      * response is not to be cached; nothing if not even one does, or if the disk is full. */
    method SpillToFile() returns (rc: Rc, ghost steps: seq<Step>)
      requires s.incoming != [] || s.header.Some?
      modifies this`s, this`space
      ensures Ran(old(F()), steps, F())
      ensures rc == Ok || rc == Busy || rc == Abort
      ensures rc == Ok ==> |steps| == 1 && steps[0].ToFile? && Spills(old(s), limits, steps[0].count)
      ensures rc == Busy ==> !limits.cacheable && if s.header.Some? then !Fits(s, limits, 0) else !Fits(s, limits, 1)
      ensures rc == Abort ==> DiskFull(limits, s, space)
      ensures rc != Ok ==> steps == [] && s == old(s) && space == old(space)
      ensures rc == Ok && limits.cacheable ==> s.incoming == []
      ensures rc == Ok && old(s.incoming) != [] && (limits.cacheable || old(s.header).None?) ==> s.free != []
    {
      steps := [];
      var k := |s.incoming|;
      if !limits.cacheable {
        var fitting := CountFitting();
        if fitting.None? {
          return Busy, steps;
        }
        k := fitting.value;
      }
      var bytes := Prefixed(s) + MemText(s.raws, s.incoming[..k]);
      if |bytes| > space {
        assert Spills(s, limits, k);
        return Abort, steps;
      }
      space := space - |bytes|;
      steps := [ToFile(k)];
      RanOne(F(), ToFile(k));
      s := Relink(s, k);
      return Ok, steps;
    }

    /** Find buffers to read into: free ones, a new one, or ones made free by writing to the file.  There is always
      * something to write then, which the code does not ask: not all raw buffers can be with the output filter. */
    method GetBuffers(downstreamReady: bool) returns (rc: Rc, ready: bool, ghost steps: seq<Step>)
      requires Supplied() && !eof && !error
      modifies this`s, this`space, this`created
      ensures Supplied() && Ran(old(F()), steps, F())
      ensures ready ==> rc == Ok && s.free != []
      ensures old(s.free) != [] ==> ready && steps == [] && F() == old(F())
      ensures !ready ==> F() == old(F()) && space == old(space) && created == old(created)
      ensures !ready ==> if rc == Abort then DiskFull(limits, s, space) else NoBuffers(limits, s, created, downstreamReady)
      ensures NewRawsAreRoomy(steps)
      ensures old(created) <= created <= old(created) + NewRaws(steps, limits.size)
    {
      rc, ready, steps := Ok, true, [];
      if s.free != [] {
        return;
      }
      if created < limits.num {
        RanOne(F(), NewRaw(limits.size, limits.size));
        steps := [NewRaw(limits.size, limits.size)];
        assert steps[1..] == [];
        s := s.(raws := s.raws + [Raw([], limits.size, limits.size)], free := [|s.raws|]);
        created := created + 1;
        StaysSupplied(steps);
      } else if !limits.cacheable && downstreamReady {
        ready := false;
      } else if limits.cacheable || |s.file| < limits.maxTempSize {
        SomethingToSpill(limits, F(), created);
        rc, steps := SpillToFile();
        ready := rc == Ok;
        StaysSupplied(steps);
      } else {
        ready := false;
      }
    }

    /** How many of n bytes the chain given to recv_chain() can take. */
    method Fitting(n: nat) returns (m: nat)
      requires s.free != []
      ensures m == (if n <= Offer(s, limits) then n else Offer(s, limits)) <= Room(s.raws, s.free)
    {
      var room := if limits.singleBuf then Room(s.raws, s.free[..1]) else Room(s.raws, s.free);
      RoomOfFirst(s.raws, s.free);
      m := if n < room then n else room;
    }

    /** One recv_chain(); false when the loop ends. */
    method ReadOnce(e: Recv) returns (more: bool, ghost steps: seq<Step>)
      requires !eof && !error && s.free != []
      modifies this`s, this`received, this`eof, this`error
      ensures old(Supplied()) ==> Supplied()
      ensures Ran(old(F()), steps, F()) && NewRaws(steps, limits.size) == 0 && NewRawsAreRoomy(steps)
      ensures received == old(received) + Got(e, Offer(old(s), limits))
      ensures eof == TakenForEnd(e, Offer(old(s), limits)) && error == e.Failed?
      ensures more == (Got(e, Offer(old(s), limits)) != [])
    {
      more, steps := false, [];
      if e.Failed? {
        steps := [Fail];
        RanOne(F(), Fail);
        error := true;
      } else if !e.Blocked? {
        var n := Fitting(if e.Closed? then 0 else |e.bytes|);
        if n == 0 {
          steps := [EndOfInput];
          RanOne(F(), EndOfInput);
          End();
        } else {
          assert e.bytes[..n] == Got(e, Offer(s, limits));
          steps := [Read(e.bytes[..n])];
          RanOne(F(), Read(e.bytes[..n]));
          Fill(e.bytes[..n]);
          more := true;
        }
      }
      assert steps != [] ==> steps[1..] == [];
      if old(Supplied()) {
        StaysSupplied(steps);
      }
    }

    /** The bytes that came with the response header are the first to be read. */
    method UsePreread() returns (ghost steps: seq<Step>)
      requires Supplied() && !eof && !error && PrereadFits()
      modifies this`s, this`preread, this`received
      ensures Supplied() && Ran(old(F()), steps, F()) && preread.None?
      ensures received == old(received) + PrereadBytes(old(preread))
      ensures old(PrereadIsRoomy()) ==> NewRawsAreRoomy(steps)
      ensures old(preread).Some? && old(preread).value.bytes == [] ==>
        s.free != [] && Offer(s, limits) == old(preread).value.room
    {
      steps := [];
      if preread.Some? {
        var p := preread.value;
        preread := None;
        steps := TakePreread(p);
        if p.bytes == [] {
          OneOffer(limits, s);
        }
        StaysSupplied(steps);
      }
    }

    /** The buffer that the response header was read into joins the pipe with the bytes behind the header. */
    method TakePreread(p: Preread) returns (ghost steps: seq<Step>)
      requires !eof && !error && |p.bytes| <= p.room && |s.free| == 0
      modifies this`s, this`received
      ensures Ran(old(F()), steps, F()) && received == old(received) + p.bytes
      ensures steps == [NewRaw(p.room, p.size)] + [Read(p.bytes)]
      ensures p.bytes == [] ==> |s.free| == 1 && s.free[0] < |s.raws| && s.raws[s.free[0]].room == p.room
    {
      ghost var f := F();
      s := s.(raws := s.raws + [Raw([], p.room, p.size)], free := [|s.raws|]);
      RanOne(f, NewRaw(p.room, p.size));
      assert p.bytes == [] ==> Pour(s.raws, s.free, p.bytes) == Poured(s.raws, [], s.free);
      assert s.free[1..] == [];
      RanSnoc(f, [NewRaw(p.room, p.size)], F(), Read(p.bytes));
      steps := [NewRaw(p.room, p.size)] + [Read(p.bytes)];
      Fill(p.bytes);
    }

    /** Preread bytes lie within their buffer, and nothing was read before them. */
    ghost predicate PrereadFits()
      reads this
    {
      preread.Some? ==> |preread.value.bytes| <= preread.value.room && |s.free| == 0
    }

    /** One turn of the reading loop; not `more` when the loop ends.  `asked` if recv_chain() was called. */
    method ReadTurn(e: Recv, downstreamReady: bool) returns (rc: Rc, more: bool, ghost steps: seq<Step>, ghost asked: Option<Asked>)
      requires Supplied() && !eof && !error
      modifies this`s, this`space, this`created, this`received, this`eof, this`error
      ensures Ran(old(F()), steps, F()) && NewRawsAreRoomy(steps)
      ensures Supplied() && old(created) <= created <= old(created) + NewRaws(steps, limits.size)
      ensures asked.Some? ==>
        && WasAsked(old(F()), steps, asked.value) && Answered(limits, old(F()), e, asked.value, F())
        && more == (Got(e, Offer(asked.value.flow.s, limits)) != []) && rc == if error then Error else Ok
      ensures old(s.free) != [] ==> asked == Some(Asked([], old(F())))
      ensures asked.None? ==>
        && F() == old(F()) && !more && (rc == Abort || rc == Ok)
        && if rc == Abort then DiskFull(limits, s, space) else NoBuffers(limits, s, created, downstreamReady)
    {
      var ready;
      rc, ready, steps := GetBuffers(downstreamReady);
      more, asked := false, None;
      if ready {
        ghost var g, taken, before := F(), [], steps;
        more, taken := ReadOnce(e);
        AskedNow(old(F()), before, g, taken, F(), limits.size);
        asked, steps := Some(Asked(before, g)), before + taken;
        rc := if error then Error else Ok;
      } else if rc != Abort {
        rc := Ok;
      }
    }

    /** The reading loop, without the preread bytes. */
    method ReadTurns(script: seq<Recv>, downstreamReady: bool) returns (rc: Rc, ghost steps: seq<Step>, ghost log: seq<Asked>)
      requires Supplied() && !eof && !error
      modifies this`s, this`space, this`created, this`received, this`eof, this`error
      ensures Supplied() && Told(limits, old(F()), steps, [], script, log, F()) && NewRawsAreRoomy(steps)
      ensures created <= old(created) + NewRaws(steps, limits.size)
      ensures Why(rc, script, log, downstreamReady)
    {
      steps, log, rc := [], [], Ok;
      ghost var f := F();
      HeardNothing(limits, f, script);
      var i, more := 0, true;
      while more && i < |script|
        invariant i <= |script| && Supplied() && created <= old(created) + NewRaws(steps, limits.size)
        invariant Told(limits, f, steps, [], script, log, F()) && NewRawsAreRoomy(steps)
        invariant more ==> !eof && !error && |log| == i && AllGave(limits, script, log) && rc == Ok
        invariant !more ==> Why(rc, script, log, downstreamReady)
        decreases |script| - i
      {
        rc, more, steps, log := ReadNext(script, i, downstreamReady, f, steps, log);
        if rc != Ok {
          return;
        }
        i := i + 1;
      }
    }

    /** Why the loop ended: the script is at its end, or the last answer gave nothing or was an error, or there is no
      * buffer to read into. */
    ghost predicate Why(rc: Rc, script: seq<Recv>, log: seq<Asked>, downstreamReady: bool)
      reads this
    {
      && (rc == Error <==> error) && (rc == Ok || rc == Error || (rc == Abort && DiskFull(limits, s, space)))
      && (rc == Ok && |log| < |script| ==>
            Silenced(limits, script, log) || NoBuffers(limits, s, created, downstreamReady))
    }

    /** The i-th turn, within a run that began at f. */
    method ReadNext(script: seq<Recv>, i: nat, downstreamReady: bool, ghost f: Flow, ghost steps: seq<Step>, ghost log: seq<Asked>)
      returns (rc: Rc, more: bool, ghost steps': seq<Step>, ghost log': seq<Asked>)
      requires Supplied() && !eof && !error && i == |log| < |script| && AllGave(limits, script, log)
      requires Told(limits, f, steps, [], script, log, F()) && NewRawsAreRoomy(steps)
      modifies this`s, this`space, this`created, this`received, this`eof, this`error
      ensures Supplied() && Told(limits, f, steps', [], script, log', F()) && NewRawsAreRoomy(steps')
      ensures created + NewRaws(steps, limits.size) <= old(created) + NewRaws(steps', limits.size)
      ensures more ==> !eof && !error && |log'| == i + 1 && AllGave(limits, script, log') && rc == Ok
      ensures !more ==> Why(rc, script, log', downstreamReady)
    {
      ghost var g, taken, asked := F(), [], None;
      rc, more, taken, asked := ReadTurn(script[i], downstreamReady);
      NewRawsAppend(steps, taken, limits.size);
      steps', log' := steps + taken, log;
      if asked.Some? {
        ToldMore(limits, f, steps, script, log, g, taken, asked.value, F());
        log' := log + [Behind(steps, asked.value)];
      } else {
        ToldLater(limits, f, steps, [], script, log, g, taken, F());
      }
    }

    /** A response to be cached goes to the file as it comes. */
    method SaveRead() returns (rc: Rc, ghost steps: seq<Step>)
      requires s.incoming != [] && limits.cacheable
      modifies this`s, this`space
      ensures Ran(old(F()), steps, F()) && NewRaws(steps, limits.size) == 0 && NewRawsAreRoomy(steps)
      ensures rc == Ok ==> s.incoming == []
      ensures rc == Ok || (rc == Abort && DiskFull(limits, s, space))
    {
      rc, steps := SpillToFile();
      assert steps != [] ==> steps[1..] == [];
    }

    /** The reading loop and what follows it. */
    method ReadAndSave(script: seq<Recv>, downstreamReady: bool)
      returns (rc: Rc, ghost steps: seq<Step>, ghost log: seq<Asked>)
      requires Supplied() && !eof && !error
      modifies this`s, this`space, this`created, this`received, this`eof, this`error
      ensures Supplied() && Told(limits, old(F()), steps, [], script, log, F()) && NewRawsAreRoomy(steps)
      ensures created <= old(created) + NewRaws(steps, limits.size)
      ensures Why(rc, script, log, downstreamReady)
      ensures rc == Ok && limits.cacheable ==> s.incoming == []
    {
      rc, steps, log := ReadTurns(script, downstreamReady);
      if rc == Ok && limits.cacheable && s.incoming != [] {
        rc, steps := SaveAfter(script, downstreamReady, old(F()), steps, log);
      }
    }

    method SaveAfter(ghost script: seq<Recv>, ghost downstreamReady: bool, ghost f: Flow, ghost steps: seq<Step>, ghost log: seq<Asked>)
      returns (rc: Rc, ghost steps': seq<Step>)
      requires Supplied() && s.incoming != [] && limits.cacheable
      requires Told(limits, f, steps, [], script, log, F()) && NewRawsAreRoomy(steps) && Why(Ok, script, log, downstreamReady)
      modifies this`s, this`space
      ensures Supplied() && Told(limits, f, steps', [], script, log, F()) && NewRawsAreRoomy(steps')
      ensures NewRaws(steps', limits.size) == NewRaws(steps, limits.size)
      ensures Why(rc, script, log, downstreamReady) && (rc == Ok ==> s.incoming == [])
    {
      ghost var g, taken := F(), [];
      rc, taken := SaveRead();
      StaysSupplied(taken);
      ToldLater(limits, f, steps, [], script, log, g, taken, F());
      NewRawsAppend(steps, taken, limits.size);
      steps' := steps + taken;
    }

    /** ngx_event_pipe_read_upstream: what the upstream answers and whether the client could take something is given. */
    method ReadUpstream(script: seq<Recv>, downstreamReady: bool)
      returns (rc: Rc, ghost steps: seq<Step>, ghost log: seq<Asked>)
      requires PrereadFits() && Supplied()
      modifies this`s, this`preread, this`space, this`created, this`received, this`eof, this`error
      ensures Supplied() && created <= old(created) + NewRaws(steps, limits.size)
      ensures old(eof || error) ==> rc == Ok && steps == [] && F() == old(F()) && preread == old(preread)
      ensures !old(eof || error) ==>
        && preread.None? && Told(limits, old(F()), steps, PrereadBytes(old(preread)), script, log, F())
        && Why(rc, script, log, downstreamReady)
      ensures rc == Ok && limits.cacheable && !old(eof || error) ==> s.incoming == []
      ensures old(PrereadIsRoomy()) ==> NewRawsAreRoomy(steps)
    {
      steps, log := [], [];
      if eof || error {
        return Ok, steps, log;
      }
      ghost var f, g, taken, heard := F(), F(), [], [];
      steps := UsePreread();
      g := F();
      rc, taken, heard := ReadAndSave(script, downstreamReady);
      NewRawsAppend(steps, taken, limits.size);
      ToldFirst(limits, f, steps, PrereadBytes(old(preread)), g, taken, script, heard, F());
      log := Shifted(steps, heard);
      steps := steps + taken;
    }

    /** The response header does not fill its buffer. */
    ghost predicate PrereadIsRoomy()
      reads this
    {
      preread.Some? ==> preread.value.room > 0 && preread.value.size > 0
    }

    /** How many buffers of out and of the incoming chain the output filter is given next; `flush` if the next one
      * would hold too much memory.  Buffers in the file hold none. */
    method Select(bsize: nat) returns (i: nat, j: nat, flush: bool)
      ensures InTurn(s, i, j) && i == |s.out| && (limits.cacheable ==> j == 0)
      ensures j > 0 ==> bsize + |MemText(s.raws, s.incoming[..j])| <= limits.busySize
      ensures if flush then !limits.cacheable && j < |s.incoming|
                            && bsize + |MemText(s.raws, s.incoming[..j + 1])| > limits.busySize
              else limits.cacheable || j == |s.incoming|
    {
      var size := bsize;
      i, j, flush := 0, 0, false;
      while i < |s.out| || (!limits.cacheable && j < |s.incoming|)
        invariant i <= |s.out| && j <= |s.incoming| && (j > 0 ==> i == |s.out| && size <= limits.busySize)
        invariant size == bsize + |MemText(s.raws, s.incoming[..j])| && (limits.cacheable ==> j == 0)
        decreases |s.out| - i + |s.incoming| - j
      {
        if i < |s.out| {
          i := i + 1;
        } else {
          var id := s.incoming[j];
          assert s.incoming[..j + 1] == s.incoming[..j] + [id];
          MemTextSnoc(s.raws, s.incoming[..j], id);
          if size + |Stored(s.raws, id)| > limits.busySize {
            flush := true;
            break;
          }
          size, j := size + |Stored(s.raws, id)|, j + 1;
        }
      }
    }

    /** The memory held by busy buffers. */
    method CountBusy() returns (bsize: nat)
      ensures bsize == BusySize(s.raws, s.busy)
    {
      bsize := 0;
      var k := |s.busy|;
      assert s.busy[k..] == [];
      while k > 0
        invariant k <= |s.busy| && bsize == BusySize(s.raws, s.busy[k..])
      {
        k := k - 1;
        assert s.busy[k..][1..] == s.busy[k + 1..];
        var b := s.busy[k];
        if b.InMemory? && b.raw < |s.raws| {
          bsize := bsize + s.raws[b.raw].size;
        }
      }
    }

    /** What the output filter is given next, and whether it is called although that is nothing. */
    method Choose() returns (i: nat, j: nat, flush: bool)
      requires !eof && !error
      ensures Chosen(limits, s, i, j) && Enabled(F(), Pass(i, j))
      ensures i + j == 0 ==> (!flush <==> NothingLeft(limits, s))
    {
      var bsize := CountBusy();
      i, j, flush := 0, 0, true;
      if bsize < limits.busySize {
        i, j, flush := Select(bsize);
      }
    }

    /** One call of the output filter, after which the first `count` busy buffers are sent and free again. */
    method PassAndRecycle(i: nat, j: nat, count: nat) returns (ghost steps: seq<Step>, ghost c: Call)
      requires Chosen(limits, s, i, j) && Enabled(F(), Pass(i, j))
      modifies this`s, this`sent
      ensures Ran(old(F()), steps, F()) && NewRawsAreRoomy(steps)
      ensures c.flow == old(F()) && c.fromOut == i && c.fromIn == j && Serves(limits, c, Answer(true, count), F())
    {
      ghost var f := F();
      RanOne(f, Pass(i, j));
      s := Hand(s, i, j);
      var m := if count < |s.busy| then count else |s.busy|;
      RanSnoc(f, [Pass(i, j)], F(), Step.Sent(m));
      steps := [Pass(i, j)] + [Step.Sent(m)];
      c := Call(f, i, j, m);
      sent := sent + ChainText(s.raws, s.file, s.busy[..m]);
      s := Release(s, m);
    }

    /** After the end of the upstream everything is passed on, and a header not yet saved is saved. */
    method PassAll(ok: bool) returns (rc: Rc, ghost steps: seq<Step>)
      requires eof || error
      modifies this`s, this`done
      ensures Ran(old(F()), steps, F()) && NewRawsAreRoomy(steps)
      ensures PassedAll(limits, old(s), space, ok, rc, s) && done == (old(done) || rc == Ok)
    {
      steps := [];
      if !ok {
        return Error, steps;
      }
      var i, j := |s.out|, |s.incoming|;
      RanOne(F(), Pass(i, j));
      HandAll(s);
      s := Hand(s, i, j);
      steps := [Pass(i, j)];
      SpillNothing(s);
      if limits.cacheable && s.header.Some? {
        if |s.header.value| > space {
          return Abort, steps;
        }
        RanSnoc(old(F()), steps, F(), ToFile(0));
        steps := steps + [ToFile(0)];
        s := s.(file := s.file + s.header.value, header := None);
      }
      done := true;
      return Ok, steps;
    }

    /** Why writing stops before the upstream has ended: the client takes no more, or nothing is left to give, or giving
      * nothing has not helped eleven times; or the client has failed. */
    ghost predicate WhyWritten(rc: Rc, script: seq<Answer>, calls: seq<Call>)
      reads this
    {
      match rc
      case Ok => |calls| == |script| || (|calls| < |script| && NothingLeft(limits, s))
      case Busy => |calls| < |script| && EmptyCalls(calls) == 11 && Chosen(limits, s, 0, 0) && !NothingLeft(limits, s)
      case Error => |calls| < |script| && !script[|calls|].ok
      case Abort => false
    }

    /** The n-th call of the output filter. */
    method WriteOnce(i: nat, j: nat, script: seq<Answer>, n: nat, ghost f: Flow, ghost steps: seq<Step>, ghost calls: seq<Call>)
      returns (ghost steps': seq<Step>, ghost calls': seq<Call>)
      requires Chosen(limits, s, i, j) && Enabled(F(), Pass(i, j)) && n == |calls| < |script| && script[n].ok
      requires Ran(f, steps, F()) && NewRawsAreRoomy(steps) && Wrote(limits, f, script, calls, F())
      modifies this`s, this`sent
      ensures Ran(f, steps', F()) && NewRawsAreRoomy(steps') && Wrote(limits, f, script, calls', F())
      ensures |calls'| == n + 1 && EmptyCalls(calls') == EmptyCalls(calls) + if i + j == 0 then 1 else 0
    {
      ghost var g, taken, c := F(), [], Call(F(), 0, 0, 0);
      taken, c := PassAndRecycle(i, j, script[n].count);
      WroteMore(limits, f, script, calls, c, F());
      RanThen(f, steps, g, taken, F());
      steps', calls' := steps + taken, calls + [c];
    }

    /** ... before the end of the upstream. */
    method WriteOn(script: seq<Answer>) returns (rc: Rc, ghost steps: seq<Step>, ghost calls: seq<Call>)
      requires !eof && !error
      modifies this`s, this`sent
      ensures Ran(old(F()), steps, F()) && NewRawsAreRoomy(steps)
      ensures Wrote(limits, old(F()), script, calls, F()) && WhyWritten(rc, script, calls)
    {
      steps, calls := [], [];
      ghost var f := F();
      var n, flushed := 0, 0;
      while n < |script|
        invariant n == |calls| <= |script| && Ran(f, steps, F()) && NewRawsAreRoomy(steps)
        invariant Wrote(limits, f, script, calls, F()) && flushed == EmptyCalls(calls) <= 11
      {
        var i, j, flush := Choose();
        if i + j == 0 {
          if !flush {
            break;
          }
          if flushed > 10 {
            return Busy, steps, calls;
          }
          flushed := flushed + 1;
        }
        if !script[n].ok {
          return Error, steps, calls;
        }
        steps, calls := WriteOnce(i, j, script, n, f, steps, calls);
        n := n + 1;
      }
      return Ok, steps, calls;
    }

    /** ngx_event_pipe_write_to_downstream, as long as the client takes something. */
    method WriteToDownstream(script: seq<Answer>) returns (rc: Rc, ghost steps: seq<Step>, ghost calls: seq<Call>)
      requires Supplied()
      modifies this`s, this`sent, this`done
      ensures Supplied() && Ran(old(F()), steps, F()) && NewRawsAreRoomy(steps) && created == old(created)
      ensures !old(eof || error) ==>
        && done == old(done) && Wrote(limits, old(F()), script, calls, F()) && WhyWritten(rc, script, calls)
      ensures old(eof || error) ==>
        && PassedAll(limits, old(s), space, script == [] || script[0].ok, rc, s)
        && sent == old(sent) && done == (old(done) || rc == Ok)
    {
      calls := [];
      if eof || error {
        rc, steps := PassAll(script == [] || script[0].ok);
      } else {
        rc, steps, calls := WriteOn(script);
      }
      StaysSupplied(steps);
    }
  }

  // ---------------------------------------------------------------- data is not taken for the end

  lemma OfferIsPositive(limits: Limits, s: State)
    requires Roomy(s) && s.free != []
    ensures Offer(s, limits) > 0
  {
    assert HasRoom(s.raws, s.free[0]);
    if limits.singleBuf {
      OneRoom(s.raws, s.free[0]);
      assert s.free[..1] == [s.free[0]];
    }
  }

  /** In a pipe whose free buffers all have room every answer with bytes gives some, and the upstream has ended only
    * after an answer that says so or has no bytes. */
  lemma EndIsHeard(limits: Limits, f: Flow, steps: seq<Step>, lead: Text, script: seq<Recv>, log: seq<Asked>, g: Flow)
    requires Good(f) && Roomy(f.s) && NewRawsAreRoomy(steps) && Told(limits, f, steps, lead, script, log, g)
    ensures forall i | 0 <= i < |log| && script[i].Data? && script[i].bytes != [] :: GotAt(limits, script, log, i) != []
    ensures g.ended ==> log != [] && (script[|log| - 1].Closed? || script[|log| - 1] == Data([]))
  {
    forall i | 0 <= i < |log|
      ensures Offer(log[i].flow.s, limits) > 0
    {
      var a := log[i];
      assert WasAsked(f, steps, a);
      assert forall k | 0 <= k < |a.before| :: a.before[k] == steps[k];
      RunRoomy(f, a.before, a.flow);
      OfferIsPositive(limits, a.flow.s);
    }
  }

  /** A response header that fills its buffer to the last byte: the buffer joins the free ones without room, and what
    * the upstream sends next, whatever it is, is taken for its end. */
  method FullHeaderEndsResponse(limits: Limits, size: nat, header: Option<Text>, space: nat, bytes: Text) returns (p: EventPipe)
    requires Demanded(limits.num, limits.size, limits.busySize) && (header.Some? ==> limits.cacheable)
    ensures p.limits == limits && p.received == [] && p.eof
  {
    p := new EventPipe(limits, Some(Preread([], 0, size)), header, space);
    ghost var steps := p.UsePreread();
    ghost var asked, rc, more;
    rc, more, steps, asked := p.ReadTurn(Data(bytes), true);
  }
}
