/** What requests are answered by the HTTP file cache (src/http/ngx_http_file_cache.c) in the course of a run: laws
  * about stored responses, rarely used keys and cached errors. */
module HttpCacheLaws {
  import opened Bytes
  import opened Queue
  import opened HttpFileCache

  // ---------------------------------------------------------------- what a section leaves alone

  /** What decides answers is the same. */
  ghost predicate SameStock(n: Node, n': Node) {
    n'.uses == n.uses && n'.present == n.present && n'.updating == n.updating && n'.info == n.info
  }

  /** The section reads or writes what decides answers about the node. */
  ghost predicate Concerns(pc: Pc, e: Event, id: Id) {
    || (e.Lookup? && e.found == Some(id))
    || ((e.Warm? || e.Expired? || e.EndStore? || e.Free?) && RefersTo(pc, id))
  }

  lemma SweepStock(s: Shared, now: int, id: Id)
    requires QueueOk(s) && Ends(s, now)
    ensures var t := Sweep(s, now).0; id in t.nodes ==> id in s.nodes && SameStock(s.nodes[id], t.nodes[id])
  {
    SweepIsThorough(s, now);
  }

  lemma {:induction false} SweepClock(s: Shared, now: int)
    requires QueueOk(s) && Ends(s, now)
    ensures Sweep(s, now).0.clock == s.clock
    decreases TurnsLeft(s, now)
  {
    if !LeavesLoop(s, now) {
      TurnBringsEnd(s, now);
      SweepClock(Turn(s), now);
    }
  }

  lemma ForceStock(s: Shared, id: Id)
    requires QueueOk(s)
    ensures var t := Force(s).0; t.clock == s.clock && (id in t.nodes ==> id in s.nodes && SameStock(s.nodes[id], t.nodes[id]))
  {
    ForceIs(s);
  }

  lemma ResumeStock(s: Shared, x: Id, now: int, id: Id)
    requires QueueOk(s) && ResumeEnds(s, x, now)
    ensures var t := Resume(s, x, now).0;
      t.clock == s.clock && (id in t.nodes ==> id in s.nodes && SameStock(s.nodes[id], t.nodes[id]))
  {
    EndUnlinkQueue(s, x);
    SweepStock(EndUnlink(s, x), now, id);
    SweepClock(EndUnlink(s, x), now);
  }

  /** A section that does not concern a node leaves it alone, as long as it is there. */
  lemma SectionStock(s: Shared, pc: Pc, e: Event, id: Id)
    requires Fits(s, pc) && Enabled(s, pc, e) && id in s.nodes && !Concerns(pc, e, id)
    ensures var t := Section(s, pc, e).0; id in t.nodes ==> SameStock(s.nodes[id], t.nodes[id])
  {
    match e
    case BeginPass(now) => SweepStock(s, now, id);
    case Shrink => ForceStock(s, id);
    case Unlinked =>
      if pc.pass.Some? {
        ResumeStock(s, pc.node, pc.pass.value, id);
      }
    case _ =>
  }

  lemma SectionClock(s: Shared, pc: Pc, e: Event)
    requires Fits(s, pc) && Enabled(s, pc, e)
    ensures s.clock <= Section(s, pc, e).0.clock
  {
    match e
    case BeginPass(now) => SweepClock(s, now);
    case Shrink => ForceStock(s, 0);
    case Unlinked =>
      if pc.pass.Some? {
        ResumeStock(s, pc.node, pc.pass.value, 0);
      }
    case _ =>
  }

  // ---------------------------------------------------------------- runs

  ghost function NodeAt(states: seq<System>, k: nat, id: Id): Node
    requires k < |states| && id in states[k].shared.nodes
  {
    states[k].shared.nodes[id]
  }

  /** The node is there all the time. */
  ghost predicate There(states: seq<System>, i: nat, j: nat, id: Id)
    requires j < |states|
  {
    forall k | i <= k <= j :: id in states[k].shared.nodes
  }

  ghost predicate LooksUp(moves: seq<Move>, k: nat, id: Id)
    requires k < |moves|
  {
    moves[k].event.Lookup? && moves[k].event.found == Some(id)
  }

  /** The k-th section is of a request that holds the node. */
  ghost predicate ByHolder(states: seq<System>, moves: seq<Move>, k: nat, id: Id)
    requires k < |moves| && k < |states|
  {
    moves[k].actor in states[k].actors && RefersTo(states[k].actors[moves[k].actor], id)
  }

  /** A file for the node is stored, or met when it is read. */
  ghost predicate Stores(states: seq<System>, moves: seq<Move>, k: nat, id: Id)
    requires k < |moves| && k < |states|
  {
    ByHolder(states, moves, k, id) && ((moves[k].event.EndStore? && moves[k].event.renamed) || moves[k].event.Warm?)
  }

  /** The loader makes the node for a file on disk. */
  ghost predicate Loads(moves: seq<Move>, k: nat, id: Id)
    requires k < |moves|
  {
    moves[k].event.Load? && moves[k].event.found.None? && moves[k].event.room == Some(id)
  }

  /** A request that finds no node makes it. */
  ghost predicate Creates(moves: seq<Move>, k: nat, id: Id)
    requires k < |moves|
  {
    || (moves[k].event.Lookup? && moves[k].event.found.None? && moves[k].event.room == Some(id))
    || (moves[k].event.SecondTry? && moves[k].event.room == Some(id))
  }

  ghost predicate RecordsError(states: seq<System>, moves: seq<Move>, k: nat, id: Id)
    requires k < |moves| && k < |states|
  {
    ByHolder(states, moves, k, id) && moves[k].event.Free? && moves[k].event.verdict.error != 0
  }

  ghost predicate Frees(states: seq<System>, moves: seq<Move>, k: nat, id: Id)
    requires k < |moves| && k < |states|
  {
    ByHolder(states, moves, k, id) && moves[k].event.Free?
  }

  /** The k-th section is of a request that began an update. */
  ghost predicate ByUpdater(states: seq<System>, moves: seq<Move>, k: nat)
    requires k < |moves| && k < |states|
  {
    && moves[k].actor in states[k].actors
    && var pc := states[k].actors[moves[k].actor]; (pc.Holding? || pc.Committing?) && pc.owner
  }

  /** One step of a run, as it concerns one node. */
  lemma StepStock(states: seq<System>, moves: seq<Move>, k: nat, id: Id)
    requires Run(states, moves) && k < |moves| && id in states[k].shared.nodes && id in states[k + 1].shared.nodes
    ensures var n, n' := NodeAt(states, k, id), NodeAt(states, k + 1, id);
      var e, clock := moves[k].event, states[k].shared.clock;
      && (LooksUp(moves, k, id) ==> SameStock(Used(n, e.minUses, clock).0, n'))
      && (ByHolder(states, moves, k, id) && e.Warm? ==> SameStock(Warmed(n, e.uniq, e.bodyStart), n'))
      && (ByHolder(states, moves, k, id) && e.EndStore? ==>
            n'.uses == n.uses && n'.present == (n.present || e.renamed) && !n'.updating
            && n'.info == n.info.(uniq := e.uniq, bodyStart := e.bodyStart))
      && (ByHolder(states, moves, k, id) && e.Free? ==>
            n.count > 0 && n'.uses == n.uses && n'.present == n.present && n'.info == Released(n, false, e.verdict).info)
      && (ByHolder(states, moves, k, id) && e.Expired? ==> n' == n.(updating := true))
      && (Frees(states, moves, k, id) && !ByUpdater(states, moves, k) ==> n'.updating == n.updating)
      && (!LooksUp(moves, k, id) && !(ByHolder(states, moves, k, id) && (e.Warm? || e.Expired? || e.EndStore? || e.Free?)) ==>
            SameStock(n, n'))
  {
    assert StepAt(states, moves, k);
    var s, pc, e := states[k].shared, states[k].actors[moves[k].actor], moves[k].event;
    if !Concerns(pc, e, id) {
      SectionStock(s, pc, e, id);
    }
  }

  lemma StepClock(states: seq<System>, moves: seq<Move>, k: nat)
    requires Run(states, moves) && k < |moves|
    ensures states[k].shared.clock <= states[k + 1].shared.clock
  {
    assert StepAt(states, moves, k);
    SectionClock(states[k].shared, states[k].actors[moves[k].actor], moves[k].event);
  }

  lemma {:induction false} ClockAdvances(states: seq<System>, moves: seq<Move>, j: nat, i: nat)
    requires Run(states, moves) && j <= i < |states|
    ensures states[j].shared.clock <= states[i].shared.clock
    decreases i
  {
    if j < i {
      ClockAdvances(states, moves, j, i - 1);
      StepClock(states, moves, i - 1);
    }
  }

  // ---------------------------------------------------------------- stored responses

  lemma StoreMakesPresent(states: seq<System>, moves: seq<Move>, j: nat, id: Id)
    requires Run(states, moves) && j < |moves| && (Stores(states, moves, j, id) || Loads(moves, j, id))
    requires id in states[j + 1].shared.nodes
    ensures NodeAt(states, j + 1, id).present
  {
    assert StepAt(states, moves, j);
    if Stores(states, moves, j, id) {
      StepStock(states, moves, j, id);
    }
  }

  lemma {:induction false} PresentStays(states: seq<System>, moves: seq<Move>, j: nat, i: nat, id: Id)
    requires Run(states, moves) && j <= i < |states| && There(states, j, i, id) && NodeAt(states, j, id).present
    requires forall k | j <= k < i :: NodeAt(states, k, id).info.error == 0
    ensures NodeAt(states, i, id).present
    decreases i
  {
    if j < i {
      PresentStays(states, moves, j, i - 1, id);
      StepStock(states, moves, i - 1, id);
    }
  }

  /** Once a response was stored or met on disk, every lookup that finds its node answers that it is there, as long as
    * the node stays and no error is recorded. */
  lemma StoredIsAnswered(states: seq<System>, moves: seq<Move>, j: nat, i: nat, id: Id)
    requires Run(states, moves) && j < i < |moves| && (Stores(states, moves, j, id) || Loads(moves, j, id))
    requires There(states, j + 1, i, id) && forall k | j < k <= i :: NodeAt(states, k, id).info.error == 0
    requires LooksUp(moves, i, id)
    ensures AnswerTo(states[i].shared, moves[i].event) == Ok
  {
    StoreMakesPresent(states, moves, j, id);
    PresentStays(states, moves, j + 1, i, id);
  }

  // ---------------------------------------------------------------- updates

  /** A request that holds the node has found its response stale. */
  ghost predicate FindsStale(states: seq<System>, moves: seq<Move>, k: nat, id: Id)
    requires k < |moves| && k < |states|
  {
    ByHolder(states, moves, k, id) && moves[k].event.Expired?
  }

  /** A response is stored or given up, or the request that updates it lets go. */
  ghost predicate EndsUpdate(states: seq<System>, moves: seq<Move>, k: nat, id: Id)
    requires k < |moves| && k < |states|
  {
    || (ByHolder(states, moves, k, id) && moves[k].event.EndStore?)
    || (Frees(states, moves, k, id) && ByUpdater(states, moves, k))
  }

  lemma {:induction false} UpdatingStays(states: seq<System>, moves: seq<Move>, j: nat, i: nat, id: Id)
    requires Run(states, moves) && j <= i < |states| && There(states, j, i, id) && NodeAt(states, j, id).updating
    requires forall k: nat | j <= k < i :: !EndsUpdate(states, moves, k, id)
    ensures NodeAt(states, i, id).updating
    decreases i
  {
    if j < i {
      UpdatingStays(states, moves, j, i - 1, id);
      StepStock(states, moves, i - 1, id);
      assert !EndsUpdate(states, moves, i - 1, id);
    }
  }

  /** Of the requests that find a response stale only the first one is to update it, until the update has ended; and one
    * that finds no update going on is the one. */
  lemma OneUpdaterAtATime(states: seq<System>, moves: seq<Move>, j: nat, i: nat, id: Id)
    requires Run(states, moves) && j < i < |moves| && There(states, j, i, id)
    requires FindsStale(states, moves, j, id) && FindsStale(states, moves, i, id)
    ensures moves[i].actor in states[i + 1].actors
    ensures (forall k: nat | j < k < i :: !EndsUpdate(states, moves, k, id)) ==>
      states[i + 1].shared == states[i].shared && states[i + 1].actors[moves[i].actor] == states[i].actors[moves[i].actor]
    ensures !NodeAt(states, i, id).updating ==>
      && (exists k: nat :: j < k < i && EndsUpdate(states, moves, k, id))
      && states[i + 1].actors[moves[i].actor] == Holding(id, true)
      && id in states[i + 1].shared.nodes && NodeAt(states, i + 1, id) == NodeAt(states, i, id).(updating := true)
  {
    StepStock(states, moves, j, id);
    assert StepAt(states, moves, i);
    if forall k: nat | j < k < i :: !EndsUpdate(states, moves, k, id) {
      UpdatingStays(states, moves, j + 1, i, id);
    }
  }

  // ---------------------------------------------------------------- rarely used keys

  /** How often the node was found by the sections from j on, up to the i-th. */
  ghost function Lookups(moves: seq<Move>, j: nat, i: nat, id: Id): nat
    requires j <= i <= |moves|
    decreases i
  {
    if j == i then 0 else Lookups(moves, j, i - 1, id) + if LooksUp(moves, i - 1, id) then 1 else 0
  }

  lemma UseCounts(n: nat)
    ensures Use(n % 1024) == (n + 1) % 1024
  {
    var q := n / 1024;
    assert n == 1024 * q + n % 1024;
    if n % 1024 == 1023 {
      assert n + 1 == 1024 * (q + 1);
    } else {
      assert n + 1 == 1024 * q + (n % 1024 + 1);
    }
  }

  lemma CreationBlank(states: seq<System>, moves: seq<Move>, j: nat, id: Id)
    requires Run(states, moves) && j < |moves| && Creates(moves, j, id)
    ensures id in states[j + 1].shared.nodes
    ensures var n := NodeAt(states, j + 1, id); n.uses == 1 && !n.present && n.info == BLANK
  {
    assert StepAt(states, moves, j);
  }

  /** While nothing is stored the uses are counted, in ten bits. */
  lemma {:induction false} UsesAreCounted(states: seq<System>, moves: seq<Move>, j: nat, i: nat, id: Id)
    requires Run(states, moves) && j < i < |states| && Creates(moves, j, id) && There(states, j + 1, i, id)
    requires forall k: nat | j < k < i :: !Stores(states, moves, k, id)
    ensures var n := NodeAt(states, i, id); n.uses == (1 + Lookups(moves, j + 1, i, id)) % 1024 && !n.present
    decreases i
  {
    CreationBlank(states, moves, j, id);
    if j + 1 < i {
      UsesAreCounted(states, moves, j, i - 1, id);
      assert !Stores(states, moves, i - 1, id);
      StepStock(states, moves, i - 1, id);
      UseCounts(1 + Lookups(moves, j + 1, i - 1, id));
    }
  }

  /** The lookup that makes the node is declined; while nothing is stored and no error is recorded, the n-th one answers
    * that the response may be stored when n, in ten bits, has reached min_uses, and otherwise that it is too early. */
  lemma UsesDecide(states: seq<System>, moves: seq<Move>, j: nat, i: nat, id: Id)
    requires Run(states, moves) && j < i < |moves| && Creates(moves, j, id) && There(states, j + 1, i, id)
    requires forall k: nat | j < k < i :: !Stores(states, moves, k, id)
    requires LooksUp(moves, i, id) && NodeAt(states, i, id).info.error == 0
    ensures AnswerTo(states[j].shared, moves[j].event) == Declined
    ensures var n, m := 2 + Lookups(moves, j + 1, i, id), moves[i].event.minUses;
      && AnswerTo(states[i].shared, moves[i].event) == (if n % 1024 >= m then Ok else Again)
      && (n < 1024 ==> AnswerTo(states[i].shared, moves[i].event) == if n >= m then Ok else Again)
  {
    UsesAreCounted(states, moves, j, i, id);
    UseCounts(1 + Lookups(moves, j + 1, i, id));
  }

  // ---------------------------------------------------------------- cached errors

  ghost predicate ErrorHeld(states: seq<System>, k: nat, id: Id, v: Verdict)
    requires k < |states| && id in states[k].shared.nodes
  {
    NodeAt(states, k, id).info.error == v.error && NodeAt(states, k, id).info.validSec == v.validSec
  }

  /** The node was found by no section between j and i after the time. */
  ghost predicate NotFoundLater(states: seq<System>, moves: seq<Move>, j: nat, i: nat, id: Id, time: int)
    requires i <= |moves| && i <= |states|
  {
    forall k: nat | j < k < i && LooksUp(moves, k, id) :: states[k].shared.clock <= time
  }

  lemma {:induction false} ErrorStays(states: seq<System>, moves: seq<Move>, j: nat, i: nat, id: Id, v: Verdict)
    requires Run(states, moves) && j < i < |states| && There(states, j, i, id)
    requires RecordsError(states, moves, j, id) && moves[j].event.verdict == v && v.validSec != 0
    requires forall k: nat | j < k < i :: !RecordsError(states, moves, k, id)
    requires NotFoundLater(states, moves, j, i, id, v.validSec)
    ensures ErrorHeld(states, i, id, v)
    decreases i
  {
    if i == j + 1 {
      StepStock(states, moves, j, id);
    } else {
      ErrorStays(states, moves, j, i - 1, id, v);
      assert !RecordsError(states, moves, i - 1, id);
      StepStock(states, moves, i - 1, id);
    }
  }

  /** An error that was recorded with a time is answered until its time is over.  The first lookup after that is
    * declined and forgets it. */
  lemma ErrorIsAnswered(states: seq<System>, moves: seq<Move>, j: nat, i: nat, id: Id, v: Verdict)
    requires Run(states, moves) && j < i < |moves| && There(states, j, i, id)
    requires RecordsError(states, moves, j, id) && moves[j].event.verdict == v && v.validSec != 0
    requires forall k: nat | j < k < i :: !RecordsError(states, moves, k, id)
    requires LooksUp(moves, i, id)
    ensures states[i].shared.clock <= v.validSec ==>
      AnswerTo(states[i].shared, moves[i].event) == Ok && NodeAt(states, i, id).info.error == v.error
    ensures states[i].shared.clock > v.validSec && NotFoundLater(states, moves, j, i, id, v.validSec) ==>
      && AnswerTo(states[i].shared, moves[i].event) == Declined
      && id in states[i + 1].shared.nodes && NodeAt(states, i + 1, id).info == BLANK && !NodeAt(states, i + 1, id).present
  {
    if states[i].shared.clock <= v.validSec {
      forall k: nat | j < k < i
        ensures states[k].shared.clock <= v.validSec
      {
        ClockAdvances(states, moves, k, i);
      }
      ErrorStays(states, moves, j, i, id, v);
    } else if NotFoundLater(states, moves, j, i, id, v.validSec) {
      ErrorStays(states, moves, j, i, id, v);
      assert StepAt(states, moves, i);
      StepStock(states, moves, i, id);
    }
  }

  // ---------------------------------------------------------------- how long nodes stay

  /** The section renews the node's expiry time. */
  ghost predicate Renews(moves: seq<Move>, k: nat, id: Id)
    requires k < |moves|
  {
    var e := moves[k].event;
    LooksUp(moves, k, id) || Creates(moves, k, id) || (e.Load? && (e.found == Some(id) || Loads(moves, k, id)))
  }

  lemma {:induction false} SweepInactive(s: Shared, now: int)
    requires QueueOk(s) && Ends(s, now)
    ensures Sweep(s, now).0.inactive == s.inactive
    decreases TurnsLeft(s, now)
  {
    if !LeavesLoop(s, now) {
      TurnBringsEnd(s, now);
      SweepInactive(Turn(s), now);
    }
  }

  lemma SweepExpire(s: Shared, now: int, id: Id)
    requires QueueOk(s) && Ends(s, now) && id in s.nodes
    ensures var t := Sweep(s, now).0; id in t.nodes ==> s.nodes[id].expire <= t.nodes[id].expire
  {
    SweepIsThorough(s, now);
    ExpireIsBounded(s, id);
  }

  lemma ExpireIsBounded(s: Shared, id: Id)
    requires QueueOk(s) && id in s.nodes
    ensures s.nodes[id].expire <= s.clock + s.inactive
  {
    assert id in s.queue;
    var i :| 0 <= i < |s.queue| && s.queue[i] == id;
  }

  lemma ResumeExpire(s: Shared, x: Id, now: int, id: Id)
    requires QueueOk(s) && ResumeEnds(s, x, now) && id in s.nodes
    ensures var t := Resume(s, x, now).0;
      t.inactive == s.inactive && (id in t.nodes ==> s.nodes[id].expire <= t.nodes[id].expire)
  {
    EndUnlinkQueue(s, x);
    SweepInactive(EndUnlink(s, x), now);
    if id in EndUnlink(s, x).nodes {
      SweepExpire(EndUnlink(s, x), now, id);
    } else {
      SweepStock(EndUnlink(s, x), now, id);
    }
  }

  /** Expiry times only grow. */
  lemma SectionExpire(s: Shared, pc: Pc, e: Event, id: Id)
    requires Fits(s, pc) && Enabled(s, pc, e)
    ensures var t := Section(s, pc, e).0;
      t.inactive == s.inactive && (id in s.nodes && id in t.nodes ==> s.nodes[id].expire <= t.nodes[id].expire)
  {
    if id in s.nodes {
      ExpireIsBounded(s, id);
    }
    match e
    case BeginPass(now) =>
      SweepInactive(s, now);
      if id in s.nodes {
        SweepExpire(s, now, id);
      }
    case Shrink => ForceIs(s);
    case Unlinked =>
      if pc.pass.Some? && id in s.nodes {
        ResumeExpire(s, pc.node, pc.pass.value, id);
      } else if pc.pass.Some? {
        EndUnlinkQueue(s, pc.node);
        SweepInactive(EndUnlink(s, pc.node), pc.pass.value);
      }
    case _ =>
  }

  lemma RenewalSets(states: seq<System>, moves: seq<Move>, j: nat, id: Id)
    requires Run(states, moves) && j < |moves| && Renews(moves, j, id)
    ensures id in states[j + 1].shared.nodes
    ensures NodeAt(states, j + 1, id).expire == states[j].shared.clock + states[j].shared.inactive
  {
    assert StepAt(states, moves, j);
  }

  lemma {:induction false} RenewedLasts(states: seq<System>, moves: seq<Move>, j: nat, i: nat, id: Id)
    requires Run(states, moves) && j < i < |states| && Renews(moves, j, id) && There(states, j + 1, i, id)
    ensures NodeAt(states, i, id).expire >= states[j].shared.clock + states[j].shared.inactive
    decreases i
  {
    if i == j + 1 {
      RenewalSets(states, moves, j, id);
    } else {
      RenewedLasts(states, moves, j, i - 1, id);
      assert StepAt(states, moves, i - 1);
      SectionExpire(states[i - 1].shared, states[i - 1].actors[moves[i - 1].actor], moves[i - 1].event, id);
    }
  }

  /** A node that was found, made or loaded is spared by every expiry pass that starts less than `inactive` later: the
    * pass neither removes it nor deletes its file, whatever else it does. */
  lemma FreshNodeIsSpared(states: seq<System>, moves: seq<Move>, j: nat, i: nat, id: Id)
    requires Run(states, moves) && j < i < |moves| && Renews(moves, j, id) && There(states, j + 1, i, id)
    requires moves[i].event.BeginPass? && moves[i].event.now < states[j].shared.clock + states[j].shared.inactive
    ensures id in states[i + 1].shared.nodes && NodeAt(states, i + 1, id) == NodeAt(states, i, id)
  {
    RenewedLasts(states, moves, j, i, id);
    assert StepAt(states, moves, i);
    SweepIsThorough(states[i].shared, moves[i].event.now);
  }
}
