/** The shared-memory mutex (src/core/ngx_shmtx.c), atomic operations with a POSIX semaphore.
  *
  * Processes interleave at every read, compare-and-set, sem_wait and sem_post.  How often the spin loop
  * retries is left open, so every run of the code is a run of this machine.  Only a holder unlocks, and
  * sem_wait is only ever interrupted, never failing otherwise.
  */
module Shmtx {
  import opened Bytes

  // ---------------------------------------------------------------- the lock word

  const HIGH_BIT := 0x8000_0000

  /** The lock word: bit 31 and the waiter count below it. */
  datatype Word = Word(high: bool, count: nat) {
    function Bits(): nat {
      (if high then HIGH_BIT else 0) + count
    }
  }

  /** The C operators used on the word, on its bits. */
  function AndHigh(bits: nat): nat {
    (bits / HIGH_BIT) % 2 * HIGH_BIT
  }

  function AndLow(bits: nat): nat {
    bits % HIGH_BIT
  }

  /** While fewer than 2^31 processes exist the two fields behave like the masked C expressions:
    * `val & 0x80000000`, `val & 0x7fffffff`, `val | 0x80000000` and `val + 1`; and comparing the bits, as
    * compare-and-set does, is comparing the fields. */
  lemma WordFields(w: Word)
    requires w.count < HIGH_BIT
    ensures AndHigh(w.Bits()) != 0 <==> w.high
    ensures AndLow(w.Bits()) == w.count
    ensures !w.high ==> w.Bits() + HIGH_BIT == Word(true, w.count).Bits()
    ensures w.Bits() + 1 == Word(w.high, w.count + 1).Bits()
    ensures forall v: Word | v.count < HIGH_BIT :: v.Bits() == w.Bits() ==> v == w
  {
    if w.high {
      assert w.Bits() / HIGH_BIT == 1;
    } else {
      assert w.Bits() / HIGH_BIT == 0;
    }
  }

  // ---------------------------------------------------------------- processes and steps

  /** Where a process stands; the payload is the value it read last. */
  datatype Pc =
    | Outside
    | TryRead | TryCas(val: Word)
    | LockRead | LockCas(val: Word)
    | WaitRead | WaitCas(val: Word)
    | Sleeping
    | Holding
    | UnlockRead | UnlockCas(seen: Word)
    | Posting

  type Pid = nat

  datatype System = System(word: Word, sem: nat, procs: map<Pid, Pc>)

  ghost predicate Init(s: System) {
    s.word == Word(false, 0) && s.sem == 0 && forall p | p in s.procs :: s.procs[p] == Outside
  }

  function Move(s: System, p: Pid, pc: Pc): System {
    s.(procs := s.procs[p := pc])
  }

  /** What one process may do next; each disjunct is one atomic action of the code. */
  ghost predicate Acts(s: System, p: Pid, s': System)
    requires p in s.procs
  {
    match s.procs[p]
    case Outside => s' == Move(s, p, TryRead) || s' == Move(s, p, LockRead)
    case TryRead => s' == Move(s, p, if s.word.high then Outside else TryCas(s.word))
    case TryCas(val) =>
      if s.word == val then s' == Move(s, p, Holding).(word := Word(true, val.count)) else s' == Move(s, p, Outside)
    case LockRead =>
      if s.word.high then s' == Move(s, p, LockRead) || s' == Move(s, p, WaitRead) else s' == Move(s, p, LockCas(s.word))
    case LockCas(val) =>
      if s.word == val then s' == Move(s, p, Holding).(word := Word(true, val.count))
      else s' == Move(s, p, LockRead) || s' == Move(s, p, WaitRead)
    case WaitRead => s' == Move(s, p, if s.word.high then WaitCas(s.word) else LockRead)
    case WaitCas(val) =>
      if s.word == val then s' == Move(s, p, Sleeping).(word := Word(val.high, val.count + 1))
      else s' == Move(s, p, LockRead)
    case Sleeping =>
      s' == s || (s.sem > 0 && s' == Move(s, p, LockRead).(sem := s.sem - 1))
    case Holding => s' == Move(s, p, UnlockRead)
    case UnlockRead => s' == Move(s, p, UnlockCas(s.word))
    case UnlockCas(seen) =>
      if s.word == seen then
        s' == Move(s, p, if seen.count == 0 then Outside else Posting)
              .(word := Word(false, if seen.count == 0 then 0 else seen.count - 1))
      else s' == Move(s, p, UnlockRead)
    case Posting => s' == Move(s, p, Outside).(sem := s.sem + 1)
  }

  ghost predicate Next(s: System, s': System) {
    exists p :: p in s.procs && Acts(s, p, s')
  }

  ghost predicate Run(states: seq<System>) {
    && states != [] && Init(states[0])
    && forall i | 0 <= i < |states| - 1 :: Next(states[i], states[i + 1])
  }

  // ---------------------------------------------------------------- the invariant

  datatype Role = Bystander | Contender | Sleeper | Holder | Poster

  function RoleOf(pc: Pc): Role {
    match pc
    case Outside => Bystander
    case TryRead => Bystander
    case TryCas(_) => Bystander
    case LockRead => Contender
    case LockCas(_) => Contender
    case WaitRead => Contender
    case WaitCas(_) => Contender
    case Sleeping => Sleeper
    case Holding => Holder
    case UnlockRead => Holder
    case UnlockCas(_) => Holder
    case Posting => Poster
  }

  ghost function In(s: System, role: Role): set<Pid> {
    set p | p in s.procs && RoleOf(s.procs[p]) == role
  }

  /** A remembered value that a successful compare-and-set may rely on. */
  ghost predicate Remembers(pc: Pc) {
    && (pc.TryCas? || pc.LockCas? ==> !pc.val.high)
    && (pc.WaitCas? ==> pc.val.high)
  }

  ghost predicate Invariant(s: System) {
    && (forall p | p in s.procs :: Remembers(s.procs[p]))
    // mutual exclusion, and the high bit says whether there is a holder
    && |In(s, Holder)| == (if s.word.high then 1 else 0)
    // every sleeper is counted in the word, has a token, or is owed a post
    && |In(s, Sleeper)| == s.word.count + s.sem + |In(s, Poster)|
    // a free lock with counted sleepers is about to be taken or to wake one of them
    && (!s.word.high && s.word.count > 0 ==> |In(s, Poster)| + s.sem + |In(s, Contender)| > 0)
  }

  /** Moving one process changes one membership. */
  lemma MoveChangesRole(s: System, p: Pid, pc: Pc, role: Role)
    requires p in s.procs
    ensures var before, after := In(s, role), In(Move(s, p, pc), role);
      |after| == |before| + (if RoleOf(pc) == role then 1 else 0) - (if RoleOf(s.procs[p]) == role then 1 else 0)
  {
    var before, after := In(s, role), In(Move(s, p, pc), role);
    OthersStay(s, p, pc, role);
    WithAndWithout(before, p);
    WithAndWithout(after, p);
  }

  lemma OthersStay(s: System, p: Pid, pc: Pc, role: Role)
    requires p in s.procs
    ensures In(Move(s, p, pc), role) - {p} == In(s, role) - {p}
    ensures p in In(s, role) <==> RoleOf(s.procs[p]) == role
    ensures p in In(Move(s, p, pc), role) <==> RoleOf(pc) == role
  {
  }

  lemma WithAndWithout(a: set<Pid>, p: Pid)
    ensures |a| == |a - {p}| + if p in a then 1 else 0
  {
    if p in a {
      assert a == (a - {p}) + {p};
    } else {
      assert a == a - {p};
    }
  }

  lemma MoveChangesRoles(s: System, p: Pid, pc: Pc)
    requires p in s.procs
    ensures forall role ::
      |In(Move(s, p, pc), role)| ==
        |In(s, role)| + (if RoleOf(pc) == role then 1 else 0) - (if RoleOf(s.procs[p]) == role then 1 else 0)
  {
    forall role
      ensures |In(Move(s, p, pc), role)| ==
        |In(s, role)| + (if RoleOf(pc) == role then 1 else 0) - (if RoleOf(s.procs[p]) == role then 1 else 0)
    {
      MoveChangesRole(s, p, pc, role);
    }
  }

  /** Membership looks at the processes only. */
  lemma InIgnoresWord(s: System, t: System)
    requires s.procs == t.procs
    ensures forall role :: In(s, role) == In(t, role)
  {
  }

  lemma HolderMeansHigh(s: System, p: Pid)
    requires Invariant(s) && p in s.procs && RoleOf(s.procs[p]) == Holder
    ensures s.word.high
  {
    assert p in In(s, Holder);
  }

  lemma HolderActs(s: System, p: Pid, s': System)
    requires Invariant(s) && p in s.procs && Acts(s, p, s') && RoleOf(s.procs[p]) == Holder
    ensures Invariant(s')
  {
    var pc' := s'.procs[p];
    HolderMeansHigh(s, p);
    MoveChangesRoles(s, p, pc');
    InIgnoresWord(Move(s, p, pc'), s');
  }

  lemma ContenderActs(s: System, p: Pid, s': System)
    requires Invariant(s) && p in s.procs && Acts(s, p, s') && RoleOf(s.procs[p]) == Contender
    ensures Invariant(s')
  {
    var pc' := s'.procs[p];
    MoveChangesRoles(s, p, pc');
    InIgnoresWord(Move(s, p, pc'), s');
  }

  lemma OtherActs(s: System, p: Pid, s': System)
    requires Invariant(s) && p in s.procs && Acts(s, p, s') && s' != s
    requires RoleOf(s.procs[p]) != Holder && RoleOf(s.procs[p]) != Contender
    ensures Invariant(s')
  {
    var pc' := s'.procs[p];
    MoveChangesRoles(s, p, pc');
    InIgnoresWord(Move(s, p, pc'), s');
  }

  /** Every atomic action of every process keeps the invariant. */
  lemma ActsKeepsInvariant(s: System, p: Pid, s': System)
    requires Invariant(s) && p in s.procs && Acts(s, p, s')
    ensures Invariant(s')
  {
    if RoleOf(s.procs[p]) == Holder {
      HolderActs(s, p, s');
    } else if RoleOf(s.procs[p]) == Contender {
      ContenderActs(s, p, s');
    } else if s' != s {
      OtherActs(s, p, s');
    }
  }

  lemma InitInvariant(s: System)
    requires Init(s)
    ensures Invariant(s)
  {
    forall role | role != Bystander
      ensures In(s, role) == {}
    {
    }
  }

  lemma {:induction false} RunKeepsInvariant(states: seq<System>, i: nat)
    requires Run(states) && i < |states|
    ensures Invariant(states[i])
  {
    if i == 0 {
      InitInvariant(states[0]);
    } else {
      RunKeepsInvariant(states, i - 1);
      assert Next(states[i - 1], states[i - 1 + 1]);
      var p :| p in states[i - 1].procs && Acts(states[i - 1], p, states[i]);
      ActsKeepsInvariant(states[i - 1], p, states[i]);
    }
  }

  /** In every run no two processes are between lock and unlock, and the high bit says whether one is. */
  lemma MutualExclusion(states: seq<System>, i: nat, p: Pid, q: Pid)
    requires Run(states) && i < |states| && p in states[i].procs && q in states[i].procs
    requires RoleOf(states[i].procs[p]) == Holder && RoleOf(states[i].procs[q]) == Holder
    ensures p == q && states[i].word.high
  {
    var s := states[i];
    RunKeepsInvariant(states, i);
    var holders := In(s, Holder);
    assert p in holders && q in holders;
    assert |holders - {p}| == |holders| - 1;
    assert q != p ==> q in holders - {p};
  }

  /** The waiter count never exceeds the number of processes, so `val + 1` cannot reach bit 31. */
  lemma CountIsBounded(states: seq<System>, i: nat)
    requires Run(states) && i < |states|
    ensures states[i].word.count <= |states[i].procs|
  {
    RunKeepsInvariant(states, i);
    var s := states[i];
    SubsetSize(In(s, Sleeper), s.procs.Keys);
  }

  /** No wakeup is lost: a sleeper never waits on a free lock without a token, an owed post or an awake
    * contender. */
  lemma NoLostWakeup(states: seq<System>, i: nat, p: Pid)
    requires Run(states) && i < |states|
    requires p in states[i].procs && states[i].procs[p] == Sleeping && !states[i].word.high
    ensures var s := states[i]; s.sem > 0 || In(s, Poster) != {} || In(s, Contender) != {}
  {
    RunKeepsInvariant(states, i);
    assert p in In(states[i], Sleeper);
  }

  // ---------------------------------------------------------------- every sleeper can still be served

  ghost predicate StepAt(path: seq<System>, i: nat)
    requires i + 1 < |path|
  {
    Next(path[i], path[i + 1])
  }

  /** A stretch of a run from s to t. */
  ghost predicate Path(path: seq<System>, s: System, t: System) {
    && path != [] && path[0] == s && path[|path| - 1] == t
    && forall i: nat | i + 1 < |path| :: StepAt(path, i)
  }

  lemma Join(s: System, m: System, t: System, a: seq<System>, b: seq<System>) returns (path: seq<System>)
    requires Path(a, s, m) && Path(b, m, t)
    ensures Path(path, s, t)
  {
    path := a + b[1..];
    forall i: nat | i + 1 < |path|
      ensures StepAt(path, i)
    {
      if i + 1 < |a| {
        assert StepAt(a, i);
        assert path[i] == a[i] && path[i + 1] == a[i + 1];
      } else {
        assert StepAt(b, i + 1 - |a|);
        assert path[i] == b[i + 1 - |a|] && path[i + 1] == b[i + 2 - |a|];
      }
    }
  }

  /** One step of process p. */
  lemma OneStep(s: System, p: Pid, s': System) returns (path: seq<System>)
    requires Invariant(s) && p in s.procs && Acts(s, p, s')
    ensures Path(path, s, s') && Invariant(s')
  {
    ActsKeepsInvariant(s, p, s');
    path := [s, s'];
    assert Next(s, s');
    assert StepAt(path, 0);
  }

  /** s and t differ, among the processes, at most in what q does. */
  ghost predicate OnlyMoves(s: System, t: System, q: Pid) {
    s.procs.Keys == t.procs.Keys && forall p | p in s.procs && p != q :: t.procs[p] == s.procs[p]
  }

  lemma ReleaseNow(s: System, q: Pid) returns (t: System, path: seq<System>)
    requires Invariant(s) && q in s.procs && s.procs[q] == UnlockCas(s.word)
    ensures Path(path, s, t) && Invariant(t) && OnlyMoves(s, t, q)
    ensures !t.word.high && t.sem == s.sem
    ensures t.procs[q] == if s.word.count > 0 then Posting else Outside
  {
    var c := s.word.count;
    t := Move(s, q, if c == 0 then Outside else Posting).(word := Word(false, if c == 0 then 0 else c - 1));
    path := OneStep(s, q, t);
  }

  lemma ReleaseSoon(s: System, q: Pid) returns (t: System, path: seq<System>)
    requires Invariant(s) && q in s.procs && s.procs[q] == UnlockRead
    ensures Path(path, s, t) && Invariant(t) && OnlyMoves(s, t, q)
    ensures !t.word.high && t.sem == s.sem
    ensures t.procs[q] == if s.word.count > 0 then Posting else Outside
  {
    var b := Move(s, q, UnlockCas(s.word));
    var first := OneStep(s, q, b);
    var second;
    t, second := ReleaseNow(b, q);
    path := Join(s, b, t, first, second);
  }

  /** The holder's compare-and-set succeeds if nobody else moves. */
  lemma Release(s: System, q: Pid) returns (t: System, path: seq<System>)
    requires Invariant(s) && q in s.procs && RoleOf(s.procs[q]) == Holder
    ensures Path(path, s, t) && Invariant(t) && OnlyMoves(s, t, q)
    ensures !t.word.high && t.sem == s.sem
    ensures t.procs[q] == if s.word.count > 0 then Posting else Outside
  {
    if s.procs[q] == UnlockRead {
      t, path := ReleaseSoon(s, q);
    } else if s.procs[q] == UnlockCas(s.word) {
      t, path := ReleaseNow(s, q);
    } else {
      var a := Move(s, q, UnlockRead);
      var first := OneStep(s, q, a);
      var second;
      t, second := ReleaseSoon(a, q);
      path := Join(s, a, t, first, second);
    }
  }

  lemma AcquireNow(s: System, q: Pid) returns (t: System, path: seq<System>)
    requires Invariant(s) && q in s.procs && s.procs[q] == LockCas(s.word)
    ensures Path(path, s, t) && Invariant(t) && OnlyMoves(s, t, q)
    ensures t.procs[q] == Holding && t.word == Word(true, s.word.count) && t.sem == s.sem
  {
    t := Move(s, q, Holding).(word := Word(true, s.word.count));
    path := OneStep(s, q, t);
  }

  lemma AcquireSoon(s: System, q: Pid) returns (t: System, path: seq<System>)
    requires Invariant(s) && !s.word.high && q in s.procs && s.procs[q] == LockRead
    ensures Path(path, s, t) && Invariant(t) && OnlyMoves(s, t, q)
    ensures t.procs[q] == Holding && t.word == Word(true, s.word.count) && t.sem == s.sem
  {
    var b := Move(s, q, LockCas(s.word));
    var first := OneStep(s, q, b);
    var second;
    t, second := AcquireNow(b, q);
    path := Join(s, b, t, first, second);
  }

  /** A contender takes a free lock if nobody else moves. */
  lemma Acquire(s: System, q: Pid) returns (t: System, path: seq<System>)
    requires Invariant(s) && !s.word.high && q in s.procs && RoleOf(s.procs[q]) == Contender
    ensures Path(path, s, t) && Invariant(t) && OnlyMoves(s, t, q)
    ensures t.procs[q] == Holding && t.word == Word(true, s.word.count) && t.sem == s.sem
  {
    assert Remembers(s.procs[q]);
    if s.procs[q] == LockRead {
      t, path := AcquireSoon(s, q);
    } else if s.procs[q] == LockCas(s.word) {
      t, path := AcquireNow(s, q);
    } else {
      var a := Move(s, q, LockRead);
      var first := OneStep(s, q, a);
      var second;
      t, second := AcquireSoon(a, q);
      path := Join(s, a, t, first, second);
    }
  }

  /** p keeps its place while others move. */
  ghost predicate Keeps(s: System, t: System, p: Pid) {
    s.procs.Keys == t.procs.Keys && p in s.procs && t.procs[p] == s.procs[p]
  }

  /** The lock can always become free without disturbing a process that does not hold it. */
  lemma FreeLock(s: System, p: Pid) returns (t: System, path: seq<System>)
    requires Invariant(s) && p in s.procs && RoleOf(s.procs[p]) != Holder
    ensures Path(path, s, t) && Invariant(t) && Keeps(s, t, p) && !t.word.high && t.sem == s.sem
  {
    if s.word.high {
      var q :| q in In(s, Holder);
      t, path := Release(s, q);
    } else {
      t, path := s, [s];
    }
  }

  lemma Post(s: System, q: Pid, p: Pid) returns (t: System, path: seq<System>)
    requires Invariant(s) && q in s.procs && s.procs[q] == Posting && p in s.procs && p != q
    ensures Path(path, s, t) && Invariant(t) && Keeps(s, t, p) && t.sem > 0
  {
    t := Move(s, q, Outside).(sem := s.sem + 1);
    path := OneStep(s, q, t);
  }

  /** An awake contender that runs through its critical section posts for a counted sleeper. */
  lemma PassThrough(s: System, q: Pid, p: Pid) returns (t: System, path: seq<System>)
    requires Invariant(s) && !s.word.high && s.word.count > 0
    requires q in s.procs && RoleOf(s.procs[q]) == Contender && p in s.procs && p != q
    ensures Path(path, s, t) && Invariant(t) && Keeps(s, t, p) && t.sem > 0
  {
    var a, first := Acquire(s, q);
    var b, second := Release(a, q);
    var third;
    t, third := Post(b, q, p);
    var both := Join(s, a, b, first, second);
    path := Join(s, b, t, both, third);
  }

  lemma SomebodyCanWake(s: System, p: Pid)
    requires Invariant(s) && p in s.procs && s.procs[p] == Sleeping && !s.word.high
    ensures s.sem > 0 || In(s, Poster) != {} || (In(s, Contender) != {} && s.word.count > 0)
  {
    assert p in In(s, Sleeper);
  }

  /** A token for a sleeper can always be produced. */
  lemma ProduceToken(s: System, p: Pid) returns (t: System, path: seq<System>)
    requires Invariant(s) && p in s.procs && s.procs[p] == Sleeping && !s.word.high
    ensures Path(path, s, t) && Invariant(t) && Keeps(s, t, p) && t.sem > 0
  {
    SomebodyCanWake(s, p);
    if s.sem > 0 {
      t, path := s, [s];
    } else if In(s, Poster) != {} {
      var q :| q in In(s, Poster);
      t, path := Post(s, q, p);
    } else {
      var q :| q in In(s, Contender);
      t, path := PassThrough(s, q, p);
    }
  }

  lemma WakeUp(s: System, p: Pid) returns (t: System, path: seq<System>)
    requires Invariant(s) && p in s.procs && s.procs[p] == Sleeping && s.sem > 0
    ensures Path(path, s, t) && Invariant(t) && p in t.procs && t.procs[p] == LockRead
  {
    t := Move(s, p, LockRead).(sem := s.sem - 1);
    path := OneStep(s, p, t);
  }

  lemma WakeSleeper(s: System, p: Pid) returns (t: System, path: seq<System>)
    requires Invariant(s) && p in s.procs && s.procs[p] == Sleeping
    ensures Path(path, s, t) && Invariant(t) && p in t.procs && t.procs[p] == LockRead
  {
    var a, first := FreeLock(s, p);
    var b, second := ProduceToken(a, p);
    var third;
    t, third := WakeUp(b, p);
    var both := Join(s, a, b, first, second);
    path := Join(s, b, t, both, third);
  }

  /** From every reachable state the others can bring any given sleeper to hold the lock. */
  lemma SleeperCanBeServed(states: seq<System>, k: nat, p: Pid) returns (t: System, path: seq<System>)
    requires Run(states) && k < |states|
    requires p in states[k].procs && states[k].procs[p] == Sleeping
    ensures Path(path, states[k], t) && p in t.procs && t.procs[p] == Holding
  {
    var s := states[k];
    RunKeepsInvariant(states, k);
    var a, first := WakeSleeper(s, p);
    var b, second := FreeLock(a, p);
    var third;
    t, third := Acquire(b, p);
    var both := Join(s, a, b, first, second);
    path := Join(s, b, t, both, third);
  }

  // ---------------------------------------------------------------- what an attempt comes to

  /** p reads the word in the i-th step and acts again in the j-th, and in no step between them. */
  ghost predicate ActsAgain(states: seq<System>, i: nat, j: nat, p: Pid) {
    && i < j < |states| - 1 && (forall k | i <= k <= j :: p in states[k].procs)
    && Acts(states[i], p, states[i + 1]) && Acts(states[j], p, states[j + 1])
    && forall k | i < k <= j :: states[k].procs[p] == states[i + 1].procs[p]
  }

  /** An attempt to take the lock succeeds exactly if the word that it reads is free and still the same when it is set.
    * A failed trylock gives up, a failed turn of lock goes on. */
  lemma AttemptSucceedsIff(states: seq<System>, i: nat, j: nat, p: Pid)
    requires ActsAgain(states, i, j, p) && (states[i].procs[p] == TryRead || states[i].procs[p] == LockRead)
    requires states[i + 1].procs[p].TryCas? || states[i + 1].procs[p].LockCas?
    ensures !states[i].word.high && p in states[j + 1].procs
    ensures states[j + 1].procs[p] == Holding <==> states[j].word == states[i].word
    ensures states[j + 1].procs[p] == Holding ==> states[j + 1].word == Word(true, states[i].word.count)
    ensures states[j + 1].procs[p] != Holding ==> states[j + 1].word == states[j].word
    ensures states[j + 1].procs[p] != Holding && states[i].procs[p] == TryRead ==> states[j + 1].procs[p] == Outside
    ensures states[j + 1].procs[p] != Holding && states[i].procs[p] == LockRead ==>
      states[j + 1].procs[p] == LockRead || states[j + 1].procs[p] == WaitRead
  {
    assert states[j].procs[p] == states[i + 1].procs[p];
  }

  /** A trylock that reads a locked word gives up, one that reads a free word goes on to set it. */
  lemma TrylockReads(s: System, p: Pid, s': System)
    requires p in s.procs && s.procs[p] == TryRead && Acts(s, p, s')
    ensures s'.word == s.word && p in s'.procs
    ensures if s.word.high then s'.procs[p] == Outside else s'.procs[p].TryCas?
  {
  }

  /** An unlock that sets the word it read frees it and wakes a sleeper exactly if one was counted. */
  lemma UnlockFreesIff(states: seq<System>, i: nat, j: nat, p: Pid)
    requires ActsAgain(states, i, j, p) && states[i].procs[p] == UnlockRead
    ensures p in states[j + 1].procs
    ensures states[j].word != states[i].word ==> states[j + 1].procs[p] == UnlockRead && states[j + 1].word == states[j].word
    ensures states[j].word == states[i].word ==>
      && !states[j + 1].word.high
      && (if states[i].word.count > 0 then states[j + 1].procs[p] == Posting && states[j + 1].word.count == states[i].word.count - 1
          else states[j + 1].procs[p] == Outside && states[j + 1].word.count == 0)
  {
    assert states[j].procs[p] == states[i + 1].procs[p];
  }
}
