/** The HTTP file cache (src/http/ngx_http_file_cache.c): nodes in shared memory, in a tree and in a queue ordered
  * by expiry, used by many processes.
  *
  * Everything between taking and releasing the zone's lock is one step of one actor.  Deleting a node whose file
  * exists drops the lock while the file is unlinked, and storing a response renames the file before it takes the
  * lock; both are points where any other actor may run.  The clock is shared and never runs backwards.
  */
module HttpFileCache {
  import opened Bytes
  import opened Queue

  type Key = seq<byte>

  /** What a node remembers about the stored response or the cached error. */
  datatype Info = Info(error: nat, validSec: int, validMsec: nat, uniq: nat, bodyStart: nat)

  const BLANK := Info(0, 0, 0, 0, 0)

  /** ngx_http_file_cache_node_t; `present` is the flag `exists`. */
  datatype Node = Node(
    key: Key, count: nat, uses: nat, present: bool, updating: bool, deleting: bool, expire: int, info: Info)

  /** The zone; the tree and the queue hold the same nodes. */
  datatype Shared = Shared(nodes: map<Id, Node>, queue: seq<Id>, clock: int, inactive: nat)

  // ---------------------------------------------------------------- elementary changes

  function Put(s: Shared, id: Id, n: Node): Shared {
    s.(nodes := s.nodes[id := n])
  }

  /** Renew the expiry time and move to the head of the queue. */
  function Touch(s: Shared, id: Id): Shared
    requires id in s.nodes
  {
    s.(nodes := s.nodes[id := s.nodes[id].(expire := s.clock + s.inactive)], queue := [id] + Without(s.queue, id))
  }

  function Insert(s: Shared, id: Id, n: Node): Shared {
    s.(nodes := s.nodes[id := n.(expire := s.clock + s.inactive)], queue := [id] + s.queue)
  }

  function Remove(s: Shared, id: Id): Shared {
    s.(nodes := s.nodes - {id}, queue := Without(s.queue, id))
  }

  // ---------------------------------------------------------------- locked sections

  datatype Answer = Ok | Again | Declined | Error

  /** `uses` has ten bits. */
  function Use(uses: nat): nat {
    if uses == 1023 then 0 else uses + 1
  }

  /** What a lookup does to the node it finds, and what it answers. */
  function Used(n: Node, minUses: nat, clock: int): (Node, Answer) {
    var n1 := n.(uses := Use(n.uses), count := n.count + 1);
    if n1.info.error != 0 then
      if n1.info.validSec < clock then (n1.(present := false, info := BLANK), Declined) else (n1, Ok)
    else if n1.present || n1.uses >= minUses then (n1, Ok)
    else (n1, Again)
  }

  function Found(s: Shared, id: Id, minUses: nat): Shared
    requires id in s.nodes
  {
    Touch(Put(s, id, Used(s.nodes[id], minUses, s.clock).0), id)
  }

  function NewNode(key: Key): Node {
    Node(key, 1, 1, false, false, false, 0, BLANK)
  }

  /** A node for a file that the loader met on disk. */
  function LoadedNode(key: Key): Node {
    Node(key, 0, 1, true, false, false, 0, BLANK)
  }

  /** A file was read that the loader has not met yet. */
  function Warmed(n: Node, uniq: nat, bodyStart: nat): Node {
    if n.present then n else n.(uses := 1, present := true, info := n.info.(uniq := uniq, bodyStart := bodyStart))
  }

  function Stored(n: Node, renamed: bool, uniq: nat, bodyStart: nat): Node
    requires n.count > 0
  {
    n.(count := n.count - 1, present := n.present || renamed, updating := false,
       info := n.info.(uniq := uniq, bodyStart := bodyStart))
  }

  /** What a request knows when it lets go of its node. */
  datatype Verdict = Verdict(error: nat, validSec: int, validMsec: nat, minUses: nat)

  function Released(n: Node, owner: bool, v: Verdict): Node
    requires n.count > 0
  {
    var n1 := n.(count := n.count - 1, updating := n.updating && !owner);
    if v.error == 0 then n1
    else if v.validSec == 0 then n1.(info := n1.info.(error := v.error))
    else n1.(info := n1.info.(error := v.error, validSec := v.validSec, validMsec := v.validMsec))
  }

  function Release(s: Shared, id: Id, owner: bool, v: Verdict): Shared
    requires id in s.nodes && s.nodes[id].count > 0
  {
    var n := Released(s.nodes[id], owner, v);
    if v.error == 0 && !n.present && n.count == 0 && v.minUses == 1 then Remove(s, id) else Put(s, id, n)
  }

  /** ngx_http_file_cache_delete up to the point where it unlocks. */
  function BeginUnlink(s: Shared, id: Id): Shared
    requires id in s.nodes
  {
    Put(s, id, s.nodes[id].(count := s.nodes[id].count + 1, deleting := true))
  }

  /** ... and from where it has the lock again. */
  function EndUnlink(s: Shared, id: Id): Shared
    requires id in s.nodes && s.nodes[id].count > 0
  {
    var n := s.nodes[id];
    if n.count == 1 then Remove(s, id) else Put(s, id, n.(count := n.count - 1, deleting := false))
  }

  /** How a pass over the queue leaves the lock: finished, or to unlink a node's file. */
  datatype Outcome = Wait(seconds: int) | Unlink(node: Id)

  function Delete(s: Shared, id: Id, wait: int): (Shared, Outcome)
    requires id in s.nodes
  {
    if s.nodes[id].present then (BeginUnlink(s, id), Unlink(id)) else (Remove(s, id), Wait(wait))
  }

  // ---------------------------------------------------------------- the expiry pass

  ghost predicate Distinct(queue: seq<Id>) {
    forall i, j | 0 <= i < j < |queue| :: queue[i] != queue[j]
  }

  ghost predicate SameNodes(nodes: map<Id, Node>, queue: seq<Id>) {
    Distinct(queue) && forall id :: id in queue <==> id in nodes
  }

  /** Head first, the latest expiry first; nothing expires later than a node touched now. */
  ghost predicate Sorted(nodes: map<Id, Node>, queue: seq<Id>, latest: int) {
    && (forall i | 0 <= i < |queue| :: queue[i] in nodes && nodes[queue[i]].expire <= latest)
    && (forall i, j | 0 <= i < j < |queue| :: nodes[queue[i]].expire >= nodes[queue[j]].expire)
  }

  ghost predicate QueueOk(s: Shared) {
    SameNodes(s.nodes, s.queue) && Sorted(s.nodes, s.queue, s.clock + s.inactive)
  }

  function Stale(s: Shared, now: int): set<Id> {
    set id | id in s.nodes && s.nodes[id].expire <= now
  }

  function Last(s: Shared): Id
    requires s.queue != []
  {
    s.queue[|s.queue| - 1]
  }

  function AtMostTen(x: int): int {
    if x > 10 then 10 else x
  }

  /** A node that the pass moves to the head is no longer expired. */
  ghost predicate Advances(s: Shared, now: int) {
    s.clock + s.inactive > now
  }

  /** A node at which the loop leaves the lock. */
  ghost predicate Stopper(n: Node, now: int) {
    n.expire > now || (n.count == 0 && n.present) || (n.count > 0 && n.deleting)
  }

  ghost predicate LeavesLoop(s: Shared, now: int)
    requires QueueOk(s)
  {
    s.queue == [] || Stopper(s.nodes[Last(s)], now)
  }

  /** One turn of the loop that stays in it. */
  function Turn(s: Shared): Shared
    requires s.queue != [] && Last(s) in s.nodes
  {
    if s.nodes[Last(s)].count == 0 then Remove(s, Last(s)) else Touch(s, Last(s))
  }

  lemma TurnKeepsQueue(s: Shared)
    requires QueueOk(s) && s.queue != []
    ensures QueueOk(Turn(s))
  {
    if s.nodes[Last(s)].count == 0 {
      RemoveKeepsQueue(s, Last(s));
    } else {
      TouchKeepsQueue(s, Last(s));
    }
  }

  // ---------------------------------------------------------------- when an expiry pass ends at all

  ghost predicate LeavesWithin(s: Shared, now: int, k: nat)
    requires QueueOk(s)
    decreases k
  {
    LeavesLoop(s, now) || (k > 0 && (TurnKeepsQueue(s); LeavesWithin(Turn(s), now, k - 1)))
  }

  /** The loop leaves the lock some time. */
  ghost predicate Ends(s: Shared, now: int)
    requires QueueOk(s)
  {
    exists k: nat :: LeavesWithin(s, now, k)
  }

  lemma {:induction false} WithinLonger(s: Shared, now: int, j: nat, k: nat)
    requires QueueOk(s) && LeavesWithin(s, now, j) && j <= k
    ensures LeavesWithin(s, now, k)
    decreases k
  {
    if !LeavesLoop(s, now) {
      TurnKeepsQueue(s);
      WithinLonger(Turn(s), now, j - 1, k - 1);
    }
  }

  ghost function Least(s: Shared, now: int, k: nat): (n: nat)
    requires QueueOk(s) && LeavesWithin(s, now, k)
    ensures LeavesWithin(s, now, n) && (n > 0 ==> !LeavesWithin(s, now, n - 1))
  {
    if k > 0 && LeavesWithin(s, now, k - 1) then Least(s, now, k - 1) else k
  }

  /** The turns the loop stays in it. */
  ghost function TurnsLeft(s: Shared, now: int): (n: nat)
    requires QueueOk(s) && Ends(s, now)
    ensures LeavesWithin(s, now, n) && (n > 0 ==> !LeavesWithin(s, now, n - 1))
  {
    var k: nat :| LeavesWithin(s, now, k);
    Least(s, now, k)
  }

  lemma TurnsAtMost(s: Shared, now: int, m: nat)
    requires QueueOk(s) && LeavesWithin(s, now, m)
    ensures Ends(s, now) && TurnsLeft(s, now) <= m
  {
    var n := TurnsLeft(s, now);
    if n > m {
      WithinLonger(s, now, m, n - 1);
    }
  }

  lemma WithinTurn(s: Shared, now: int, n: nat, t: Shared)
    requires QueueOk(s) && LeavesWithin(s, now, n) && !LeavesLoop(s, now) && t == Turn(s)
    ensures n > 0 && QueueOk(t) && LeavesWithin(t, now, n - 1)
  {
    TurnKeepsQueue(s);
  }

  /** Every turn brings the end nearer. */
  lemma TurnBringsEnd(s: Shared, now: int)
    requires QueueOk(s) && Ends(s, now) && !LeavesLoop(s, now)
    ensures QueueOk(Turn(s)) && Ends(Turn(s), now) && TurnsLeft(Turn(s), now) < TurnsLeft(s, now)
  {
    var n, t := TurnsLeft(s, now), Turn(s);
    WithinTurn(s, now, n, t);
    TurnsAtMost(t, now, n - 1);
  }

  /** The turn drops the last node or brings it to the head. */
  lemma TurnMovesTail(s: Shared)
    requires QueueOk(s) && s.queue != []
    ensures var q := s.queue[..|s.queue| - 1];
      Turn(s).queue == if s.nodes[Last(s)].count == 0 then q else [Last(s)] + q
  {
    WithoutLast(s.queue);
  }

  lemma {:induction false} AdvancingPassEnds(s: Shared, now: int, k: nat)
    requires QueueOk(s) && Advances(s, now) && |Stale(s, now)| <= k
    ensures LeavesWithin(s, now, k)
    decreases k
  {
    if !LeavesLoop(s, now) {
      TurnAdvances(s, now);
      AdvancingPassEnds(Turn(s), now, k - 1);
    }
  }

  lemma {:induction false} StopperEndsPass(s: Shared, now: int, k: nat, id: Id)
    requires QueueOk(s) && k < |s.queue| && s.queue[|s.queue| - 1 - k] == id
    requires id in s.nodes && Stopper(s.nodes[id], now)
    ensures LeavesWithin(s, now, k)
    decreases k
  {
    if !LeavesLoop(s, now) {
      var t := NotLast(s, now, id);
      TurnShifts(s, k, id);
      StopperEndsPass(t, now, k - 1, id);
      OneMoreTurn(s, now, t, k - 1);
    }
  }

  lemma NotLast(s: Shared, now: int, id: Id) returns (t: Shared)
    requires QueueOk(s) && id in s.nodes && Stopper(s.nodes[id], now) && !LeavesLoop(s, now)
    ensures Last(s) in s.nodes && Last(s) != id && t == Turn(s) && QueueOk(t)
  {
    t := Turn(s);
    TurnKeepsQueue(s);
  }

  /** The other nodes come one place nearer to the end of the queue. */
  lemma TurnShifts(s: Shared, k: nat, id: Id)
    requires Distinct(s.queue) && 0 < k < |s.queue| && s.queue[|s.queue| - 1 - k] == id
    requires Last(s) in s.nodes && id in s.nodes && id != Last(s)
    ensures var t := Turn(s);
      k <= |t.queue| && t.queue[|t.queue| - k] == id && id in t.nodes && t.nodes[id] == s.nodes[id]
  {
    WithoutLast(s.queue);
  }

  lemma {:induction false} UnusedNodesEndPass(s: Shared, now: int)
    requires QueueOk(s) && forall id | id in s.nodes :: s.nodes[id].count == 0
    ensures LeavesWithin(s, now, |s.queue|)
    decreases |s.queue|
  {
    if !LeavesLoop(s, now) {
      var t := TurnDropsUnused(s);
      UnusedNodesEndPass(t, now);
      OneMoreTurn(s, now, t, |t.queue|);
    }
  }

  lemma TurnDropsUnused(s: Shared) returns (t: Shared)
    requires QueueOk(s) && s.queue != [] && forall id | id in s.nodes :: s.nodes[id].count == 0
    ensures t == Turn(s) && QueueOk(t) && |t.queue| == |s.queue| - 1
    ensures forall id | id in t.nodes :: t.nodes[id].count == 0
  {
    t := Turn(s);
    TurnKeepsQueue(s);
    TurnMovesTail(s);
  }

  lemma OneMoreTurn(s: Shared, now: int, t: Shared, k: nat)
    requires QueueOk(s) && s.queue != [] && t == Turn(s) && QueueOk(t) && LeavesWithin(t, now, k)
    ensures LeavesWithin(s, now, k + 1)
  {
  }

  /** Moving nodes to the head does not help: some are in use and nothing stops the loop. */
  ghost predicate Restless(s: Shared, now: int) {
    && !Advances(s, now)
    && (forall id | id in s.nodes :: !Stopper(s.nodes[id], now))
    && exists id :: id in s.nodes && s.nodes[id].count > 0
  }

  lemma {:induction false} RestlessPassSpins(s: Shared, now: int, k: nat)
    requires QueueOk(s) && Restless(s, now)
    ensures !LeavesWithin(s, now, k)
    decreases k
  {
    var id :| id in s.nodes && s.nodes[id].count > 0;
    assert id in s.queue;
    if k > 0 {
      TurnKeepsQueue(s);
      TurnStaysRestless(s, now, id);
      RestlessPassSpins(Turn(s), now, k - 1);
    }
  }

  lemma TurnStaysRestless(s: Shared, now: int, id: Id)
    requires QueueOk(s) && Restless(s, now) && id in s.nodes && s.nodes[id].count > 0
    ensures s.queue != [] && Restless(Turn(s), now)
  {
    assert id in s.queue;
    assert id in Turn(s).nodes && Turn(s).nodes[id].count > 0;
  }

  /** A pass that began at `now` ends, for every state of the zone, unless moving a node to the head leaves it
    * expired (inactive=0, or the clock is behind), a node is in use and no node makes the loop stop. */
  lemma PassEndsIff(s: Shared, now: int)
    requires QueueOk(s)
    ensures Ends(s, now) <==> !Restless(s, now)
  {
    if Restless(s, now) {
      forall l: nat
        ensures !LeavesWithin(s, now, l)
      {
        RestlessPassSpins(s, now, l);
      }
    } else if Advances(s, now) {
      AdvancingPassEnds(s, now, |Stale(s, now)|);
    } else if id :| id in s.nodes && Stopper(s.nodes[id], now) {
      assert id in s.queue;
      var i :| 0 <= i < |s.queue| && s.queue[i] == id;
      StopperEndsPass(s, now, |s.queue| - 1 - i, id);
    } else {
      UnusedNodesEndPass(s, now);
    }
  }

  // ---------------------------------------------------------------- one locked stretch

  /** How the loop leaves the lock. */
  ghost function Leaving(s: Shared, now: int): (Shared, Outcome)
    requires QueueOk(s) && LeavesLoop(s, now)
  {
    if s.queue == [] then (s, Wait(10))
    else if s.nodes[Last(s)].expire > now then (s, Wait(AtMostTen(s.nodes[Last(s)].expire - now)))
    else if s.nodes[Last(s)].count == 0 then (BeginUnlink(s, Last(s)), Unlink(Last(s)))
    else (s, Wait(1))
  }

  /** One locked stretch of ngx_http_file_cache_expire. */
  ghost function Sweep(s: Shared, now: int): (Shared, Outcome)
    requires QueueOk(s) && Ends(s, now)
    decreases TurnsLeft(s, now)
  {
    if LeavesLoop(s, now) then Leaving(s, now)
    else
      TurnBringsEnd(s, now);
      Sweep(Turn(s), now)
  }

  lemma TurnAdvances(s: Shared, now: int)
    requires QueueOk(s) && Advances(s, now) && !LeavesLoop(s, now)
    ensures QueueOk(Turn(s)) && Advances(Turn(s), now) && |Stale(Turn(s), now)| < |Stale(s, now)|
  {
    TurnKeepsQueue(s);
    RemoveStale(s, Last(s), now);
    TouchStale(s, Last(s), now);
  }

  lemma RemoveStale(s: Shared, id: Id, now: int)
    requires id in Stale(s, now)
    ensures |Stale(Remove(s, id), now)| < |Stale(s, now)|
  {
    assert Stale(Remove(s, id), now) == Stale(s, now) - {id};
  }

  lemma TouchStale(s: Shared, id: Id, now: int)
    requires id in Stale(s, now) && Advances(s, now)
    ensures |Stale(Touch(s, id), now)| < |Stale(s, now)|
  {
    assert Stale(Touch(s, id), now) == Stale(s, now) - {id};
  }

  lemma SortedWithout(nodes: map<Id, Node>, queue: seq<Id>, latest: int, id: Id)
    requires Sorted(nodes, queue, latest)
    ensures Sorted(nodes, Without(queue, id), latest)
  {
    var q := Without(queue, id);
    forall i | 0 <= i < |q|
      ensures q[i] in nodes && nodes[q[i]].expire <= latest
    {
      var k := WithoutMember(queue, id, i);
    }
    forall i, j | 0 <= i < j < |q|
      ensures nodes[q[i]].expire >= nodes[q[j]].expire
    {
      var k, l := WithoutIsSubsequence(queue, id, i, j);
    }
  }

  /** A node outside the queue enters it at the head. */
  lemma Enter(nodes: map<Id, Node>, queue: seq<Id>, latest: int, id: Id, n: Node) returns (q: seq<Id>)
    requires Distinct(queue) && Sorted(nodes, queue, latest) && id !in queue && n.expire == latest
    ensures q == [id] + queue && Distinct(q) && Sorted(nodes[id := n], q, latest)
    ensures forall x :: x in q <==> x == id || x in queue
  {
    q := [id] + queue;
    var nodes' := nodes[id := n];
    assert forall k | 0 < k < |q| :: q[k] == queue[k - 1] && queue[k - 1] in queue;
    forall i, j | 0 <= i < j < |q|
      ensures q[i] != q[j] && q[i] in nodes' && q[j] in nodes' && nodes'[q[i]].expire >= nodes'[q[j]].expire
    {
      if i > 0 {
        assert queue[i - 1] != queue[j - 1] && nodes[queue[i - 1]].expire >= nodes[queue[j - 1]].expire;
      }
    }
  }

  /** What remains of the queue when a node leaves it. */
  lemma Leave(s: Shared, id: Id) returns (q: seq<Id>)
    requires QueueOk(s) && id in s.nodes
    ensures q == Without(s.queue, id) && Distinct(q) && Sorted(s.nodes, q, s.clock + s.inactive)
    ensures forall x :: x in q <==> x in s.nodes && x != id
  {
    WithoutRemoves(s.queue, id);
    SortedWithout(s.nodes, s.queue, s.clock + s.inactive, id);
    q := Without(s.queue, id);
  }

  lemma HeadKeepsQueue(s: Shared, id: Id, n: Node, q: seq<Id>)
    requires Distinct(q) && Sorted(s.nodes, q, s.clock + s.inactive) && n.expire == s.clock + s.inactive
    requires forall x :: x in q <==> x in s.nodes && x != id
    ensures QueueOk(s.(nodes := s.nodes[id := n], queue := [id] + q))
  {
    var q' := Enter(s.nodes, q, s.clock + s.inactive, id, n);
  }

  lemma TouchKeepsQueue(s: Shared, id: Id)
    requires QueueOk(s) && id in s.nodes
    ensures QueueOk(Touch(s, id))
  {
    var q := Leave(s, id);
    HeadKeepsQueue(s, id, s.nodes[id].(expire := s.clock + s.inactive), q);
  }

  lemma InsertKeepsQueue(s: Shared, id: Id, n: Node)
    requires QueueOk(s) && id !in s.nodes
    ensures QueueOk(Insert(s, id, n))
  {
    HeadKeepsQueue(s, id, n.(expire := s.clock + s.inactive), s.queue);
  }

  lemma RemoveKeepsQueue(s: Shared, id: Id)
    requires QueueOk(s) && id in s.nodes
    ensures QueueOk(Remove(s, id))
  {
    var q := Leave(s, id);
  }

  lemma PutKeepsQueue(s: Shared, id: Id, n: Node)
    requires QueueOk(s) && id in s.nodes && n.expire == s.nodes[id].expire
    ensures QueueOk(Put(s, id, n))
  {
  }

  /** No node is older than the last of the queue. */
  lemma LastIsOldest(s: Shared, id: Id)
    requires QueueOk(s) && id in s.nodes
    ensures s.queue != [] && Last(s) in s.nodes && s.nodes[Last(s)].expire <= s.nodes[id].expire
  {
    assert id in s.queue;
    var i :| 0 <= i < |s.queue| && s.queue[i] == id;
  }

  // ---------------------------------------------------------------- the forced expiry pass

  const TRIES := 20

  /** The last k nodes of the queue are all in use. */
  ghost predicate LastInUse(s: Shared, k: nat)
    requires k <= |s.queue| && forall id | id in s.queue :: id in s.nodes
  {
    forall i | |s.queue| - k <= i < |s.queue| :: s.nodes[s.queue[i]].count > 0
  }

  /** The unused node nearest to the end, looking at no more than TRIES - k further nodes. */
  function Victim(s: Shared, k: nat): Option<Id>
    requires k <= |s.queue| && forall id | id in s.queue :: id in s.nodes
    decreases |s.queue| - k
  {
    if k >= TRIES || k == |s.queue| then None
    else if s.nodes[s.queue[|s.queue| - 1 - k]].count == 0 then Some(s.queue[|s.queue| - 1 - k])
    else Victim(s, k + 1)
  }

  /** ngx_http_file_cache_forced_expire, up to where it unlocks. */
  ghost function Force(s: Shared): (Shared, Outcome)
    requires QueueOk(s)
  {
    match Victim(s, 0)
    case Some(id) => (VictimIsUnused(s, 0); Delete(s, id, 0))
    case None => (s, Wait(if |s.queue| < TRIES then 10 else 1))
  }

  lemma ForceIs(s: Shared)
    requires QueueOk(s)
    ensures var v := Victim(s, 0);
      && (v.Some? ==> v.value in s.nodes && Force(s) == Delete(s, v.value, 0))
      && (v.None? ==> Force(s) == (s, Wait(if |s.queue| < TRIES then 10 else 1)))
  {
    VictimIsUnused(s, 0);
  }

  /** The victim is the last unused node, if one of the last TRIES nodes is unused. */
  lemma {:induction false} VictimIsUnused(s: Shared, k: nat)
    requires QueueOk(s) && k <= |s.queue| && k <= TRIES && LastInUse(s, k)
    ensures Victim(s, k).Some? ==> Victim(s, k).value in s.nodes && s.nodes[Victim(s, k).value].count == 0
    ensures Victim(s, k).Some? ==> exists i ::
      && |s.queue| - TRIES <= i < |s.queue| && 0 <= i && s.queue[i] == Victim(s, k).value
      && LastInUse(s, |s.queue| - 1 - i)
    ensures Victim(s, k).None? ==> LastInUse(s, if |s.queue| < TRIES then |s.queue| else TRIES)
    decreases |s.queue| - k
  {
    if k < TRIES && k < |s.queue| {
      var id := s.queue[|s.queue| - 1 - k];
      assert id in s.queue;
      if s.nodes[id].count > 0 {
        VictimIsUnused(s, k + 1);
      }
    }
  }

  // ---------------------------------------------------------------- actors

  /** What an actor stands at between two locked sections. */
  datatype Pc =
    | Idle
    | Retry(key: Key)                            // no memory for a node, lock dropped to expire others
    | Holding(node: Id, owner: bool)             // c->node, c->updating
    | Committing(node: Id, owner: bool)          // renaming the file before the lock is taken
    | Unlinking(node: Id, pass: Option<int>)     // deleting the file; `pass`: the expiry pass to go on with

  ghost predicate RefersTo(pc: Pc, id: Id) {
    !pc.Idle? && !pc.Retry? && pc.node == id
  }

  ghost function Ref(pc: Pc, id: Id): nat {
    if RefersTo(pc, id) then 1 else 0
  }

  ghost predicate Owns(pc: Pc, id: Id) {
    (pc.Holding? || pc.Committing?) && pc.owner && pc.node == id
  }

  ghost predicate Unlinks(pc: Pc, id: Id) {
    pc.Unlinking? && pc.node == id
  }

  type Actors = map<nat, Pc>

  datatype System = System(shared: Shared, actors: Actors)

  ghost function Refs(actors: Actors, id: Id): set<nat> {
    set a | a in actors && RefersTo(actors[a], id)
  }

  /** References are to live nodes, and a node counts them. */
  ghost predicate Counted(nodes: map<Id, Node>, actors: Actors) {
    && (forall a | a in actors :: !actors[a].Idle? && !actors[a].Retry? ==> actors[a].node in nodes)
    && (forall id | id in nodes :: nodes[id].count == |Refs(actors, id)|)
  }

  ghost predicate SomeOwner(actors: Actors, id: Id) {
    exists a :: a in actors && Owns(actors[a], id)
  }

  ghost predicate Updaters(nodes: map<Id, Node>, actors: Actors) {
    forall id | id in nodes && nodes[id].updating :: SomeOwner(actors, id)
  }

  ghost predicate SomeUnlinker(actors: Actors, id: Id) {
    exists a :: a in actors && Unlinks(actors[a], id)
  }

  /** `deleting` says that an actor is unlinking the file, and no two actors do. */
  ghost predicate Unlinkers(nodes: map<Id, Node>, actors: Actors) {
    && (forall id | id in nodes :: nodes[id].deleting <==> SomeUnlinker(actors, id))
    && (forall a, b | a in actors && b in actors && actors[a].Unlinking? && actors[b].Unlinking? ::
          actors[a].node == actors[b].node ==> a == b)
  }

  ghost predicate Inv(sys: System) {
    && QueueOk(sys.shared) && Counted(sys.shared.nodes, sys.actors)
    && Updaters(sys.shared.nodes, sys.actors) && Unlinkers(sys.shared.nodes, sys.actors)
  }

  // ---------------------------------------------------------------- what elementary changes keep

  lemma RefsMove(actors: Actors, a: nat, pc: Pc, id: Id)
    requires a in actors
    ensures |Refs(actors[a := pc], id)| == |Refs(actors, id)| + Ref(pc, id) - Ref(actors[a], id)
  {
    var others := Refs(actors, id) - {a};
    assert Refs(actors, id) == if RefersTo(actors[a], id) then others + {a} else others;
    assert Refs(actors[a := pc], id) == if RefersTo(pc, id) then others + {a} else others;
  }

  /** An actor that speaks of no node but id moves to a point that speaks of no node but id. */
  ghost predicate Only(pc: Pc, id: Id) {
    pc.Idle? || pc.Retry? || pc.node == id
  }

  lemma PutCounted(nodes: map<Id, Node>, actors: Actors, a: nat, pc: Pc, id: Id, n: Node)
    requires Counted(nodes, actors) && a in actors && id in nodes && Only(actors[a], id) && Only(pc, id)
    requires n.count == nodes[id].count + Ref(pc, id) - Ref(actors[a], id)
    ensures Counted(nodes[id := n], actors[a := pc])
  {
    forall x | x in nodes
      ensures nodes[id := n][x].count == |Refs(actors[a := pc], x)|
    {
      RefsMove(actors, a, pc, x);
    }
  }

  lemma PutUpdaters(nodes: map<Id, Node>, actors: Actors, a: nat, pc: Pc, id: Id, n: Node)
    requires Updaters(nodes, actors) && a in actors && id in nodes && Only(actors[a], id) && Only(pc, id)
    requires n.updating ==> Owns(pc, id) || (nodes[id].updating && !Owns(actors[a], id))
    ensures Updaters(nodes[id := n], actors[a := pc])
  {
    var nodes', actors' := nodes[id := n], actors[a := pc];
    forall x | x in nodes' && nodes'[x].updating
      ensures SomeOwner(actors', x)
    {
      if x == id && Owns(pc, id) {
        assert Owns(actors'[a], x);
      } else {
        var b :| b in actors && Owns(actors[b], x);
        assert Owns(actors'[b], x);
      }
    }
  }

  lemma PutUnlinkers(nodes: map<Id, Node>, actors: Actors, a: nat, pc: Pc, id: Id, n: Node)
    requires Unlinkers(nodes, actors) && a in actors && id in nodes && Only(actors[a], id) && Only(pc, id)
    requires n.deleting <==> Unlinks(pc, id) || (nodes[id].deleting && !Unlinks(actors[a], id))
    requires Unlinks(pc, id) ==> !nodes[id].deleting || Unlinks(actors[a], id)
    ensures Unlinkers(nodes[id := n], actors[a := pc])
  {
    var nodes', actors' := nodes[id := n], actors[a := pc];
    forall x | x in nodes'
      ensures nodes'[x].deleting <==> SomeUnlinker(actors', x)
    {
      if SomeUnlinker(actors, x) {
        var b :| b in actors && Unlinks(actors[b], x);
        assert b != a ==> Unlinks(actors'[b], x);
        assert forall c | c in actors && Unlinks(actors[c], x) :: c == b;
      }
      if Unlinks(pc, x) {
        assert Unlinks(actors'[a], x);
      }
    }
    forall b, c | b in actors' && c in actors' && actors'[b].Unlinking? && actors'[c].Unlinking?
        && actors'[b].node == actors'[c].node
      ensures b == c
    {
      assert b != a ==> Unlinks(actors[b], actors[b].node);
      assert c != a ==> Unlinks(actors[c], actors[c].node);
    }
  }

  ghost function Moved(sys: System, s: Shared, a: nat, pc: Pc): System {
    System(s, sys.actors[a := pc])
  }

  /** Actor a changes node id and moves on. */
  lemma PutKeeps(sys: System, a: nat, pc: Pc, id: Id, n: Node)
    requires Inv(sys) && a in sys.actors && id in sys.shared.nodes && Only(sys.actors[a], id) && Only(pc, id)
    requires n.expire == sys.shared.nodes[id].expire
    requires n.count == sys.shared.nodes[id].count + Ref(pc, id) - Ref(sys.actors[a], id)
    requires n.updating ==> Owns(pc, id) || (sys.shared.nodes[id].updating && !Owns(sys.actors[a], id))
    requires n.deleting <==> Unlinks(pc, id) || (sys.shared.nodes[id].deleting && !Unlinks(sys.actors[a], id))
    requires Unlinks(pc, id) ==> !sys.shared.nodes[id].deleting || Unlinks(sys.actors[a], id)
    ensures Inv(Moved(sys, Put(sys.shared, id, n), a, pc))
  {
    PutKeepsQueue(sys.shared, id, n);
    PutCounted(sys.shared.nodes, sys.actors, a, pc, id, n);
    PutUpdaters(sys.shared.nodes, sys.actors, a, pc, id, n);
    PutUnlinkers(sys.shared.nodes, sys.actors, a, pc, id, n);
  }

  /** Nobody refers to a node whose count is zero. */
  lemma ZeroMeansUnused(nodes: map<Id, Node>, actors: Actors, id: Id, a: nat)
    requires Counted(nodes, actors) && id in nodes && nodes[id].count == 0 && a in actors
    ensures !RefersTo(actors[a], id)
  {
    assert RefersTo(actors[a], id) ==> a in Refs(actors, id);
  }

  /** A node of count zero may go: nobody refers to it. */
  lemma RemoveKeeps(sys: System, id: Id)
    requires Inv(sys) && id in sys.shared.nodes && sys.shared.nodes[id].count == 0
    ensures Inv(sys.(shared := Remove(sys.shared, id)))
  {
    RemoveKeepsQueue(sys.shared, id);
    forall a | a in sys.actors
      ensures !RefersTo(sys.actors[a], id)
    {
      ZeroMeansUnused(sys.shared.nodes, sys.actors, id, a);
    }
  }

  /** Actor a lets go of a node nobody else uses, and the node goes. */
  lemma DropKeeps(sys: System, a: nat, id: Id)
    requires Inv(sys) && a in sys.actors && id in sys.shared.nodes
    requires RefersTo(sys.actors[a], id) && sys.shared.nodes[id].count == 1
    ensures Inv(Moved(sys, Remove(sys.shared, id), a, Idle))
  {
    var s, pc := sys.shared, sys.actors[a];
    var n := s.nodes[id].(count := 0, updating := s.nodes[id].updating && !Owns(pc, id),
      deleting := s.nodes[id].deleting && !Unlinks(pc, id));
    PutKeeps(sys, a, Idle, id, n);
    RemoveKeeps(Moved(sys, Put(s, id, n), a, Idle), id);
    RemoveForgetsPut(s, id, n);
  }

  lemma RemoveForgetsPut(s: Shared, id: Id, n: Node)
    requires id in s.nodes
    ensures Remove(Put(s, id, n), id) == Remove(s, id)
  {
    assert s.nodes[id := n] - {id} == s.nodes - {id};
  }

  lemma TouchKeeps(sys: System, id: Id)
    requires Inv(sys) && id in sys.shared.nodes
    ensures Inv(sys.(shared := Touch(sys.shared, id)))
  {
    TouchKeepsQueue(sys.shared, id);
  }

  lemma InsertCounted(nodes: map<Id, Node>, actors: Actors, a: nat, pc: Pc, id: Id, n: Node)
    requires Counted(nodes, actors) && a in actors && id !in nodes
    requires (actors[a].Idle? || actors[a].Retry?) && Only(pc, id) && n.count == Ref(pc, id)
    ensures Counted(nodes[id := n], actors[a := pc])
  {
    var nodes' := nodes[id := n];
    forall x | x in nodes'
      ensures nodes'[x].count == |Refs(actors[a := pc], x)|
    {
      RefsMove(actors, a, pc, x);
      if x == id {
        assert Refs(actors, id) == {};
      }
    }
  }

  /** A new node, possibly already held by the actor that made it. */
  lemma InsertKeeps(sys: System, a: nat, pc: Pc, id: Id, n: Node)
    requires Inv(sys) && a in sys.actors && id !in sys.shared.nodes
    requires (sys.actors[a].Idle? || sys.actors[a].Retry?) && Only(pc, id) && n.count == Ref(pc, id)
    requires !n.updating && !n.deleting && !pc.Unlinking?
    ensures Inv(Moved(sys, Insert(sys.shared, id, n), a, pc))
  {
    InsertKeepsQueue(sys.shared, id, n);
    var n' := n.(expire := sys.shared.clock + sys.shared.inactive);
    InsertCounted(sys.shared.nodes, sys.actors, a, pc, id, n');
    var nodes', actors' := sys.shared.nodes[id := n'], sys.actors[a := pc];
    forall x | x in nodes' && nodes'[x].updating
      ensures SomeOwner(actors', x)
    {
      var b :| b in sys.actors && Owns(sys.actors[b], x);
      assert Owns(actors'[b], x);
    }
    forall x | x in nodes'
      ensures nodes'[x].deleting <==> SomeUnlinker(actors', x)
    {
      if SomeUnlinker(sys.actors, x) {
        var b :| b in sys.actors && Unlinks(sys.actors[b], x);
        assert Unlinks(actors'[b], x);
      }
    }
  }

  // ---------------------------------------------------------------- steps

  /** One locked section with everything that comes from outside: the slab's answer, what the tree search finds
    * (several nodes may have the same key), what the request or the file system says. */
  datatype Event =
    | Lookup(key: Key, minUses: nat, found: Option<Id>, room: Option<Id>)
    | SecondTry(room: Option<Id>)
    | Warm(uniq: nat, bodyStart: nat)
    | Expired
    | BeginStore
    | EndStore(renamed: bool, uniq: nat, bodyStart: nat)
    | Free(verdict: Verdict)
    | Load(key: Key, found: Option<Id>, room: Option<Id>)
    | BeginPass(now: int)
    | Shrink
    | Unlinked
    | Tick(time: int)

  ghost predicate Finds(nodes: map<Id, Node>, key: Key, found: Option<Id>) {
    match found
    case Some(id) => id in nodes && nodes[id].key == key
    case None => forall id | id in nodes :: nodes[id].key != key
  }

  ghost predicate Unallocated(nodes: map<Id, Node>, room: Option<Id>) {
    room.Some? ==> room.value !in nodes
  }

  /** Having unlinked a file, an expiry pass leaves the lock again some time. */
  ghost predicate ResumeEnds(s: Shared, id: Id, now: int)
    requires QueueOk(s)
  {
    id in s.nodes && s.nodes[id].count > 0 && (EndUnlinkQueue(s, id); Ends(EndUnlink(s, id), now))
  }

  /** When an actor may run a section; a request keeps the node it holds until it lets go.  A pass that does not end
    * never completes its section. */
  ghost predicate Enabled(s: Shared, pc: Pc, e: Event)
    requires QueueOk(s)
  {
    match e
    case Lookup(key, _, found, room) => pc.Idle? && Finds(s.nodes, key, found) && Unallocated(s.nodes, room)
    case SecondTry(room) => pc.Retry? && Unallocated(s.nodes, room)
    case Warm(_, _) => pc.Holding?
    case Expired => pc.Holding?
    case BeginStore => pc.Holding?
    case EndStore(_, _, _) => pc.Committing?
    case Free(_) => pc.Holding?
    case Load(key, found, room) => pc.Idle? && Finds(s.nodes, key, found) && Unallocated(s.nodes, room)
    case BeginPass(now) => pc.Idle? && now <= s.clock && Ends(s, now)
    case Shrink => pc.Idle?
    case Unlinked => pc.Unlinking? && (pc.pass.Some? ==> ResumeEnds(s, pc.node, pc.pass.value))
    case Tick(time) => s.clock <= time
  }

  /** Where an actor stands after a pass left the lock. */
  function After(o: Outcome, pass: Option<int>): Pc {
    match o
    case Wait(_) => Idle
    case Unlink(id) => Unlinking(id, pass)
  }

  /** The node an actor refers to is there and counts it; a pass began in the past. */
  ghost predicate Fits(s: Shared, pc: Pc) {
    && QueueOk(s)
    && (pc.Idle? || pc.Retry? || (pc.node in s.nodes && s.nodes[pc.node].count > 0))
    && (pc.Unlinking? && pc.pass.Some? ==> pc.pass.value <= s.clock)
  }

  /** An expiry pass goes on after a file was unlinked. */
  ghost function Resume(s: Shared, id: Id, now: int): (Shared, Pc)
    requires QueueOk(s) && ResumeEnds(s, id, now)
  {
    EndUnlinkQueue(s, id);
    var (t, o) := Sweep(EndUnlink(s, id), now);
    (t, After(o, Some(now)))
  }

  ghost function Section(s: Shared, pc: Pc, e: Event): (Shared, Pc)
    requires Fits(s, pc) && Enabled(s, pc, e)
  {
    match e
    case Lookup(key, minUses, found, room) =>
      if found.Some? then (Found(s, found.value, minUses), Holding(found.value, false))
      else if room.Some? then (Insert(s, room.value, NewNode(key)), Holding(room.value, false))
      else (s, Retry(key))
    case SecondTry(room) =>
      if room.Some? then (Insert(s, room.value, NewNode(pc.key)), Holding(room.value, false)) else (s, Idle)
    case Warm(uniq, bodyStart) => (Put(s, pc.node, Warmed(s.nodes[pc.node], uniq, bodyStart)), pc)
    case Expired =>
      if s.nodes[pc.node].updating then (s, pc)
      else (Put(s, pc.node, s.nodes[pc.node].(updating := true)), Holding(pc.node, true))
    case BeginStore => (s, Committing(pc.node, pc.owner))
    case EndStore(renamed, uniq, bodyStart) =>
      (Put(s, pc.node, Stored(s.nodes[pc.node], renamed, uniq, bodyStart)), Idle)
    case Free(verdict) => (Release(s, pc.node, pc.owner, verdict), Idle)
    case Load(key, found, room) =>
      if found.Some? then (Touch(s, found.value), Idle)
      else if room.Some? then (Insert(s, room.value, LoadedNode(key)), Idle)
      else (s, Idle)
    case BeginPass(now) => var (t, o) := Sweep(s, now); (t, After(o, Some(now)))
    case Shrink => var (t, o) := Force(s); (t, After(o, None))
    case Unlinked => if pc.pass.None? then (EndUnlink(s, pc.node), Idle) else Resume(s, pc.node, pc.pass.value)
    case Tick(time) => (s.(clock := time), pc)
  }

  /** What a request that looks for a key is answered. */
  function AnswerTo(s: Shared, e: Event): Answer
    requires (e.Lookup? && (e.found.Some? ==> e.found.value in s.nodes)) || e.SecondTry?
  {
    if e.Lookup? && e.found.Some? then Used(s.nodes[e.found.value], e.minUses, s.clock).1
    else if e.room.Some? then Declined
    else Error
  }

  lemma EndUnlinkQueue(s: Shared, id: Id)
    requires QueueOk(s) && id in s.nodes && s.nodes[id].count > 0
    ensures QueueOk(EndUnlink(s, id))
  {
    RemoveKeepsQueue(s, id);
    PutKeepsQueue(s, id, s.nodes[id].(count := s.nodes[id].count - 1, deleting := false));
  }

  ghost function Step(sys: System, a: nat, e: Event): System
    requires a in sys.actors && Fits(sys.shared, sys.actors[a]) && Enabled(sys.shared, sys.actors[a], e)
  {
    var (s, pc) := Section(sys.shared, sys.actors[a], e);
    Moved(sys, s, a, pc)
  }

  // ---------------------------------------------------------------- every step keeps the invariant

  ghost predicate Passes(actors: Actors, clock: int) {
    forall a | a in actors && actors[a].Unlinking? && actors[a].pass.Some? :: actors[a].pass.value <= clock
  }

  ghost predicate Invariant(sys: System) {
    Inv(sys) && Passes(sys.actors, sys.shared.clock)
  }

  lemma InvariantFits(sys: System, a: nat)
    requires Invariant(sys) && a in sys.actors
    ensures Fits(sys.shared, sys.actors[a])
  {
    var pc := sys.actors[a];
    if !pc.Idle? && !pc.Retry? {
      assert a in Refs(sys.actors, pc.node);
    }
  }

  lemma UnusedIsNotDeleting(nodes: map<Id, Node>, actors: Actors, id: Id)
    requires Counted(nodes, actors) && Unlinkers(nodes, actors) && id in nodes && nodes[id].count == 0
    ensures !nodes[id].deleting
  {
    forall a | a in actors
      ensures !Unlinks(actors[a], id)
    {
      ZeroMeansUnused(nodes, actors, id, a);
    }
  }

  /** Deleting an unused node, whichever way. */
  lemma BeginUnlinkKeeps(sys: System, a: nat, id: Id, pass: Option<int>)
    requires Inv(sys) && a in sys.actors && sys.actors[a].Idle?
    requires id in sys.shared.nodes && sys.shared.nodes[id].count == 0
    ensures Inv(Moved(sys, BeginUnlink(sys.shared, id), a, Unlinking(id, pass)))
  {
    UnusedIsNotDeleting(sys.shared.nodes, sys.actors, id);
    var n := sys.shared.nodes[id].(count := sys.shared.nodes[id].count + 1, deleting := true);
    assert BeginUnlink(sys.shared, id) == Put(sys.shared, id, n);
    PutKeeps(sys, a, Unlinking(id, pass), id, n);
  }

  lemma {:induction false} SweepKeeps(sys: System, a: nat, now: int)
    requires Inv(sys) && Ends(sys.shared, now) && a in sys.actors && sys.actors[a].Idle?
    ensures var (t, o) := Sweep(sys.shared, now);
      Inv(Moved(sys, t, a, After(o, Some(now)))) && t.clock == sys.shared.clock && t.inactive == sys.shared.inactive
    decreases TurnsLeft(sys.shared, now)
  {
    var s := sys.shared;
    assert sys.actors[a := Idle] == sys.actors;
    if !LeavesLoop(s, now) {
      TurnBringsEnd(s, now);
      TurnKeeps(sys);
      SweepKeeps(sys.(shared := Turn(s)), a, now);
    } else if Leaving(s, now).1.Unlink? {
      BeginUnlinkKeeps(sys, a, Last(s), Some(now));
    }
  }

  lemma TurnKeeps(sys: System)
    requires Inv(sys) && sys.shared.queue != []
    ensures Inv(sys.(shared := Turn(sys.shared)))
  {
    if sys.shared.nodes[Last(sys.shared)].count == 0 {
      RemoveKeeps(sys, Last(sys.shared));
    } else {
      TouchKeeps(sys, Last(sys.shared));
    }
  }

  lemma ForceKeeps(sys: System, a: nat)
    requires Inv(sys) && a in sys.actors && sys.actors[a].Idle?
    ensures var (t, o) := Force(sys.shared);
      Inv(Moved(sys, t, a, After(o, None))) && t.clock == sys.shared.clock && t.inactive == sys.shared.inactive
  {
    var s := sys.shared;
    assert sys.actors[a := Idle] == sys.actors;
    VictimIsUnused(s, 0);
    var v := Victim(s, 0);
    if v.Some? {
      if s.nodes[v.value].present {
        BeginUnlinkKeeps(sys, a, v.value, None);
      } else {
        RemoveKeeps(sys, v.value);
      }
    }
  }

  lemma FoundKeeps(sys: System, a: nat, id: Id, minUses: nat)
    requires Inv(sys) && a in sys.actors && sys.actors[a].Idle? && id in sys.shared.nodes
    ensures Inv(Moved(sys, Found(sys.shared, id, minUses), a, Holding(id, false)))
  {
    var s := sys.shared;
    var n := Used(s.nodes[id], minUses, s.clock).0;
    PutKeeps(sys, a, Holding(id, false), id, n);
    TouchKeeps(Moved(sys, Put(s, id, n), a, Holding(id, false)), id);
  }

  lemma ReleaseKeeps(sys: System, a: nat, v: Verdict)
    requires Invariant(sys) && a in sys.actors && sys.actors[a].Holding?
    requires Fits(sys.shared, sys.actors[a])
    ensures Inv(Moved(sys, Release(sys.shared, sys.actors[a].node, sys.actors[a].owner, v), a, Idle))
  {
    var s, id := sys.shared, sys.actors[a].node;
    var n := Released(s.nodes[id], sys.actors[a].owner, v);
    if v.error == 0 && !n.present && n.count == 0 && v.minUses == 1 {
      DropKeeps(sys, a, id);
    } else {
      PutKeeps(sys, a, Idle, id, n);
    }
  }

  lemma EndUnlinkKeeps(sys: System, a: nat)
    requires Invariant(sys) && a in sys.actors && sys.actors[a].Unlinking?
    requires Fits(sys.shared, sys.actors[a])
    ensures Inv(Moved(sys, EndUnlink(sys.shared, sys.actors[a].node), a, Idle))
  {
    var s, id := sys.shared, sys.actors[a].node;
    if s.nodes[id].count == 1 {
      DropKeeps(sys, a, id);
    } else {
      PutKeeps(sys, a, Idle, id, s.nodes[id].(count := s.nodes[id].count - 1, deleting := false));
    }
  }

  lemma HolderStepKeeps(sys: System, a: nat, e: Event)
    requires Invariant(sys) && a in sys.actors && Fits(sys.shared, sys.actors[a])
    requires Enabled(sys.shared, sys.actors[a], e) && (e.Warm? || e.Expired? || e.BeginStore? || e.EndStore?)
    ensures Inv(Step(sys, a, e))
  {
    var s, pc := sys.shared, sys.actors[a];
    var n := s.nodes[pc.node];
    assert sys.actors[a := pc] == sys.actors;
    match e
    case Warm(uniq, bodyStart) =>
      PutKeeps(sys, a, pc, pc.node, Warmed(n, uniq, bodyStart));
    case Expired =>
      if !n.updating {
        PutKeeps(sys, a, Holding(pc.node, true), pc.node, n.(updating := true));
      }
    case BeginStore =>
      PutKeeps(sys, a, Committing(pc.node, pc.owner), pc.node, n);
      assert Put(s, pc.node, n) == s;
    case EndStore(renamed, uniq, bodyStart) => PutKeeps(sys, a, Idle, pc.node, Stored(n, renamed, uniq, bodyStart));
  }

  /** The actor moves between points that refer to no node. */
  lemma UnreferringMove(sys: System, a: nat, pc: Pc)
    requires Inv(sys) && a in sys.actors && (sys.actors[a].Idle? || sys.actors[a].Retry?) && (pc.Idle? || pc.Retry?)
    ensures Inv(Moved(sys, sys.shared, a, pc))
  {
    var actors' := sys.actors[a := pc];
    forall id | id in sys.shared.nodes
      ensures sys.shared.nodes[id].count == |Refs(actors', id)|
      ensures SomeOwner(sys.actors, id) ==> SomeOwner(actors', id)
      ensures SomeUnlinker(sys.actors, id) <==> SomeUnlinker(actors', id)
    {
      RefsMove(sys.actors, a, pc, id);
      if SomeOwner(sys.actors, id) {
        var b :| b in sys.actors && Owns(sys.actors[b], id);
        assert Owns(actors'[b], id);
      }
      if SomeUnlinker(sys.actors, id) {
        var b :| b in sys.actors && Unlinks(sys.actors[b], id);
        assert Unlinks(actors'[b], id);
      }
    }
  }

  lemma LookupKeeps(sys: System, a: nat, e: Event)
    requires Invariant(sys) && a in sys.actors && Fits(sys.shared, sys.actors[a])
    requires Enabled(sys.shared, sys.actors[a], e) && e.Lookup?
    ensures Inv(Step(sys, a, e))
  {
    if e.found.Some? {
      FoundKeeps(sys, a, e.found.value, e.minUses);
    } else if e.room.Some? {
      InsertKeeps(sys, a, Holding(e.room.value, false), e.room.value, NewNode(e.key));
    } else {
      UnreferringMove(sys, a, Retry(e.key));
    }
  }

  lemma SecondTryKeeps(sys: System, a: nat, room: Option<Id>)
    requires Invariant(sys) && a in sys.actors && Fits(sys.shared, sys.actors[a])
    requires Enabled(sys.shared, sys.actors[a], SecondTry(room))
    ensures Inv(Step(sys, a, SecondTry(room)))
  {
    if room.Some? {
      InsertKeeps(sys, a, Holding(room.value, false), room.value, NewNode(sys.actors[a].key));
    } else {
      UnreferringMove(sys, a, Idle);
    }
  }

  lemma LoadKeeps(sys: System, a: nat, e: Event)
    requires Invariant(sys) && a in sys.actors && Fits(sys.shared, sys.actors[a])
    requires Enabled(sys.shared, sys.actors[a], e) && e.Load?
    ensures Inv(Step(sys, a, e))
  {
    assert sys.actors[a := Idle] == sys.actors;
    if e.found.Some? {
      TouchKeeps(sys, e.found.value);
    } else if e.room.Some? {
      InsertKeeps(sys, a, Idle, e.room.value, LoadedNode(e.key));
    }
  }

  lemma EndUnlinkFrame(s: Shared, id: Id)
    requires id in s.nodes && s.nodes[id].count > 0
    ensures EndUnlink(s, id).clock == s.clock && EndUnlink(s, id).inactive == s.inactive
  {
  }

  lemma MovedTwice(sys: System, s: Shared, a: nat, t: Shared, pc: Pc)
    ensures Moved(Moved(sys, s, a, Idle), t, a, pc) == Moved(sys, t, a, pc)
  {
    assert sys.actors[a := Idle][a := pc] == sys.actors[a := pc];
  }

  lemma ResumeKeeps(sys: System, a: nat, id: Id, now: int)
    requires QueueOk(sys.shared) && ResumeEnds(sys.shared, id, now) && a in sys.actors
    requires Inv(Moved(sys, EndUnlink(sys.shared, id), a, Idle))
    ensures var (t, pc) := Resume(sys.shared, id, now); Inv(Moved(sys, t, a, pc))
  {
    EndUnlinkFrame(sys.shared, id);
    var s := EndUnlink(sys.shared, id);
    SweepKeeps(Moved(sys, s, a, Idle), a, now);
    var (t, o) := Sweep(s, now);
    MovedTwice(sys, s, a, t, After(o, Some(now)));
  }

  lemma UnlinkedKeeps(sys: System, a: nat)
    requires Invariant(sys) && a in sys.actors && Fits(sys.shared, sys.actors[a])
    requires Enabled(sys.shared, sys.actors[a], Unlinked)
    ensures Inv(Step(sys, a, Unlinked))
  {
    var pc := sys.actors[a];
    EndUnlinkKeeps(sys, a);
    if pc.pass.None? {
      assert Step(sys, a, Unlinked) == Moved(sys, EndUnlink(sys.shared, pc.node), a, Idle);
    } else {
      var (t, pc') := Resume(sys.shared, pc.node, pc.pass.value);
      assert Step(sys, a, Unlinked) == Moved(sys, t, a, pc');
      ResumeKeeps(sys, a, pc.node, pc.pass.value);
    }
  }

  lemma TickKeeps(sys: System, a: nat, time: int)
    requires Invariant(sys) && a in sys.actors && sys.shared.clock <= time
    ensures Inv(Moved(sys, sys.shared.(clock := time), a, sys.actors[a]))
  {
    assert sys.actors[a := sys.actors[a]] == sys.actors;
  }

  lemma StepKeepsInv(sys: System, a: nat, e: Event)
    requires Invariant(sys) && a in sys.actors && Fits(sys.shared, sys.actors[a])
    requires Enabled(sys.shared, sys.actors[a], e)
    ensures Inv(Step(sys, a, e))
  {
    match e
    case Lookup(_, _, _, _) => LookupKeeps(sys, a, e);
    case SecondTry(room) => SecondTryKeeps(sys, a, room);
    case Warm(_, _) => HolderStepKeeps(sys, a, e);
    case Expired => HolderStepKeeps(sys, a, e);
    case BeginStore => HolderStepKeeps(sys, a, e);
    case EndStore(_, _, _) => HolderStepKeeps(sys, a, e);
    case Free(verdict) => ReleaseKeeps(sys, a, verdict);
    case Load(_, _, _) => LoadKeeps(sys, a, e);
    case BeginPass(now) => SweepKeeps(sys, a, now);
    case Shrink => ForceKeeps(sys, a);
    case Unlinked => UnlinkedKeeps(sys, a);
    case Tick(time) => TickKeeps(sys, a, time);
  }

  /** The clock moves forward only, and a pass in progress began before. */
  lemma SectionPasses(s: Shared, pc: Pc, e: Event)
    requires Fits(s, pc) && Enabled(s, pc, e)
    ensures var (t, pc') := Section(s, pc, e);
      t.inactive == s.inactive && s.clock <= t.clock
      && (pc'.Unlinking? && pc'.pass.Some? ==> pc'.pass.value <= t.clock)
  {
    if e.BeginPass? {
      SweepFrame(s, e.now);
    } else if e.Unlinked? && pc.pass.Some? {
      EndUnlinkQueue(s, pc.node);
      SweepFrame(EndUnlink(s, pc.node), pc.pass.value);
    }
  }

  lemma {:induction false} SweepFrame(s: Shared, now: int)
    requires QueueOk(s) && Ends(s, now)
    ensures Sweep(s, now).0.clock == s.clock && Sweep(s, now).0.inactive == s.inactive
    decreases TurnsLeft(s, now)
  {
    if !LeavesLoop(s, now) {
      TurnBringsEnd(s, now);
      SweepFrame(Turn(s), now);
    }
  }

  /** Every locked section of every actor keeps the invariant. */
  lemma StepKeepsInvariant(sys: System, a: nat, e: Event)
    requires Invariant(sys) && a in sys.actors && Enabled(sys.shared, sys.actors[a], e)
    ensures Fits(sys.shared, sys.actors[a]) && Invariant(Step(sys, a, e))
  {
    InvariantFits(sys, a);
    StepKeepsInv(sys, a, e);
    SectionPasses(sys.shared, sys.actors[a], e);
  }

  // ---------------------------------------------------------------- whole runs

  datatype Move = Move(actor: nat, event: Event)

  ghost predicate Init(sys: System) {
    && sys.shared.nodes == map[] && sys.shared.queue == []
    && forall a | a in sys.actors :: sys.actors[a] == Idle
  }

  ghost predicate StepAt(states: seq<System>, moves: seq<Move>, i: nat)
    requires i < |moves| && i + 1 < |states|
  {
    var sys, a := states[i], moves[i].actor;
    && a in sys.actors && Fits(sys.shared, sys.actors[a]) && Enabled(sys.shared, sys.actors[a], moves[i].event)
    && states[i + 1] == Step(sys, a, moves[i].event)
  }

  ghost predicate Run(states: seq<System>, moves: seq<Move>) {
    && |states| == |moves| + 1 && Init(states[0])
    && forall i: nat | i < |moves| :: StepAt(states, moves, i)
  }

  lemma InitInvariant(sys: System)
    requires Init(sys)
    ensures Invariant(sys)
  {
  }

  lemma {:induction false} RunKeepsInvariant(states: seq<System>, moves: seq<Move>, i: nat)
    requires Run(states, moves) && i < |states|
    ensures Invariant(states[i])
  {
    if i == 0 {
      InitInvariant(states[0]);
    } else {
      RunKeepsInvariant(states, moves, i - 1);
      assert StepAt(states, moves, i - 1);
      StepKeepsInvariant(states[i - 1], moves[i - 1].actor, moves[i - 1].event);
    }
  }

  ghost function Holders(actors: Actors, id: Id): set<nat> {
    set a | a in actors && (actors[a].Holding? || actors[a].Committing?) && actors[a].node == id
  }

  lemma RefsAreHolders(nodes: map<Id, Node>, actors: Actors, id: Id)
    requires Unlinkers(nodes, actors) && id in nodes
    ensures |Refs(actors, id)| == |Holders(actors, id)| + if nodes[id].deleting then 1 else 0
  {
    if nodes[id].deleting {
      var b :| b in actors && Unlinks(actors[b], id);
      assert forall a | a in actors && Unlinks(actors[a], id) :: a == b;
      assert Refs(actors, id) == Holders(actors, id) + {b};
    } else {
      assert forall a | a in actors :: !Unlinks(actors[a], id);
      assert Refs(actors, id) == Holders(actors, id);
    }
  }

  /** At any time a node counts the requests that hold it, plus one while its file is being unlinked, and
    * everything an actor holds is still in the tree and, once, in the queue. */
  lemma CountIsHoldersAndUnlinker(states: seq<System>, moves: seq<Move>, i: nat, id: Id)
    requires Run(states, moves) && i < |states|
    ensures var s, actors := states[i].shared, states[i].actors;
      && (id in s.nodes <==> id in s.queue) && Distinct(s.queue)
      && (id in s.nodes ==> s.nodes[id].count == |Holders(actors, id)| + if s.nodes[id].deleting then 1 else 0)
      && (forall a | a in actors && RefersTo(actors[a], id) :: id in s.nodes)
  {
    RunKeepsInvariant(states, moves, i);
    if id in states[i].shared.nodes {
      RefsAreHolders(states[i].shared.nodes, states[i].actors, id);
    }
  }

  /** The twenty bits of `count` suffice while there are fewer than 2^20 actors. */
  lemma CountIsBounded(states: seq<System>, moves: seq<Move>, i: nat, id: Id)
    requires Run(states, moves) && i < |states| && id in states[i].shared.nodes
    ensures states[i].shared.nodes[id].count <= |states[i].actors|
  {
    RunKeepsInvariant(states, moves, i);
    SubsetSize(Refs(states[i].actors, id), states[i].actors.Keys);
  }

  /** A node leaves tree and queue only when nobody but the acting actor referred to it, and nobody does after. */
  lemma NodeLeavesUnused(states: seq<System>, moves: seq<Move>, i: nat, id: Id)
    requires Run(states, moves) && i < |moves|
    requires id in states[i].shared.nodes && id !in states[i + 1].shared.nodes
    ensures id !in states[i + 1].shared.queue
    ensures forall a | a in states[i].actors && a != moves[i].actor :: !RefersTo(states[i].actors[a], id)
    ensures var actors := states[i + 1].actors; forall a | a in actors :: !RefersTo(actors[a], id)
  {
    RunKeepsInvariant(states, moves, i + 1);
    assert StepAt(states, moves, i);
    forall a | a in states[i].actors && a != moves[i].actor
      ensures states[i + 1].actors[a] == states[i].actors[a]
    {
    }
  }

  /** A node marked as being updated has an owner that still holds it and whose release ends the update. */
  lemma UpdateHasOwner(states: seq<System>, moves: seq<Move>, i: nat, id: Id, v: Verdict) returns (a: nat)
    requires Run(states, moves) && i < |states| && id in states[i].shared.nodes
    requires states[i].shared.nodes[id].updating
    ensures a in states[i].actors && Owns(states[i].actors[a], id)
    ensures Fits(states[i].shared, states[i].actors[a])
    ensures states[i].actors[a].Holding? ==>
      var t := Step(states[i], a, Free(v)).shared; id !in t.nodes || !t.nodes[id].updating
    ensures states[i].actors[a].Committing? ==>
      !Step(states[i], a, EndStore(true, 0, 0)).shared.nodes[id].updating
  {
    RunKeepsInvariant(states, moves, i);
    a :| a in states[i].actors && Owns(states[i].actors[a], id);
    InvariantFits(states[i], a);
  }

  // ---------------------------------------------------------------- passes that cannot end

  /** With inactive > 0 no pass is ever kept from leaving the lock, when it starts or after it unlinked a file. */
  lemma PassesEnd(states: seq<System>, moves: seq<Move>, i: nat, a: nat)
    requires Run(states, moves) && i < |states| && a in states[i].actors && states[i].shared.inactive > 0
    ensures QueueOk(states[i].shared)
    ensures var s, pc := states[i].shared, states[i].actors[a];
      && (pc.Idle? ==> forall now | now <= s.clock :: Enabled(s, pc, BeginPass(now)))
      && (pc.Unlinking? ==> Enabled(s, pc, Unlinked))
  {
    RunKeepsInvariant(states, moves, i);
    InvariantFits(states[i], a);
    var s, pc := states[i].shared, states[i].actors[a];
    forall now | now <= s.clock
      ensures Ends(s, now)
    {
      PassEndsIff(s, now);
    }
    if pc.Unlinking? && pc.pass.Some? {
      EndUnlinkFrame(s, pc.node);
      EndUnlinkQueue(s, pc.node);
      PassEndsIff(EndUnlink(s, pc.node), pc.pass.value);
    }
  }

  /** A zone with inactive=0 before its first request, and the request's lookup. */
  ghost function EmptyZone(clock: int): System {
    System(Shared(map[], [], clock, 0), map[0 := Idle, 1 := Idle])
  }

  /** With inactive=0, which the configuration accepts, a pass started while the very first request holds its node
    * never leaves the lock. */
  lemma InactiveZeroSpins(key: Key, clock: int)
    ensures var sys, e := EmptyZone(clock), Lookup(key, 1, None, Some(7));
      && Init(sys) && Fits(sys.shared, Idle) && Enabled(sys.shared, Idle, e)
      && var s := Step(sys, 0, e).shared; QueueOk(s) && Restless(s, clock) && !Ends(s, clock)
  {
    var sys, e := EmptyZone(clock), Lookup(key, 1, None, Some(7));
    InitInvariant(sys);
    StepKeepsInvariant(sys, 0, e);
    var s := Step(sys, 0, e).shared;
    assert 7 in s.nodes && s.nodes[7].count > 0;
    PassEndsIff(s, clock);
  }

  // ---------------------------------------------------------------- what an expiry pass achieves

  /** A node and what a pass that went by left of it. */
  ghost predicate Passed(n: Node, n': Node, now: int, later: int) {
    n' == n || (n.expire <= now && n.count > 0 && !n.deleting && n' == n.(expire := later))
  }

  ghost predicate Swept(s: Shared, t: Shared, o: Outcome, now: int) {
    && (forall id | id in s.nodes && id !in t.nodes ::
          s.nodes[id].expire <= now && s.nodes[id].count == 0 && !s.nodes[id].present)
    && (forall id | id in t.nodes && o != Unlink(id) ::
          id in s.nodes && Passed(s.nodes[id], t.nodes[id], now, s.clock + s.inactive))
    && (o.Unlink? ==>
          && o.node in s.nodes && s.nodes[o.node].expire <= now && s.nodes[o.node].count == 0
          && s.nodes[o.node].present && o.node in t.nodes
          && t.nodes[o.node] == s.nodes[o.node].(count := 1, deleting := true))
  }

  lemma SweptAfterRemove(s: Shared, id: Id, t: Shared, o: Outcome, now: int)
    requires id in s.nodes && s.nodes[id].expire <= now && s.nodes[id].count == 0 && !s.nodes[id].present
    requires Swept(Remove(s, id), t, o, now)
    ensures Swept(s, t, o, now)
  {
    var r := Remove(s, id);
    assert forall x | x in r.nodes :: x in s.nodes && r.nodes[x] == s.nodes[x];
  }

  lemma SweptAfterTouch(s: Shared, id: Id, t: Shared, o: Outcome, now: int)
    requires id in s.nodes && s.nodes[id].expire <= now && s.nodes[id].count > 0 && !s.nodes[id].deleting
    requires Swept(Touch(s, id), t, o, now)
    ensures Swept(s, t, o, now)
  {
    var r := Touch(s, id);
    assert forall x | x in s.nodes && x != id :: r.nodes[x] == s.nodes[x];
    assert r.nodes[id] == s.nodes[id].(expire := s.clock + s.inactive) && id in t.nodes;
  }

  ghost predicate AllLater(s: Shared, time: int) {
    forall id | id in s.nodes :: s.nodes[id].expire >= time
  }

  /** No expired node is left, and none expires before the pass asks to be called again; or the oldest node is
    * being deleted by somebody else. */
  ghost predicate Thorough(t: Shared, o: Outcome, now: int) {
    o.Wait? ==>
      && 1 <= o.seconds <= 10
      && (AllLater(t, now + o.seconds)
          || (o.seconds == 1 && t.queue != [] && Last(t) in t.nodes && t.nodes[Last(t)].deleting))
  }

  lemma StoppedPassIsThorough(s: Shared, now: int)
    requires QueueOk(s) && LeavesLoop(s, now) && Ends(s, now)
    ensures var (t, o) := Sweep(s, now); Swept(s, t, o, now) && Thorough(t, o, now)
  {
    forall id | id in s.nodes
      ensures s.queue != [] && Last(s) in s.nodes && s.nodes[id].expire >= s.nodes[Last(s)].expire
    {
      LastIsOldest(s, id);
    }
  }

  /** A pass touches expired nodes only, removes unused ones without a file, moves used ones to the head, and what
    * it leaves behind is thoroughly swept. */
  lemma {:induction false} SweepIsThorough(s: Shared, now: int)
    requires QueueOk(s) && Ends(s, now)
    ensures var (t, o) := Sweep(s, now); Swept(s, t, o, now) && Thorough(t, o, now)
    decreases TurnsLeft(s, now)
  {
    if LeavesLoop(s, now) {
      StoppedPassIsThorough(s, now);
    } else {
      TurnBringsEnd(s, now);
      SweepIsThorough(Turn(s), now);
      var (t, o) := Sweep(s, now);
      if s.nodes[Last(s)].count == 0 {
        SweptAfterRemove(s, Last(s), t, o, now);
      } else {
        SweptAfterTouch(s, Last(s), t, o, now);
      }
    }
  }

  // ---------------------------------------------------------------- the code

  /** The locked sections as they update the zone in place. */
  class Zone {
    var nodes: map<Id, Node>
    var queue: seq<Id>
    var clock: int
    const inactive: nat

    constructor (inactive: nat)
      ensures S() == Shared(map[], [], 0, inactive)
    {
      nodes, queue, clock := map[], [], 0;
      this.inactive := inactive;
    }

    ghost function S(): Shared
      reads this
    {
      Shared(nodes, queue, clock, inactive)
    }

    method Search(key: Key) returns (found: Option<Id>)
      ensures Finds(nodes, key, found)
    {
      if id :| id in nodes && nodes[id].key == key {
        found := Some(id);
      } else {
        found := None;
      }
    }

    /** A node for the key is there. */
    method Reuse(id: Id, minUses: nat) returns (answer: Answer)
      requires id in nodes
      modifies this
      ensures S() == Found(old(S()), id, minUses) && answer == Used(old(nodes[id]), minUses, old(clock)).1
    {
      var n := nodes[id];
      n := n.(uses := Use(n.uses));
      n := n.(count := n.count + 1);
      if n.info.error != 0 {
        if n.info.validSec < clock {
          n := n.(present := false, info := BLANK);
          answer := Declined;
        } else {
          answer := Ok;
        }
      } else if n.present || n.uses >= minUses {
        answer := Ok;
      } else {
        answer := Again;
      }
      n := n.(expire := clock + inactive);
      nodes, queue := nodes[id := n], [id] + Without(queue, id);
      assert nodes == Found(old(S()), id, minUses).nodes;
    }

    /** ngx_http_file_cache_exists; without memory for a node it unlocks to expire others. */
    method Exists(key: Key, minUses: nat, room: Option<Id>) returns (answer: Answer, pc: Pc, ghost found: Option<Id>)
      requires Fits(S(), Idle) && Unallocated(nodes, room)
      modifies this
      ensures Finds(old(nodes), key, found)
      ensures (S(), pc) == Section(old(S()), Idle, Lookup(key, minUses, found, room))
      ensures answer == AnswerTo(old(S()), Lookup(key, minUses, found, room))
    {
      var f := Search(key);
      found := f;
      if f.Some? {
        answer := Reuse(f.value, minUses);
        pc := Holding(f.value, false);
      } else if room.Some? {
        nodes := nodes[room.value := NewNode(key).(expire := clock + inactive)];
        queue := [room.value] + queue;
        answer, pc := Declined, Holding(room.value, false);
      } else {
        answer, pc := Error, Retry(key);
      }
    }

    /** ngx_http_file_cache_exists after other nodes were expired to make room: it does not look again. */
    method ExistsAgain(key: Key, room: Option<Id>) returns (answer: Answer, pc: Pc)
      requires Fits(S(), Retry(key)) && Unallocated(nodes, room)
      modifies this
      ensures (S(), pc) == Section(old(S()), Retry(key), SecondTry(room))
      ensures answer == AnswerTo(old(S()), SecondTry(room))
    {
      if room.None? {
        return Error, Idle;
      }
      nodes := nodes[room.value := NewNode(key).(expire := clock + inactive)];
      queue := [room.value] + queue;
      return Declined, Holding(room.value, false);
    }

    /** ngx_http_file_cache_read while the loader has not finished */
    method ReadCold(pc: Pc, uniq: nat, bodyStart: nat)
      requires Fits(S(), pc) && pc.Holding?
      modifies this`nodes
      ensures (S(), pc) == Section(old(S()), pc, Warm(uniq, bodyStart))
    {
      var n := nodes[pc.node];
      if !n.present {
        n := n.(uses := 1, present := true);
        n := n.(info := n.info.(uniq := uniq, bodyStart := bodyStart));
      }
      nodes := nodes[pc.node := n];
    }

    /** The stale branch of ngx_http_file_cache_read; true when the caller becomes the updater. */
    method MarkUpdating(pc: Pc) returns (mine: bool, pc': Pc)
      requires Fits(S(), pc) && pc.Holding?
      modifies this`nodes
      ensures (S(), pc') == Section(old(S()), pc, Expired)
      ensures mine <==> !old(nodes[pc.node]).updating
    {
      if nodes[pc.node].updating {
        mine, pc' := false, pc;
      } else {
        nodes := nodes[pc.node := nodes[pc.node].(updating := true)];
        mine, pc' := true, Holding(pc.node, true);
      }
    }

    /** ngx_http_file_cache_update after the rename. */
    method Update(pc: Pc, renamed: bool, uniq: nat, bodyStart: nat) returns (pc': Pc)
      requires Fits(S(), pc) && pc.Committing?
      modifies this`nodes
      ensures (S(), pc') == Section(old(S()), pc, EndStore(renamed, uniq, bodyStart))
    {
      var n := nodes[pc.node];
      n := n.(count := n.count - 1);
      n := n.(info := n.info.(uniq := uniq, bodyStart := bodyStart));
      if renamed {
        n := n.(present := true);
      }
      nodes := nodes[pc.node := n.(updating := false)];
      pc' := Idle;
    }

    /** ngx_http_file_cache_free */
    method FreeNode(pc: Pc, v: Verdict) returns (pc': Pc)
      requires Fits(S(), pc) && pc.Holding?
      modifies this
      ensures (S(), pc') == Section(old(S()), pc, Free(v))
    {
      var n := nodes[pc.node];
      n := n.(count := n.count - 1);
      if pc.owner {
        n := n.(updating := false);
      }
      if v.error != 0 {
        n := n.(info := n.info.(error := v.error));
        if v.validSec != 0 {
          n := n.(info := n.info.(validSec := v.validSec, validMsec := v.validMsec));
        }
        nodes := nodes[pc.node := n];
      } else if !n.present && n.count == 0 && v.minUses == 1 {
        nodes, queue := nodes - {pc.node}, Without(queue, pc.node);
      } else {
        nodes := nodes[pc.node := n];
      }
      pc' := Idle;
    }

    /** ngx_http_file_cache_delete until it unlocks or returns. */
    method DeleteNode(id: Id) returns (unlink: bool)
      requires id in nodes
      modifies this
      ensures unlink == old(nodes[id]).present
      ensures S() == if unlink then BeginUnlink(old(S()), id) else Remove(old(S()), id)
    {
      unlink := nodes[id].present;
      if unlink {
        nodes := nodes[id := nodes[id].(count := nodes[id].count + 1, deleting := true)];
      } else {
        nodes, queue := nodes - {id}, Without(queue, id);
      }
    }

    /** ... and with the lock taken again. */
    method FinishDelete(id: Id)
      requires QueueOk(S()) && id in nodes && nodes[id].count > 0
      modifies this
      ensures S() == EndUnlink(old(S()), id) && QueueOk(S())
    {
      EndUnlinkQueue(S(), id);
      var n := nodes[id].(count := nodes[id].count - 1, deleting := false);
      if n.count == 0 {
        nodes, queue := nodes - {id}, Without(queue, id);
      } else {
        nodes := nodes[id := n];
      }
    }

    /** One turn of the loop of ngx_http_file_cache_expire, and how it leaves the lock if it does. */
    method ExpireTurn(now: int) returns (leaving: Option<Outcome>)
      requires QueueOk(S())
      modifies this
      ensures leaving.Some? <==> LeavesLoop(old(S()), now)
      ensures leaving.Some? ==> (S(), leaving.value) == Leaving(old(S()), now)
      ensures leaving.None? ==> S() == Turn(old(S()))
    {
      if queue == [] {
        return Some(Wait(10));
      }
      var id := queue[|queue| - 1];
      var n := nodes[id];
      var wait := n.expire - now;
      if wait > 0 {
        return Some(Wait(if wait > 10 then 10 else wait));
      }
      if n.count == 0 {
        var unlink := DeleteNode(id);
        if unlink {
          return Some(Unlink(id));
        }
      } else if n.deleting {
        return Some(Wait(1));
      } else {
        nodes, queue := nodes[id := n.(expire := clock + inactive)], [id] + Without(queue, id);
      }
      leaving := None;
    }

    /** The loop of ngx_http_file_cache_expire until it unlocks. */
    method ExpireLoop(now: int) returns (o: Outcome)
      requires QueueOk(S()) && Ends(S(), now)
      modifies this
      ensures (S(), o) == Sweep(old(S()), now)
    {
      ghost var goal := Sweep(S(), now);
      while true
        invariant QueueOk(S()) && Ends(S(), now) && Sweep(S(), now) == goal
        decreases TurnsLeft(S(), now)
      {
        ghost var s := S();
        var leaving := ExpireTurn(now);
        if leaving.Some? {
          return leaving.value;
        }
        TurnBringsEnd(s, now);
      }
    }

    /** The pass goes on after the file of node id was unlinked. */
    method ExpireOn(now: int, id: Id) returns (o: Outcome)
      requires QueueOk(S()) && ResumeEnds(S(), id, now)
      modifies this
      ensures (S(), After(o, Some(now))) == Resume(old(S()), id, now)
    {
      EndUnlinkFrame(S(), id);
      FinishDelete(id);
      o := ExpireLoop(now);
    }

    /** The least recently used node in no use is deleted. */
    method DeleteVictim(id: Id) returns (o: Outcome)
      requires QueueOk(S()) && Victim(S(), 0) == Some(id) && id in nodes
      modifies this
      ensures (S(), o) == Force(old(S()))
    {
      ForceIs(S());
      var unlink := DeleteNode(id);
      o := if unlink then Unlink(id) else Wait(0);
    }

    /** ngx_http_file_cache_forced_expire until it unlocks. */
    method ForcedExpire() returns (o: Outcome)
      requires QueueOk(S())
      modifies this
      ensures (S(), o) == Force(old(S()))
    {
      ghost var s, goal := S(), Force(S());
      ghost var victim := Victim(s, 0);
      ForceIs(s);
      var tries, k := 20, 0;
      while k < |queue|
        invariant 0 <= k <= |queue| && tries == TRIES - k && tries > 0
        invariant S() == s && Victim(s, k) == victim
      {
        var id := queue[|queue| - 1 - k];
        assert id in s.queue;
        if nodes[id].count == 0 {
          assert victim == Some(id);
          o := DeleteVictim(id);
          return;
        }
        tries := tries - 1;
        k := k + 1;
        if tries == 0 {
          return Wait(1);
        }
      }
      return Wait(10);
    }

    /** ngx_http_file_cache_add */
    method Add(key: Key, room: Option<Id>) returns (ok: bool, ghost found: Option<Id>)
      requires Fits(S(), Idle) && Unallocated(nodes, room)
      modifies this
      ensures Finds(old(nodes), key, found) && (ok <==> found.Some? || room.Some?)
      ensures (S(), Idle) == Section(old(S()), Idle, Load(key, found, room))
    {
      var f := Search(key);
      found := f;
      var id;
      if f.Some? {
        id := f.value;
        queue := Without(queue, id);
      } else if room.Some? {
        id := room.value;
        nodes := nodes[id := LoadedNode(key)];
      } else {
        return false, found;
      }
      nodes := nodes[id := nodes[id].(expire := clock + inactive)];
      queue := [id] + queue;
      ok := true;
      assert nodes == Section(old(S()), Idle, Load(key, found, room)).0.nodes;
    }
  }
}
