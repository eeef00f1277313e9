/** What failures do to a peer over whole runs (src/http/ngx_http_upstream_round_robin.c): requests get peers and give
  * them back in any order, and one that has failed too often is left alone for a while. */
module PeerFailures {
  import opened RoundRobin

  // ---------------------------------------------------------------- runs

  /** One call for one request: it gets a peer, or gives back its current one. */
  datatype Event =
    | Gets(r: Req, now: int, log: seq<Look>, rc: Rc, given: Req)
    | Frees(r: Req, state: State, now: int)

  ghost predicate Step(peers: Peers, e: Event, peers': Peers) {
    && Bounded(peers) && e.r.current < |peers|
    && match e
       case Gets(r, now, log, rc, given) =>
         if r.tries < |peers| then GivesInRing(r, peers, now, rc, given, peers')
         else r.tries == |peers| && GivesByWeight(r, peers, now, log, rc, given, peers')
       case Frees(r, state, now) =>
         peers' == if state == Failed then peers[r.current := Blamed(peers[r.current], now)] else peers
  }

  ghost predicate Run(states: seq<Peers>, events: seq<Event>) {
    |states| == |events| + 1 && forall i: nat | i < |events| :: StepAt(states, events, i)
  }

  ghost predicate StepAt(states: seq<Peers>, events: seq<Event>, i: nat)
    requires i < |events| && i + 1 < |states|
  {
    Step(states[i], events[i], states[i + 1])
  }

  predicate Blames(e: Event, k: nat) {
    e.Frees? && e.state == Failed && e.r.current == k
  }

  /** How often the peer failed in the first i events. */
  function Failures(events: seq<Event>, i: nat, k: nat): nat
    requires i <= |events|
  {
    if i == 0 then 0 else Failures(events, i - 1, k) + if Blames(events[i - 1], k) then 1 else 0
  }

  /** When it last failed, or `start`. */
  function LastFailure(events: seq<Event>, i: nat, k: nat, start: int): int
    requires i <= |events|
  {
    if i == 0 then start
    else if Blames(events[i - 1], k) then events[i - 1].now
    else LastFailure(events, i - 1, k, start)
  }

  // ---------------------------------------------------------------- what a request changes

  /** The peers differ at most in their weights. */
  ghost predicate SameRecord(p: Peer, q: Peer) {
    q.down == p.down && q.maxFails == p.maxFails && q.failTimeout == p.failTimeout && q.accessed == p.accessed && q.fails == p.fails
  }

  ghost predicate SameRecords(peers: Peers, peers': Peers) {
    |peers'| == |peers| && forall k | 0 <= k < |peers| :: SameRecord(peers[k], peers'[k])
  }

  lemma RefreshRecords(peers: Peers)
    ensures SameRecords(peers, Refresh(peers))
  {
    RefreshIs(peers);
  }

  lemma PassOverRecords(r: Req, peers: Peers, now: int)
    requires r.current < |peers|
    ensures SameRecords(peers, PassOver(r, peers, now).1)
  {
  }

  lemma {:induction false} PassedRecords(r: Req, peers: Peers, now: int, x: nat)
    requires r.current < |peers| && x <= |peers|
    ensures SameRecords(peers, Passed(r, peers, now, x).1)
    decreases x
  {
    if x > 0 {
      PassedRecords(r, peers, now, x - 1);
      var (q, ps) := Passed(r, peers, now, x - 1);
      PassOverRecords(q, ps, now);
    }
  }

  lemma NextRecords(look: Look, now: int)
    requires look.n < |look.peers|
    ensures SameRecords(look.peers, look.Next(now).1)
  {
    RefreshRecords(look.peers);
    PassOverRecords(look.Given(), Refresh(look.peers), now);
  }

  lemma {:induction false} LookRecords(now: int, log: seq<Look>, k: nat)
    requires Refusals(now, log) && k < |log|
    ensures SameRecords(log[0].peers, log[k].peers) && log[k].n < |log[k].peers|
    decreases k
  {
    assert RefusedBefore(now, log, k);
    if k > 0 {
      LookRecords(now, log, k - 1);
      NextRecords(log[k - 1], now);
    }
  }

  /** The record of the peer that is given, which forgets failures that are over. */
  ghost predicate Given(p: Peer, now: int, q: Peer) {
    if p.maxFails > 0 && p.fails >= p.maxFails then now - p.accessed > p.failTimeout && SameRecord(p.(fails := 0), q)
    else SameRecord(p, q)
  }

  ghost predicate Served(peers: Peers, k: nat, now: int, peers': Peers) {
    && |peers'| == |peers| && k < |peers| && !peers[k].down && Given(peers[k], now, peers'[k])
    && forall i | 0 <= i < |peers| && i != k :: SameRecord(peers[i], peers'[i])
  }

  /** Giving a peer that will do. */
  lemma TakenServes(peers: Peers, mid: Peers, k: nat, now: int)
    requires SameRecords(peers, mid) && k < |mid| && Fit(mid[k], now)
    ensures Served(peers, k, now, Spend(mid[k := Examine(mid[k], now).0], k))
  {
  }

  lemma RingServes(r: Req, peers: Peers, now: int, rc: Rc, given: Req, peers': Peers)
    requires r.current < |peers| && r.tries <= |peers| && GivesInRing(r, peers, now, rc, given, peers')
    ensures rc == Ok || rc == Busy
    ensures rc == Ok ==> Served(peers, given.current, now, peers')
  {
    var x := FirstInRing(r, peers, now, 0);
    PassedRecords(r, peers, now, x);
    if x < r.tries {
      var (q, ps) := Passed(r, peers, now, x);
      TakenServes(peers, ps, q.current, now);
    }
  }

  lemma WeightServes(r: Req, peers: Peers, now: int, log: seq<Look>, rc: Rc, given: Req, peers': Peers)
    requires GivesByWeight(r, peers, now, log, rc, given, peers')
    ensures rc == Ok || rc == Busy
    ensures rc == Ok ==> Served(peers, given.current, now, peers')
  {
    LooksAreRefusals(r, peers, now, log);
    var last := log[|log| - 1];
    LookRecords(now, log, |log| - 1);
    RefreshRecords(last.peers);
    if last.Will(now) {
      TakenServes(peers, Refresh(last.peers), last.n, now);
    }
  }

  lemma StepServes(peers: Peers, e: Event, peers': Peers)
    requires Step(peers, e, peers') && e.Gets? && e.rc == Ok
    ensures Served(peers, e.given.current, e.now, peers')
  {
    if e.r.tries < |peers| {
      RingServes(e.r, peers, e.now, e.rc, e.given, peers');
    } else {
      WeightServes(e.r, peers, e.now, e.log, e.rc, e.given, peers');
    }
  }

  // ---------------------------------------------------------------- failures are counted

  /** No request was refused, which forgets all failures, and nobody was given the peer after its time was over. */
  ghost predicate Undisturbed(events: seq<Event>, i: nat, k: nat, start: int, timeout: int)
    requires i <= |events|
  {
    forall j: nat | j < i && events[j].Gets? ::
      events[j].rc == Ok && (events[j].given.current == k ==> events[j].now - LastFailure(events, j, k, start) <= timeout)
  }

  /** Then its failures add up, whatever is given and given back meanwhile. */
  lemma {:induction false} FailuresAddUp(states: seq<Peers>, events: seq<Event>, i: nat, k: nat)
    requires Run(states, events) && i <= |events| && k < |states[0]|
    requires Undisturbed(events, i, k, states[0][k].accessed, states[0][k].failTimeout)
    ensures k < |states[i]| && var p, q := states[0][k], states[i][k];
      && q.fails == p.fails + Failures(events, i, k) && q.accessed == LastFailure(events, i, k, p.accessed)
      && q.down == p.down && q.maxFails == p.maxFails && q.failTimeout == p.failTimeout
    decreases i
  {
    if i > 0 {
      FailuresAddUp(states, events, i - 1, k);
      assert StepAt(states, events, i - 1);
      if events[i - 1].Gets? {
        StepServes(states[i - 1], events[i - 1], states[i]);
      }
    }
  }

  /** So a peer is given only while it has failed less than max_fails times, or when fail_timeout has passed since it
    * last failed; and in this case its failures are forgotten. */
  lemma FailingPeerRests(states: seq<Peers>, events: seq<Event>, i: nat, k: nat)
    requires Run(states, events) && i < |events| && k < |states[0]|
    requires Undisturbed(events, i, k, states[0][k].accessed, states[0][k].failTimeout)
    requires events[i].Gets? && events[i].rc == Ok && events[i].given.current == k
    ensures var p, e := states[0][k], events[i];
      var failures, last := p.fails + Failures(events, i, k), LastFailure(events, i, k, p.accessed);
      && !p.down && k !in e.r.tried
      && (p.maxFails == 0 || failures < p.maxFails || e.now - last > p.failTimeout)
      && k < |states[i + 1]| && states[i + 1][k].fails == if p.maxFails == 0 || failures < p.maxFails then failures else 0
  {
    FailuresAddUp(states, events, i, k);
    assert StepAt(states, events, i);
    StepServes(states[i], events[i], states[i + 1]);
    var e := events[i];
    if e.r.tries < |states[i]| {
      RingIsSearched(e.r, states[i], e.now, e.rc, e.given, states[i + 1]);
    } else {
      LooksInVain(e.r, states[i], e.now, e.log, e.rc, e.given, states[i + 1]);
    }
  }

  /** A later try is refused only if every peer of the ring had been tried, is down, or has failed that often lately. */
  lemma RefusedForFailures(states: seq<Peers>, events: seq<Event>, i: nat, k: nat)
    requires Run(states, events) && i < |events| && k < |states[0]|
    requires Undisturbed(events, i, k, states[0][k].accessed, states[0][k].failTimeout)
    requires events[i].Gets? && events[i].rc == Busy && events[i].r.tries < |states[i]| && events[i].r.current < |states[i]|
    requires exists y | 0 <= y < events[i].r.tries :: k == Ring(events[i].r.current, y, |states[i]|)
    ensures var p, e := states[0][k], events[i];
      || k in e.r.tried || p.down
      || (0 < p.maxFails <= p.fails + Failures(events, i, k)
          && e.now - LastFailure(events, i, k, p.accessed) <= p.failTimeout)
  {
    FailuresAddUp(states, events, i, k);
    assert StepAt(states, events, i);
    var e := events[i];
    RingIsSearched(e.r, states[i], e.now, e.rc, e.given, states[i + 1]);
    assert !Candidate(e.r, states[i], k, e.now);
  }
}
