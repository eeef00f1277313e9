/** Weighted round robin over upstream peers (src/http/ngx_http_upstream_round_robin.c), for a group of several
  * peers without backup servers, and the retries of src/http/ngx_http_upstream.c.
  *
  * The peers are shared by all requests; a request keeps its remaining tries, the set of peers it has tried (the
  * `tried` bitmap) and its current peer.
  */
module RoundRobin {
  import opened Bytes

  /** ngx_http_upstream_rr_peer_t */
  datatype Peer = Peer(
    weight: int, currentWeight: int, fails: nat, accessed: int, maxFails: nat, failTimeout: int, down: bool)

  type Peers = seq<Peer>

  /** What configuration and every operation keep: no current weight exceeds the weight. */
  ghost predicate Bounded(peers: Peers) {
    forall i | 0 <= i < |peers| :: 0 <= peers[i].weight && peers[i].currentWeight <= peers[i].weight
  }

  predicate Positive(peers: Peers, i: nat)
    requires i < |peers|
  {
    peers[i].currentWeight > 0
  }

  /** The ratio test: p has more of its weight left than q.  Neither division is by zero. */
  predicate Ahead(p: Peer, q: Peer)
    requires q.currentWeight > 0 && q.weight > 0
  {
    p.currentWeight * 1000 / q.currentWeight > p.weight * 1000 / q.weight
  }

  // ---------------------------------------------------------------- the choice

  /** The first peer from i on with a positive current weight, or the number of peers. */
  function NextPositive(peers: Peers, i: nat): (j: nat)
    requires i <= |peers|
    ensures i <= j <= |peers| && (j < |peers| ==> Positive(peers, j))
    ensures forall k | i <= k < j :: !Positive(peers, k)
    decreases |peers| - i
  {
    if i == |peers| || Positive(peers, i) then i else NextPositive(peers, i + 1)
  }

  ghost predicate AnyPositive(peers: Peers) {
    exists i :: 0 <= i < |peers| && Positive(peers, i)
  }

  /** n is the first peer with a positive current weight that is ahead of the next such peer, or the last one. */
  ghost predicate Chosen(peers: Peers, n: nat)
    requires Bounded(peers)
  {
    && n < |peers| && Positive(peers, n)
    && (forall i | 0 <= i < n && Positive(peers, i) ::
          var j := NextPositive(peers, i + 1); j <= n && !Ahead(peers[i], peers[j]))
    && (var j := NextPositive(peers, n + 1); j < |peers| ==> Ahead(peers[n], peers[j]))
  }

  lemma ChoiceIsUnique(peers: Peers, m: nat, n: nat)
    requires Bounded(peers) && Chosen(peers, m) && Chosen(peers, n)
    ensures m == n
  {
  }

  function Reset(p: Peer): Peer {
    p.(currentWeight := p.weight)
  }

  ghost predicate AllReset(peers: Peers, peers': Peers) {
    |peers'| == |peers| && forall i | 0 <= i < |peers| :: peers'[i] == Reset(peers[i])
  }

  /** What a selection may do to the peers before it chooses: nothing, or a reset when no weight is left. */
  ghost predicate Refreshed(peers: Peers, peers': Peers) {
    if AnyPositive(peers) then peers' == peers else AllReset(peers, peers')
  }

  /** ngx_http_upstream_get_peer */
  method GetPeer(peers: Peers) returns (n: nat, peers': Peers)
    requires Bounded(peers) && peers != []
    ensures Refreshed(peers, peers') && Bounded(peers')
    ensures if AnyPositive(peers') then Chosen(peers', n) else n == 0
  {
    var found;
    n, found := Scan(peers);
    peers' := peers;
    if found {
      return;
    }
    peers' := ResetAll(peers);
    n, found := Scan(peers');
  }

  method ResetAll(peers: Peers) returns (peers': Peers)
    ensures AllReset(peers, peers')
  {
    peers' := peers;
    var i := 0;
    while i < |peers|
      invariant 0 <= i <= |peers| && |peers'| == |peers|
      invariant forall k | 0 <= k < |peers| :: peers'[k] == if k < i then Reset(peers[k]) else peers[k]
    {
      peers' := peers'[i := Reset(peers[i])];
      i := i + 1;
    }
  }

  /** The peers before i have been passed over, up to n. */
  ghost predicate PassedOver(peers: Peers, n: nat, i: nat)
    requires Bounded(peers)
  {
    && n <= i < |peers| && Positive(peers, n)
    && (forall k | n < k <= i :: !Positive(peers, k))
    && (forall k | 0 <= k < n && Positive(peers, k) ::
          var j := NextPositive(peers, k + 1); j <= n && !Ahead(peers[k], peers[j]))
  }

  lemma NextIs(peers: Peers, i: nat, j: nat)
    requires i < j <= |peers| && (forall k | i < k < j :: !Positive(peers, k)) && (j < |peers| ==> Positive(peers, j))
    ensures NextPositive(peers, i + 1) == j
  {
    var k := NextPositive(peers, i + 1);
  }

  lemma PassOne(peers: Peers, n: nat, i: nat)
    requires Bounded(peers) && 0 < i < |peers| && PassedOver(peers, n, i - 1) && !Positive(peers, i)
    ensures PassedOver(peers, n, i)
  {
  }

  lemma MoveOn(peers: Peers, n: nat, i: nat)
    requires Bounded(peers) && 0 < i < |peers| && PassedOver(peers, n, i - 1) && Positive(peers, i)
    requires !Ahead(peers[n], peers[i])
    ensures PassedOver(peers, i, i)
  {
    NextIs(peers, n, i);
    forall k | 0 <= k < i && Positive(peers, k)
      ensures var j := NextPositive(peers, k + 1); j <= i && !Ahead(peers[k], peers[j])
    {
      assert k <= n;
    }
  }

  lemma StopBefore(peers: Peers, n: nat, i: nat)
    requires Bounded(peers) && 0 < i < |peers| && PassedOver(peers, n, i - 1) && Positive(peers, i)
    requires Ahead(peers[n], peers[i])
    ensures Chosen(peers, n)
  {
    NextIs(peers, n, i);
  }

  lemma StopAtEnd(peers: Peers, n: nat)
    requires Bounded(peers) && peers != [] && PassedOver(peers, n, |peers| - 1)
    ensures Chosen(peers, n)
  {
    NextIs(peers, n, |peers|);
  }

  /** One pass over the peers. */
  method Scan(peers: Peers) returns (n: nat, found: bool)
    requires Bounded(peers) && peers != []
    ensures found <==> AnyPositive(peers)
    ensures if found then Chosen(peers, n) else n == 0
  {
    var i := 0;
    while i < |peers| && !Positive(peers, i)
      invariant 0 <= i <= |peers| && forall k | 0 <= k < i :: !Positive(peers, k)
    {
      i := i + 1;
    }
    if i == |peers| {
      return 0, false;
    }
    n := i;
    while i < |peers| - 1
      invariant PassedOver(peers, n, i)
    {
      i := i + 1;
      if Positive(peers, i) {
        if Ahead(peers[n], peers[i]) {
          StopBefore(peers, n, i);
          return n, true;
        }
        MoveOn(peers, n, i);
        n := i;
      } else {
        PassOne(peers, n, i);
      }
    }
    StopAtEnd(peers, n);
    return n, true;
  }

  // ---------------------------------------------------------------- fairness

  function Spend(peers: Peers, n: nat): Peers
    requires n < |peers|
  {
    peers[n := peers[n].(currentWeight := peers[n].currentWeight - 1)]
  }

  ghost function Restored(peers: Peers): (r: Peers)
    ensures AllReset(peers, r)
  {
    seq(|peers|, i requires 0 <= i < |peers| => Reset(peers[i]))
  }

  ghost function Refresh(peers: Peers): (r: Peers)
    ensures |r| == |peers|
  {
    if AnyPositive(peers) then peers else Restored(peers)
  }

  lemma RefreshedIs(peers: Peers, mid: Peers)
    requires Refreshed(peers, mid)
    ensures mid == Refresh(peers)
  {
  }

  /** n is the peer to choose: the first in turn, if there is any weight. */
  ghost predicate ToChoose(mid: Peers, n: nat) {
    n < |mid| && Bounded(mid) && if AnyPositive(mid) then Chosen(mid, n) else n == 0
  }

  /** A first try of a request that meets no failures takes one unit of weight from the chosen peer. */
  ghost predicate Selects(peers: Peers, n: nat, peers': Peers) {
    ToChoose(Refresh(peers), n) && peers' == Spend(Refresh(peers), n)
  }

  /** Whatever the order among the peers with weight left. */
  ghost predicate Takes(peers: Peers, n: nat, peers': Peers) {
    var mid := Refresh(peers);
    n < |mid| && (AnyPositive(mid) ==> Positive(mid, n)) && peers' == Spend(mid, n)
  }

  lemma SelectsTakes(peers: Peers, n: nat, peers': Peers)
    requires Selects(peers, n, peers')
    ensures Takes(peers, n, peers')
  {
  }

  /** A peer chosen without failures and its unit of weight are a selection. */
  lemma PickedSelects(peers: Peers, n: nat, mid: Peers)
    requires Picked(peers, n, mid)
    ensures Selects(peers, n, Spend(mid, n))
  {
    RefreshedIs(peers, mid);
  }

  ghost function Total(peers: Peers): (t: int)
    ensures (forall i | 0 <= i < |peers| :: peers[i].weight >= 0) ==> t >= 0
  {
    if peers == [] then 0 else peers[0].weight + Total(peers[1..])
  }

  ghost function Left(peers: Peers): int {
    if peers == [] then 0 else peers[0].currentWeight + Left(peers[1..])
  }

  ghost function Count(picks: seq<nat>, i: nat): nat {
    if picks == [] then 0 else Count(picks[..|picks| - 1], i) + if picks[|picks| - 1] == i then 1 else 0
  }

  /** One after the other. */
  ghost predicate Takings(states: seq<Peers>, picks: seq<nat>) {
    && |states| == |picks| + 1
    && forall k: nat | k < |picks| :: TakesAt(states, picks, k)
  }

  ghost predicate TakesAt(states: seq<Peers>, picks: seq<nat>, k: nat)
    requires k < |picks| && k + 1 < |states|
  {
    Takes(states[k], picks[k], states[k + 1])
  }

  lemma {:induction false} LeftChanges(peers: Peers, n: nat, p: Peer)
    requires n < |peers|
    ensures Left(peers[n := p]) == Left(peers) - peers[n].currentWeight + p.currentWeight
    decreases |peers|
  {
    if n == 0 {
      assert peers[n := p][1..] == peers[1..];
    } else {
      assert peers[n := p][1..] == peers[1..][n - 1 := p];
      LeftChanges(peers[1..], n - 1, p);
    }
  }

  /** While weight is left some peer has a positive current weight. */
  lemma {:induction false} LeftIsSomewhere(peers: Peers)
    requires Left(peers) > 0
    ensures AnyPositive(peers)
    decreases |peers|
  {
    if peers[0].currentWeight > 0 {
      assert Positive(peers, 0);
    } else {
      LeftIsSomewhere(peers[1..]);
      var i :| 0 <= i < |peers| - 1 && Positive(peers[1..], i);
      assert Positive(peers, i + 1);
    }
  }

  ghost predicate Full(peers: Peers) {
    forall k | 0 <= k < |peers| :: 0 <= peers[k].currentWeight == peers[k].weight
  }

  /** Every peer's weight is what it has left and how often it was picked. */
  ghost predicate Accounted(first: Peers, peers: Peers, picks: seq<nat>) {
    |peers| == |first| && forall i | 0 <= i < |first| ::
      && peers[i].weight == first[i].weight
      && 0 <= peers[i].currentWeight == first[i].weight - Count(picks, i)
  }

  lemma TakeAccounts(first: Peers, peers: Peers, picks: seq<nat>, n: nat, peers': Peers)
    requires Accounted(first, peers, picks) && AnyPositive(peers) && Takes(peers, n, peers')
    ensures Accounted(first, peers', picks + [n])
  {
    assert (picks + [n])[..|picks|] == picks;
    assert peers' == Spend(peers, n);
  }

  lemma TakeLeaves(peers: Peers, n: nat, peers': Peers)
    requires AnyPositive(peers) && Takes(peers, n, peers')
    ensures Left(peers') == Left(peers) - 1
  {
    assert peers' == Spend(peers, n);
    LeftChanges(peers, n, peers[n].(currentWeight := peers[n].currentWeight - 1));
  }

  lemma TakingStep(first: Peers, peers: Peers, picks: seq<nat>, n: nat, peers': Peers)
    requires Accounted(first, peers, picks) && Left(peers) > 0 && Takes(peers, n, peers')
    ensures Accounted(first, peers', picks + [n]) && Left(peers') == Left(peers) - 1
  {
    LeftIsSomewhere(peers);
    TakeAccounts(first, peers, picks, n, peers');
    TakeLeaves(peers, n, peers');
  }

  lemma TakingAt(states: seq<Peers>, picks: seq<nat>, k: nat)
    requires |states| == |picks| + 1 && k < |picks| && TakesAt(states, picks, k)
    requires Accounted(states[0], states[k], picks[..k]) && Left(states[k]) > 0
    ensures Accounted(states[0], states[k + 1], picks[..k + 1]) && Left(states[k + 1]) == Left(states[k]) - 1
  {
    TakingStep(states[0], states[k], picks[..k], picks[k], states[k + 1]);
    assert picks[..k + 1] == picks[..k] + [picks[k]];
  }

  lemma {:induction false} TakingsAccount(states: seq<Peers>, picks: seq<nat>, k: nat)
    requires Takings(states, picks) && k <= |picks| && k <= Total(states[0]) && Full(states[0])
    ensures Accounted(states[0], states[k], picks[..k]) && Left(states[k]) == Total(states[0]) - k
    decreases k
  {
    if k == 0 {
      FullIsTotal(states[0]);
    } else {
      TakingsAccount(states, picks, k - 1);
      TakingAt(states, picks, k - 1);
    }
  }

  lemma {:induction false} FullIsTotal(peers: Peers)
    requires forall i | 0 <= i < |peers| :: peers[i].currentWeight == peers[i].weight
    ensures Left(peers) == Total(peers)
    decreases |peers|
  {
    if peers != [] {
      FullIsTotal(peers[1..]);
    }
  }

  /** Nothing left and nothing negative: every current weight is zero. */
  lemma {:induction false} NothingLeft(peers: Peers, i: nat)
    requires (forall k | 0 <= k < |peers| :: peers[k].currentWeight >= 0) && Left(peers) <= 0 && i < |peers|
    ensures peers[i].currentWeight == 0
    decreases |peers|
  {
    LeftIsNatural(peers[1..]);
    if i > 0 {
      NothingLeft(peers[1..], i - 1);
    }
  }

  lemma {:induction false} LeftIsNatural(peers: Peers)
    requires forall k | 0 <= k < |peers| :: peers[k].currentWeight >= 0
    ensures Left(peers) >= 0
    decreases |peers|
  {
    if peers != [] {
      LeftIsNatural(peers[1..]);
    }
  }

  /** The same peers without any weight left. */
  ghost predicate Spent(first: Peers, peers: Peers) {
    |peers| == |first| && forall k | 0 <= k < |first| ::
      peers[k].weight == first[k].weight >= 0 && peers[k].currentWeight == 0
  }

  /** One round: every peer is picked as often as its weight says, and then no weight is left. */
  lemma OneRound(states: seq<Peers>, picks: seq<nat>)
    requires Takings(states, picks) && Full(states[0]) && |picks| == Total(states[0])
    ensures forall i: nat | i < |states[0]| :: Count(picks, i) == states[0][i].weight
    ensures Spent(states[0], states[|picks|])
  {
    var n := |picks|;
    TakingsAccount(states, picks, n);
    assert picks[..n] == picks;
    forall i: nat | i < |states[0]|
      ensures Count(picks, i) == states[0][i].weight && states[n][i].currentWeight == 0
    {
      NothingLeft(states[n], i);
    }
  }

  /** When no weight is left, taking is taking from full weights. */
  lemma TakesRestored(peers: Peers, n: nat, peers': Peers)
    requires !AnyPositive(peers) && Takes(peers, n, peers')
    ensures Takes(Restored(peers), n, peers')
  {
    RestoredTwice(peers);
  }

  lemma RestoredTwice(peers: Peers)
    ensures Refresh(Restored(peers)) == Restored(peers)
  {
    assert AllReset(Restored(peers), Restored(peers));
    if !AnyPositive(Restored(peers)) {
      assert Restored(Restored(peers)) == Restored(peers);
    }
  }

  lemma {:induction false} SameTotal(first: Peers, peers: Peers)
    requires |peers| == |first| && forall k | 0 <= k < |first| :: peers[k].weight == first[k].weight
    ensures Total(peers) == Total(first)
    decreases |first|
  {
    if first != [] {
      SameTotal(first[1..], peers[1..]);
    }
  }

  lemma TakesHere(peers: Peers, n: nat, peers': Peers, states: seq<Peers>, picks: seq<nat>, k: nat)
    requires Takes(peers, n, peers')
    requires k < |picks| && k + 1 < |states| && states[k] == peers && picks[k] == n && states[k + 1] == peers'
    ensures TakesAt(states, picks, k)
  {
  }

  /** The k-th selection from a on is the same from restored weights. */
  lemma RestoredAt(peers: Peers, n: nat, peers': Peers, states': seq<Peers>, picks': seq<nat>, k: nat)
    requires Takes(peers, n, peers') && (k == 0 ==> !AnyPositive(peers))
    requires k < |picks'| && k + 1 < |states'| && picks'[k] == n && states'[k + 1] == peers'
    requires states'[k] == if k == 0 then Restored(peers) else peers
    ensures TakesAt(states', picks', k)
  {
    if k == 0 {
      TakesRestored(peers, n, peers');
      TakesHere(Restored(peers), n, peers', states', picks', k);
    } else {
      TakesHere(peers, n, peers', states', picks', k);
    }
  }

  /** A part of a run, but for the restored weights at its start. */
  ghost predicate Part(states: seq<Peers>, picks: seq<nat>, a: nat, states': seq<Peers>, picks': seq<nat>) {
    && |states| == |picks| + 1 && |states'| == |picks'| + 1 && a + |picks'| <= |picks|
    && states'[0] == Restored(states[a])
    && (forall k: nat | k < |picks'| :: picks'[k] == picks[a + k])
    && (forall k: nat | 0 < k < |states'| :: states'[k] == states[a + k])
  }

  lemma PartIs(states: seq<Peers>, picks: seq<nat>, a: nat, b: nat)
    requires |states| == |picks| + 1 && a < b <= |picks|
    ensures Part(states, picks, a, [Restored(states[a])] + states[a + 1..b + 1], picks[a..b])
  {
  }

  lemma PartTakes(states: seq<Peers>, picks: seq<nat>, a: nat, states': seq<Peers>, picks': seq<nat>, k: nat)
    requires Part(states, picks, a, states', picks') && !AnyPositive(states[a]) && k < |picks'|
    requires Takes(states[a + k], picks[a + k], states[a + k + 1])
    ensures TakesAt(states', picks', k)
  {
    assert states'[k + 1] == states[a + (k + 1)];
    RestoredAt(states[a + k], picks[a + k], states[a + k + 1], states', picks', k);
  }

  lemma RestoredTakings(states: seq<Peers>, picks: seq<nat>, a: nat, states': seq<Peers>, picks': seq<nat>)
    requires Takings(states, picks) && Part(states, picks, a, states', picks') && !AnyPositive(states[a])
    ensures Takings(states', picks')
  {
    forall k: nat | k < |picks'|
      ensures TakesAt(states', picks', k)
    {
      assert TakesAt(states, picks, a + k);
      PartTakes(states, picks, a, states', picks', k);
    }
  }

  lemma RestoredIsFull(first: Peers, peers: Peers)
    requires Spent(first, peers)
    ensures !AnyPositive(peers) && Full(Restored(peers)) && Total(Restored(peers)) == Total(first)
    ensures |first| == |Restored(peers)| && forall i | 0 <= i < |first| :: Restored(peers)[i].weight == first[i].weight
  {
    SameTotal(first, Restored(peers));
  }

  /** A round that starts without weight, in the middle of a run. */
  lemma RoundFromNothing(states: seq<Peers>, picks: seq<nat>, first: Peers, a: nat, states': seq<Peers>, picks': seq<nat>)
    requires Takings(states, picks) && Part(states, picks, a, states', picks')
    requires |picks'| == Total(first) > 0 && Spent(first, states[a])
    ensures forall i: nat | i < |first| :: Count(picks', i) == first[i].weight
    ensures Spent(first, states'[|picks'|])
  {
    RestoredIsFull(first, states[a]);
    RestoredTakings(states, picks, a, states', picks');
    OneRound(states', picks');
  }

  lemma {:induction false} RoundsAreFair(states: seq<Peers>, picks: seq<nat>, k: nat)
    requires Takings(states, picks) && Full(states[0])
    requires (k + 1) * Total(states[0]) <= |picks|
    ensures var round := Total(states[0]);
      forall i: nat | i < |states[0]| :: Count(picks[k * round..(k + 1) * round], i) == states[0][i].weight
    ensures Spent(states[0], states[(k + 1) * Total(states[0])])
    decreases k
  {
    var first, round := states[0], Total(states[0]);
    if k == 0 || round == 0 {
      assert k * round == 0 && (k + 1) * round == round;
      FirstRound(states, picks, round);
    } else {
      assert k * round < (k + 1) * round == k * round + round;
      RoundsAreFair(states, picks, k - 1);
      LaterRound(states, picks, first, k * round, (k + 1) * round);
    }
  }

  lemma FirstRound(states: seq<Peers>, picks: seq<nat>, round: nat)
    requires Takings(states, picks) && Full(states[0]) && round == Total(states[0]) <= |picks|
    ensures forall i: nat | i < |states[0]| :: Count(picks[0..round], i) == states[0][i].weight
    ensures Spent(states[0], states[round])
  {
    var states', picks' := states[..round + 1], picks[..round];
    forall j: nat | j < |picks'|
      ensures TakesAt(states', picks', j)
    {
      assert TakesAt(states, picks, j);
    }
    OneRound(states', picks');
    assert picks[0..round] == picks';
  }

  lemma LaterRound(states: seq<Peers>, picks: seq<nat>, first: Peers, a: nat, b: nat)
    requires Takings(states, picks) && a < b <= |picks| && b - a == Total(first) && Spent(first, states[a])
    ensures forall i: nat | i < |first| :: Count(picks[a..b], i) == first[i].weight
    ensures Spent(first, states[b])
  {
    PartIs(states, picks, a, b);
    var states', picks' := [Restored(states[a])] + states[a + 1..b + 1], picks[a..b];
    PartEnds(states, picks, a, states', picks', b);
    RoundFromNothing(states, picks, first, a, states', picks');
  }

  lemma PartEnds(states: seq<Peers>, picks: seq<nat>, a: nat, states': seq<Peers>, picks': seq<nat>, b: nat)
    requires Part(states, picks, a, states', picks') && |picks'| == b - a > 0
    ensures states'[|picks'|] == states[b]
  {
    assert states'[|picks'|] == states[a + |picks'|];
  }

  /** Selections one after the other. */
  ghost predicate Selections(states: seq<Peers>, picks: seq<nat>) {
    |states| == |picks| + 1 && forall k: nat | k < |picks| :: Selects(states[k], picks[k], states[k + 1])
  }

  /** Weighted fairness: in a run from full weights, every round of as many selections as the weights add up to picks
    * every peer as often as its weight says. */
  lemma EveryRoundIsFair(states: seq<Peers>, picks: seq<nat>, k: nat, i: nat)
    requires Selections(states, picks) && Full(states[0]) && i < |states[0]|
    requires (k + 1) * Total(states[0]) <= |picks|
    ensures var round := Total(states[0]);
      0 <= k * round <= (k + 1) * round && Count(picks[k * round..(k + 1) * round], i) == states[0][i].weight
  {
    forall j: nat | j < |picks|
      ensures TakesAt(states, picks, j)
    {
      SelectsTakes(states[j], picks[j], states[j + 1]);
    }
    RoundsAreFair(states, picks, k);
  }

  // ---------------------------------------------------------------- one request

  /** What configuration fixes about the peers. */
  ghost predicate SameGroup(peers: Peers, peers': Peers) {
    && |peers'| == |peers|
    && forall i | 0 <= i < |peers| :: peers'[i].down == peers[i].down && peers'[i].weight == peers[i].weight
                                      && peers'[i].maxFails == peers[i].maxFails
  }

  datatype Condition = Usable | Failing | Down

  /** May an untried peer be used now?  Failures are forgotten after a while, and a failing peer loses its weight. */
  function Examine(p: Peer, now: int): (Peer, Condition) {
    if p.down then (p, Down)
    else if p.maxFails == 0 || p.fails < p.maxFails then (p, Usable)
    else if now - p.accessed > p.failTimeout then (p.(fails := 0), Usable)
    else (p.(currentWeight := 0), Failing)
  }

  /** A request's view: pc->tries, rrp->tried, rrp->current. */
  datatype Req = Req(tries: nat, tried: set<nat>, current: nat)

  function Below(n: nat): (r: set<nat>)
    ensures forall i: nat :: i in r <==> i < n
  {
    if n == 0 then {} else Below(n - 1) + {n - 1}
  }

  lemma {:induction false} BelowSize(n: nat)
    ensures |Below(n)| == n
  {
    if n > 0 {
      BelowSize(n - 1);
    }
  }

  lemma TriedSize(r: Req, number: nat)
    requires r.tried <= Below(number)
    ensures |r.tried| <= number
  {
    SubsetSize(r.tried, Below(number));
    BelowSize(number);
  }

  /** Tries never exceed the untried peers by more than the one in use. */
  ghost predicate Sane(r: Req, number: nat, inUse: nat) {
    r.tried <= Below(number) && r.current < number && r.tries + |r.tried| <= number + inUse
  }

  /** The request was given its current peer, for the first time, and the peer is not down. */
  ghost predicate Given(r: Req, r': Req, peers: Peers) {
    && r'.current < |peers| && !peers[r'.current].down
    && r'.current !in r.tried && r'.current in r'.tried && r.tried <= r'.tried && r'.tries <= r.tries
  }

  /** No peer is failing, and those that are down have no weight. */
  ghost predicate NoFailures(peers: Peers) {
    forall i | 0 <= i < |peers| ::
      && (peers[i].maxFails == 0 || peers[i].fails < peers[i].maxFails)
      && (peers[i].down ==> peers[i].weight == 0)
  }

  /** A fresh request meets no failures, and there is weight to spend. */
  ghost predicate Untroubled(r: Req, peers: Peers) {
    r.tried == {} && NoFailures(peers) && exists i :: 0 <= i < |peers| && peers[i].weight > 0
  }

  ghost predicate Picked(peers: Peers, n: nat, peers': Peers) {
    Refreshed(peers, peers') && AnyPositive(peers') && Bounded(peers') && Chosen(peers', n)
  }

  /** Without failures the peer with weight that is chosen first can be used at once. */
  lemma FirstChoiceIsUsable(r: Req, peers: Peers, mid: Peers, n: nat, now: int)
    requires Untroubled(r, peers) && Bounded(peers) && Refreshed(peers, mid) && Bounded(mid)
    requires if AnyPositive(mid) then Chosen(mid, n) else n == 0
    ensures Picked(peers, n, mid) && Examine(mid[n], now) == (mid[n], Usable)
  {
    if !AnyPositive(peers) {
      var i :| 0 <= i < |peers| && peers[i].weight > 0;
      assert Positive(mid, i);
    }
  }

  // ---------------------------------------------------------------- which peer is given

  /** The peer may be used now. */
  predicate Fit(p: Peer, now: int) {
    !p.down && (p.maxFails == 0 || p.fails < p.maxFails || now - p.accessed > p.failTimeout)
  }

  /** ... and by this request. */
  predicate Candidate(r: Req, peers: Peers, k: nat, now: int)
    requires k < |peers|
  {
    k !in r.tried && Fit(peers[k], now)
  }

  /** The current peer was looked at and will not do: a try is gone unless it had been tried before; a peer that is
    * down is never looked at again, and one that is failing loses its weight. */
  function PassOver(r: Req, peers: Peers, now: int): (Req, Peers)
    requires r.current < |peers|
  {
    var k, p := r.current, peers[r.current];
    var tries := if r.tries == 0 then 0 else r.tries - 1;
    if k in r.tried then (r, peers)
    else if p.down then (r.(tries := tries, tried := r.tried + {k}), peers)
    else (r.(tries := tries), peers[k := p.(currentWeight := 0)])
  }

  /** The x-th peer from c on, around the ring of n. */
  function Ring(c: nat, x: nat, n: nat): (k: nat)
    requires c < n && x <= n
    ensures k < n
  {
    if c + x < n then c + x else c + x - n
  }

  /** The first peer that will do, of as many as there are tries left; the number of tries if there is none. */
  function FirstInRing(r: Req, peers: Peers, now: int, from: nat): (x: nat)
    requires from <= r.tries <= |peers| && r.current < |peers|
    ensures from <= x <= r.tries && (x < r.tries ==> Candidate(r, peers, Ring(r.current, x, |peers|), now))
    ensures forall y | from <= y < x :: !Candidate(r, peers, Ring(r.current, y, |peers|), now)
    decreases r.tries - from
  {
    if from == r.tries || Candidate(r, peers, Ring(r.current, from, |peers|), now) then from
    else FirstInRing(r, peers, now, from + 1)
  }

  /** After x peers of the ring have been refused. */
  function Passed(r: Req, peers: Peers, now: int, x: nat): (v: (Req, Peers))
    requires r.current < |peers| && x <= |peers|
    ensures |v.1| == |peers| && v.0.current == Ring(r.current, x, |peers|)
    decreases x
  {
    if x == 0 then (r, peers)
    else
      var (q, ps) := Passed(r, peers, now, x - 1);
      var (q', ps') := PassOver(q, ps, now);
      (q'.(current := Ring(r.current, x, |peers|)), ps')
  }

  /** Peers further on in the ring are as they were. */
  lemma {:induction false} PassedElsewhere(r: Req, peers: Peers, now: int, x: nat)
    requires r.current < |peers| && x <= |peers|
    ensures var (q, ps) := Passed(r, peers, now, x);
      forall y | x <= y < |peers| ::
        ps[Ring(r.current, y, |peers|)] == peers[Ring(r.current, y, |peers|)]
        && (Ring(r.current, y, |peers|) in q.tried <==> Ring(r.current, y, |peers|) in r.tried)
    decreases x
  {
    if x > 0 {
      PassedElsewhere(r, peers, now, x - 1);
    }
  }

  /** x peers of the ring have been refused, and none of them would do. */
  ghost predicate InRing(r: Req, peers: Peers, now: int, x: nat, r': Req, peers': Peers)
    requires r.current < |peers| && x <= r.tries <= |peers|
  {
    (r', peers') == Passed(r, peers, now, x) && FirstInRing(r, peers, now, 0) == FirstInRing(r, peers, now, x)
  }

  /** The next look. */
  lemma RingStep(r: Req, peers: Peers, now: int, x: nat, r1: Req, peers1: Peers)
    requires r.current < |peers| && x < r.tries <= |peers| && InRing(r, peers, now, x, r1, peers1)
    ensures r1.current < |peers1| == |peers|
    ensures Candidate(r1, peers1, r1.current, now) <==> FirstInRing(r, peers, now, 0) == x
    ensures !Candidate(r1, peers1, r1.current, now) ==>
      var (q, ps) := PassOver(r1, peers1, now);
      && InRing(r, peers, now, x + 1, q.(current := if r1.current + 1 >= |peers| then 0 else r1.current + 1), ps)
      && r1.tries <= q.tries + 1
  {
    PassedElsewhere(r, peers, now, x);
  }

  function Forgotten(peers: Peers): (r: Peers)
    ensures |r| == |peers| && forall i | 0 <= i < |peers| :: r[i] == peers[i].(fails := 0)
  {
    seq(|peers|, i requires 0 <= i < |peers| => peers[i].(fails := 0))
  }

  /** The answer of a later try, and the peers it leaves. */
  ghost predicate GivesInRing(r: Req, peers: Peers, now: int, rc: Rc, r': Req, peers': Peers)
    requires r.current < |peers| && r.tries <= |peers|
  {
    var x := FirstInRing(r, peers, now, 0);
    var (q, ps) := Passed(r, peers, now, x);
    if x == r.tries then rc == Busy && r' == q && peers' == Forgotten(ps)
    else rc == Ok && r' == q.(tried := q.tried + {q.current})
         && peers' == Spend(ps[q.current := Examine(ps[q.current], now).0], q.current)
  }

  /** One look of a first try: the request and the peers before it, and the peer that the weights choose. */
  datatype Look = Look(r: Req, peers: Peers, n: nat) {
    ghost function Given(): Req {
      r.(current := n)
    }

    /** The chosen peer will do. */
    ghost predicate Will(now: int) {
      n < |peers| && Candidate(Given(), Refresh(peers), n, now)
    }

    ghost function Next(now: int): (Req, Peers) {
      if n < |peers| then PassOver(Given(), Refresh(peers), now) else (r, peers)
    }

    ghost function Taken(now: int): Peers {
      if n < |peers| then Refresh(peers)[n := Examine(Refresh(peers)[n], now).0] else peers
    }

    ghost function After(now: int): (Req, Peers) {
      if Will(now) then (Given(), Taken(now)) else Next(now)
    }
  }

  ghost predicate LookAt(now: int, log: seq<Look>, k: nat)
    requires k < |log|
  {
    ToChoose(Refresh(log[k].peers), log[k].n) && (k > 0 ==> (log[k].r, log[k].peers) == log[k - 1].Next(now))
  }

  /** Looks one after the other, each after the refusal of the one before. */
  ghost predicate LooksFrom(r: Req, peers: Peers, now: int, log: seq<Look>) {
    && log != [] && log[0].r == r && log[0].peers == peers
    && (forall k: nat | k < |log| :: LookAt(now, log, k))
    && (forall k: nat | k < |log| - 1 :: !log[k].Will(now))
  }

  /** Where a first try stands after these looks. */
  ghost predicate Looked(r: Req, peers: Peers, now: int, log: seq<Look>, r': Req, peers': Peers) {
    && LooksFrom(r, peers, now, log) && (r', peers') == log[|log| - 1].After(now)
    && |log| <= r.tries <= r'.tries + |log| && r.tried <= r'.tried && r'.tries <= r.tries
  }

  lemma PassOverKeeps(r: Req, peers: Peers, now: int)
    requires r.current < |peers|
    ensures var (q, ps) := PassOver(r, peers, now);
      |ps| == |peers| && r.tried <= q.tried && q.tries <= r.tries <= q.tries + 1
  {
  }

  lemma FirstLook(r: Req, peers: Peers, now: int, look: Look, r': Req, peers': Peers)
    requires look.r == r && look.peers == peers && ToChoose(Refresh(peers), look.n) && r.tries > 0
    requires (r', peers') == look.After(now)
    ensures Looked(r, peers, now, [look], r', peers')
  {
    PassOverKeeps(look.Given(), Refresh(peers), now);
    assert LookAt(now, [look], 0);
  }

  lemma LookMore(r: Req, peers: Peers, now: int, log: seq<Look>, r1: Req, peers1: Peers, look: Look, r': Req, peers': Peers)
    requires Looked(r, peers, now, log, r1, peers1) && |log| < r.tries && !log[|log| - 1].Will(now)
    requires look.r == r1 && look.peers == peers1 && ToChoose(Refresh(peers1), look.n)
    requires (r', peers') == look.After(now)
    ensures Looked(r, peers, now, log + [look], r', peers')
  {
    var all := log + [look];
    PassOverKeeps(look.Given(), Refresh(peers1), now);
    forall k: nat | k < |all|
      ensures LookAt(now, all, k)
    {
      if k < |log| {
        assert LookAt(now, log, k);
      }
    }
  }

  /** The answer of a first try, and the peers it leaves. */
  ghost predicate GivesByWeight(r: Req, peers: Peers, now: int, log: seq<Look>, rc: Rc, r': Req, peers': Peers) {
    && LooksFrom(r, peers, now, log) && |log| <= r.tries
    && var last := log[|log| - 1];
    && if last.Will(now) then
         rc == Ok && r' == last.Given().(tried := last.r.tried + {last.n}) && last.n < |last.peers|
         && peers' == Spend(last.Taken(now), last.n)
       else rc == Busy && |log| == r.tries && r' == last.Next(now).0 && peers' == Forgotten(last.Next(now).1)
  }

  /** A first try that meets no failures gives the peer that is chosen first. */
  lemma FirstWillDo(r: Req, peers: Peers, now: int, look: Look)
    requires Untroubled(r, peers) && Bounded(peers) && look.r == r && look.peers == peers && ToChoose(Refresh(peers), look.n)
    ensures look.Will(now) && look.Taken(now) == Refresh(peers) && Picked(peers, look.n, Refresh(peers))
  {
    var mid := Refresh(peers);
    RefreshIs(peers);
    FirstChoiceIsUsable(r, peers, mid, look.n, now);
    assert mid[look.n := mid[look.n]] == mid;
  }

  lemma UntroubledLook(r: Req, peers: Peers, now: int, log: seq<Look>, r': Req, peers': Peers)
    requires Looked(r, peers, now, log, r', peers') && Untroubled(r, peers) && Bounded(peers)
    ensures |log| == 1 && log[0].Will(now) && Selects(peers, r'.current, Spend(peers', r'.current))
  {
    assert LookAt(now, log, 0);
    FirstWillDo(r, peers, now, log[0]);
    PickedSelects(peers, log[0].n, Refresh(peers));
  }

  /** What the answer is made of. */
  ghost predicate Answers(found: bool, r1: Req, peers1: Peers, rc: Rc, r': Req, peers': Peers)
    requires r1.current < |peers1|
  {
    if found then rc == Ok && r' == r1.(tried := r1.tried + {r1.current}) && peers' == Spend(peers1, r1.current)
    else rc == Busy && r' == r1 && peers' == Forgotten(peers1)
  }

  lemma FirstTryGives(r: Req, peers: Peers, now: int, log: seq<Look>, found: bool, r1: Req, peers1: Peers,
                      rc: Rc, r': Req, peers': Peers)
    requires Looked(r, peers, now, log, r1, peers1) && r1.current < |peers1|
    requires found == log[|log| - 1].Will(now) && (!found ==> |log| == r.tries) && Answers(found, r1, peers1, rc, r', peers')
    ensures GivesByWeight(r, peers, now, log, rc, r', peers')
    ensures rc == Ok ==> r1.current !in r1.tried && Fit(Refresh(log[|log| - 1].peers)[r1.current], now)
  {
    assert LookAt(now, log, |log| - 1);
  }

  lemma NextTryGives(r: Req, peers: Peers, now: int, found: bool, r1: Req, peers1: Peers, rc: Rc, r': Req, peers': Peers)
    requires r.current < |peers| && r.tries <= |peers| && r1.current < |peers1|
    requires var x := FirstInRing(r, peers, now, 0);
      && (found <==> x < r.tries) && r1 == Passed(r, peers, now, x).0
      && var ps := Passed(r, peers, now, x).1;
         peers1 == if found then ps[r1.current := Examine(ps[r1.current], now).0] else ps
    requires Answers(found, r1, peers1, rc, r', peers')
    ensures GivesInRing(r, peers, now, rc, r', peers')
    ensures rc == Ok ==> r1.current !in r1.tried && r.tried <= r1.tried && r1.tries <= r.tries && !peers[r1.current].down
  {
    var x := FirstInRing(r, peers, now, 0);
    PassedKeeps(r, peers, now, x);
    PassedElsewhere(r, peers, now, x);
  }

  /** A later try gives the first peer of the ring that will do, and none exactly if there is none. */
  lemma RingIsSearched(r: Req, peers: Peers, now: int, rc: Rc, r': Req, peers': Peers)
    requires r.current < |peers| && r.tries <= |peers| && GivesInRing(r, peers, now, rc, r', peers')
    ensures rc == Busy <==> forall y | 0 <= y < r.tries :: !Candidate(r, peers, Ring(r.current, y, |peers|), now)
    ensures rc == Ok ==> exists x ::
      && 0 <= x < r.tries && r'.current == Ring(r.current, x, |peers|) && Candidate(r, peers, r'.current, now)
      && forall y | 0 <= y < x :: !Candidate(r, peers, Ring(r.current, y, |peers|), now)
  {
    var x := FirstInRing(r, peers, now, 0);
    assert Passed(r, peers, now, x).0.current == Ring(r.current, x, |peers|);
  }

  /** The same peers are fit, and nobody else but unfit ones has been tried. */
  ghost predicate SameFit(r: Req, peers: Peers, now: int, r': Req, peers': Peers) {
    && |peers'| == |peers| && r.tried <= r'.tried
    && (forall i | 0 <= i < |peers| :: Fit(peers'[i], now) <==> Fit(peers[i], now))
    && (forall i: nat | i < |peers| && i in r'.tried :: i in r.tried || !Fit(peers[i], now))
  }

  lemma NextKeepsFit(look: Look, now: int)
    requires look.n < |look.peers| && !look.Will(now)
    ensures var (r', peers') := look.Next(now); SameFit(look.r, look.peers, now, r', peers')
  {
    var mid := Refresh(look.peers);
    RefreshIs(look.peers);
    assert forall i | 0 <= i < |mid| :: Fit(mid[i], now) <==> Fit(look.peers[i], now);
  }

  lemma SameFitThen(r: Req, peers: Peers, now: int, r1: Req, peers1: Peers, r2: Req, peers2: Peers)
    requires SameFit(r, peers, now, r1, peers1) && SameFit(r1, peers1, now, r2, peers2)
    ensures SameFit(r, peers, now, r2, peers2)
  {
  }

  lemma LookIs(now: int, log: seq<Look>, k: nat)
    requires k < |log| && LookAt(now, log, k)
    ensures log[k].n < |log[k].peers| && (k > 0 ==> (log[k].r, log[k].peers) == log[k - 1].Next(now))
  {
  }

  /** Each look follows the refusal of the one before. */
  ghost predicate Refusals(now: int, log: seq<Look>) {
    forall k: nat | k < |log| :: RefusedBefore(now, log, k)
  }

  ghost predicate RefusedBefore(now: int, log: seq<Look>, k: nat)
    requires k < |log|
  {
    && log[k].n < |log[k].peers|
    && (k > 0 ==> !log[k - 1].Will(now) && (log[k].r, log[k].peers) == log[k - 1].Next(now))
  }

  lemma LooksAreRefusals(r: Req, peers: Peers, now: int, log: seq<Look>)
    requires LooksFrom(r, peers, now, log)
    ensures Refusals(now, log)
  {
    forall k: nat | k < |log|
      ensures RefusedBefore(now, log, k)
    {
      assert LookAt(now, log, k);
      LookIs(now, log, k);
    }
  }

  /** Looks change neither who is fit nor, but for peers that are not, who has been tried. */
  lemma {:induction false} LooksKeepFit(r: Req, peers: Peers, now: int, log: seq<Look>, k: nat)
    requires Refusals(now, log) && k < |log| && log[0].r == r && log[0].peers == peers
    ensures SameFit(r, peers, now, log[k].r, log[k].peers) && log[k].n < |peers|
    decreases k
  {
    assert RefusedBefore(now, log, k);
    if k > 0 {
      assert RefusedBefore(now, log, k - 1);
      LooksKeepFit(r, peers, now, log, k - 1);
      NextKeepsFit(log[k - 1], now);
      SameFitThen(r, peers, now, log[k - 1].r, log[k - 1].peers, log[k].r, log[k].peers);
    }
  }

  /** A first try is Busy only after as many looks as there are tries, all of them at peers that had been tried or are
    * not fit; and the peer it gives is fit and had not been tried. */
  lemma LooksInVain(r: Req, peers: Peers, now: int, log: seq<Look>, rc: Rc, r': Req, peers': Peers)
    requires GivesByWeight(r, peers, now, log, rc, r', peers')
    ensures forall k | 0 <= k < |log| :: log[k].n < |peers|
    ensures rc == Busy ==> |log| == r.tries && forall k | 0 <= k < |log| :: log[k].n in r.tried || !Fit(peers[log[k].n], now)
    ensures rc == Ok ==> r'.current < |peers| && r'.current !in r.tried && Fit(peers[r'.current], now)
  {
    LooksAreRefusals(r, peers, now, log);
    forall k: nat | k < |log|
      ensures log[k].n < |peers| && (log[k].Will(now) <==> log[k].n !in r.tried && Fit(peers[log[k].n], now))
    {
      LooksKeepFit(r, peers, now, log, k);
      WillIs(log[k], now);
    }
  }

  lemma WillIs(look: Look, now: int)
    requires look.n < |look.peers|
    ensures look.Will(now) <==> look.n !in look.r.tried && Fit(look.peers[look.n], now)
  {
    RefreshIs(look.peers);
  }

  /** The looks of a first try may all go to one failing peer: another one, which has spent its weight and would do, is
    * passed over because after a reset of the weights the last one is chosen again. */
  lemma FirstTryCanMiss(fit: Peer, failing: Peer, now: int, log: seq<Look>)
    requires Fit(fit, now) && fit.currentWeight <= 0 < fit.weight
    requires !Fit(failing, now) && !failing.down && 0 < failing.currentWeight <= failing.weight
    requires log == [Look(Req(2, {}, 0), [fit, failing], 1), Look(Req(1, {}, 1), [fit, failing.(currentWeight := 0)], 1)]
    ensures LooksFrom(Req(2, {}, 0), [fit, failing], now, log) && Candidate(Req(2, {}, 0), [fit, failing], 0, now)
    ensures forall k | 0 <= k < |log| :: !log[k].Will(now)
  {
    var peers, spent, full := log[0].peers, log[1].peers, [Reset(fit), Reset(failing)];
    assert Positive(peers, 1) && Refresh(peers) == peers;
    NextIs(peers, 1, 2);
    assert !AnyPositive(spent) && Refresh(spent) == full;
    assert Positive(full, 1);
    NextIs(full, 0, 1);
    NextIs(full, 1, 2);
    assert peers[1 := failing.(currentWeight := 0)] == spent;
    forall k: nat | k < |log|
      ensures LookAt(now, log, k)
    {
    }
  }

  lemma RefreshIs(peers: Peers)
    ensures Refreshed(peers, Refresh(peers))
  {
  }

  lemma {:induction false} PassedKeeps(r: Req, peers: Peers, now: int, x: nat)
    requires r.current < |peers| && x <= |peers|
    ensures r.tried <= Passed(r, peers, now, x).0.tried && Passed(r, peers, now, x).0.tries <= r.tries
    decreases x
  {
    if x > 0 {
      PassedKeeps(r, peers, now, x - 1);
    }
  }

  datatype Rc = Ok | Busy

  /** How a request gives its peer back: state 0, NGX_PEER_NEXT and NGX_PEER_FAILED. */
  datatype State = Good | Next | Failed

  lemma ShareIsNatural(weight: int, maxFails: nat)
    requires weight >= 0 && maxFails > 0
    ensures weight / maxFails >= 0
  {
  }

  /** A peer after a failure: its failures are counted, and it loses a share of its weight, but not more than it has. */
  function Blamed(p: Peer, now: int): (q: Peer)
    requires p.weight >= 0 && p.currentWeight <= p.weight
    ensures 0 <= q.currentWeight <= q.weight && q.fails == p.fails + 1
    ensures q.currentWeight <= p.currentWeight || q.currentWeight == 0
  {
    var share := if p.maxFails > 0 then p.weight / p.maxFails else 0;
    p.(fails := p.fails + 1, accessed := now,
       currentWeight := if p.currentWeight < share then 0 else p.currentWeight - share)
  }

  /** What becomes of an attempt: the response is fine, or it asks for another peer, or the failure is one that does
    * not (`proxy_next_upstream`). */
  datatype Ending = Fine | Again(failed: bool) | Final

  function StateAfter(end: Ending): State {
    if end == Fine then Good else if end == Again(false) then Next else Failed
  }

  /** The peers as other requests leave them before an attempt, its time and its end. */
  datatype Visit = Visit(peers: Peers, now: int, end: Ending)

  datatype Outcome = Served | NoLive | Exhausted | Refused

  class Group {
    var peers: Peers

    constructor (peers: Peers)
      requires Bounded(peers) && |peers| > 1
      ensures this.peers == peers && Valid()
    {
      this.peers := peers;
    }

    ghost predicate Valid()
      reads this
    {
      Bounded(peers) && |peers| > 1
    }

    /** A peer has failed. */
    method Blame(k: nat, now: int)
      requires Valid() && k < |peers|
      modifies this
      ensures Valid() && SameGroup(old(peers), peers) && peers == old(peers)[k := Blamed(old(peers)[k], now)]
    {
      var p := peers[k];
      p := p.(fails := p.fails + 1, accessed := now);
      if p.maxFails > 0 {
        ShareIsNatural(p.weight, p.maxFails);
        p := p.(currentWeight := p.currentWeight - p.weight / p.maxFails);
      }
      if p.currentWeight < 0 {
        p := p.(currentWeight := 0);
      }
      peers := peers[k := p];
    }

    /** All peers failed: mark them as live for quick recovery. */
    method ForgetFailures()
      requires Valid()
      modifies this
      ensures Valid() && SameGroup(old(peers), peers)
      ensures peers == Forgotten(old(peers))
    {
      var i := 0;
      while i < |peers|
        invariant 0 <= i <= |peers| == |old(peers)|
        invariant forall k | 0 <= k < |peers| :: peers[k] == if k < i then old(peers)[k].(fails := 0) else old(peers)[k]
      {
        peers := peers[i := peers[i].(fails := 0)];
        i := i + 1;
      }
    }
  }

  class Request {
    var r: Req

    constructor (g: Group)
      requires g.Valid()
      ensures r == Req(|g.peers|, {}, 0)
    {
      r := Req(|g.peers|, {}, 0);
    }

    /** Look at the current peer if it has not been tried. */
    method TryCurrent(g: Group, now: int) returns (usable: bool)
      requires g.Valid() && Sane(r, |g.peers|, 0) && r.tries > 0
      modifies this, g
      ensures g.Valid() && SameGroup(old(g.peers), g.peers) && Sane(r, |g.peers|, 0)
      ensures usable <==> Candidate(old(r), old(g.peers), old(r.current), now)
      ensures usable ==> r == old(r) && g.peers == old(g.peers)[r.current := Examine(old(g.peers)[r.current], now).0]
      ensures !usable ==> (r, g.peers) == PassOver(old(r), old(g.peers), now)
    {
      usable := false;
      var k := r.current;
      if k !in r.tried {
        var (p, condition) := Examine(g.peers[k], now);
        g.peers := g.peers[k := p];
        assert p == old(g.peers)[k] ==> g.peers == old(g.peers);
        match condition
        case Usable => usable := true;
        case Failing => r := r.(tries := r.tries - 1);
        case Down => r := r.(tries := r.tries - 1, tried := r.tried + {k});
      }
    }

    /** Choose a peer by weight and look at it. */
    method TryChosen(g: Group, now: int) returns (found: bool)
      requires g.Valid() && Sane(r, |g.peers|, 0) && r.tries > 0
      modifies this, g
      ensures g.Valid() && SameGroup(old(g.peers), g.peers) && Sane(r, |g.peers|, 0)
      ensures ToChoose(Refresh(old(g.peers)), r.current)
      ensures var look := Look(old(r), old(g.peers), r.current);
        found == look.Will(now) && (r, g.peers) == look.After(now)
    {
      var n, peers := GetPeer(g.peers);
      RefreshedKeeps(g.peers, peers);
      RefreshedIs(g.peers, peers);
      g.peers := peers;
      r := r.(current := n);
      found := TryCurrent(g, now);
    }

    /** The first look of a first try. */
    method LookOnce(g: Group, now: int) returns (found: bool, ghost log: seq<Look>)
      requires g.Valid() && Sane(r, |g.peers|, 0) && r.tries > 0
      modifies this, g
      ensures g.Valid() && SameGroup(old(g.peers), g.peers) && Sane(r, |g.peers|, 0)
      ensures Looked(old(r), old(g.peers), now, log, r, g.peers) && |log| == 1 && found == log[0].Will(now)
    {
      ghost var was, had := r, g.peers;
      found := TryChosen(g, now);
      log := [Look(was, had, r.current)];
      FirstLook(was, had, now, log[0], r, g.peers);
    }

    /** One more look of a first try. */
    method LookAgain(g: Group, now: int, ghost r0: Req, ghost peers0: Peers, ghost log: seq<Look>)
      returns (found: bool, ghost log': seq<Look>)
      requires g.Valid() && Sane(r, |g.peers|, 0) && r.tries > 0
      requires Looked(r0, peers0, now, log, r, g.peers) && |log| < r0.tries && !log[|log| - 1].Will(now)
      modifies this, g
      ensures g.Valid() && SameGroup(old(g.peers), g.peers) && Sane(r, |g.peers|, 0)
      ensures Looked(r0, peers0, now, log', r, g.peers) && |log'| == |log| + 1
      ensures found == log'[|log'| - 1].Will(now)
    {
      ghost var was, had := r, g.peers;
      found := TryChosen(g, now);
      log' := log + [Look(was, had, r.current)];
      LookMore(r0, peers0, now, log, was, had, log'[|log|], r, g.peers);
    }

    /** The first try: peers in the order of their weights, as many as there are tries. */
    method FirstTry(g: Group, now: int) returns (found: bool, ghost log: seq<Look>)
      requires g.Valid() && Sane(r, |g.peers|, 0) && r.tries > 0
      modifies this, g
      ensures g.Valid() && SameGroup(old(g.peers), g.peers) && Sane(r, |g.peers|, 0)
      ensures Looked(old(r), old(g.peers), now, log, r, g.peers)
      ensures found == log[|log| - 1].Will(now) && (!found ==> |log| == old(r.tries))
    {
      ghost var r0, peers0 := r, g.peers;
      var i := r.tries;
      found, log := LookOnce(g, now);
      i := i - 1;
      while !found && r.tries > 0 && i > 0
        invariant g.Valid() && SameGroup(peers0, g.peers) && Sane(r, |g.peers|, 0)
        invariant Looked(r0, peers0, now, log, r, g.peers) && i == r0.tries - |log|
        invariant found == log[|log| - 1].Will(now)
        decreases i
      {
        found, log := LookAgain(g, now, r0, peers0, log);
        i := i - 1;
      }
    }

    /** Look at the current peer, and go on to the next one if it will not do. */
    method RingTurn(g: Group, now: int, ghost r0: Req, ghost peers0: Peers, ghost x: nat) returns (found: bool)
      requires g.Valid() && Sane(r, |g.peers|, 0) && r.tries > 0
      requires r0.current < |peers0| && x < r0.tries <= |peers0| && InRing(r0, peers0, now, x, r, g.peers)
      modifies this, g
      ensures g.Valid() && SameGroup(old(g.peers), g.peers) && Sane(r, |g.peers|, 0)
      ensures found <==> FirstInRing(r0, peers0, now, 0) == x
      ensures if found then r == old(r) && g.peers == old(g.peers)[r.current := Examine(old(g.peers)[r.current], now).0]
              else InRing(r0, peers0, now, x + 1, r, g.peers) && old(r.tries) <= r.tries + 1
    {
      RingStep(r0, peers0, now, x, r, g.peers);
      found := TryCurrent(g, now);
      if !found {
        r := r.(current := if r.current + 1 >= |g.peers| then 0 else r.current + 1);
      }
    }

    /** Later tries: the peers one after the other. */
    method NextTry(g: Group, now: int) returns (found: bool)
      requires g.Valid() && Sane(r, |g.peers|, 0) && 0 < r.tries <= |g.peers|
      modifies this, g
      ensures g.Valid() && SameGroup(old(g.peers), g.peers) && Sane(r, |g.peers|, 0)
      ensures var x := FirstInRing(old(r), old(g.peers), now, 0);
        && (found <==> x < old(r.tries))
        && var (q, peers) := Passed(old(r), old(g.peers), now, x);
        && r == q && g.peers == if found then peers[r.current := Examine(peers[r.current], now).0] else peers
    {
      ghost var r0, peers0, x := r, g.peers, 0;
      var i := r.tries;
      while true
        invariant g.Valid() && SameGroup(peers0, g.peers) && Sane(r, |g.peers|, 0) && 0 < i <= r.tries
        invariant x + i == r0.tries <= |peers0| && InRing(r0, peers0, now, x, r, g.peers)
        decreases i
      {
        found := RingTurn(g, now, r0, peers0, x);
        if found {
          return;
        }
        i, x := i - 1, x + 1;
        if r.tries == 0 || i == 0 {
          return;
        }
      }
    }

    /** ngx_http_upstream_get_round_robin_peer.  The first try gives the first peer of those that the weights choose, one
      * after the other, which will do; a later try the first in the ring, from the current peer on.  There is none in
      * as many looks as there are tries left exactly if the answer is Busy. */
    method Get(g: Group, now: int) returns (rc: Rc, ghost log: seq<Look>)
      requires g.Valid() && Sane(r, |g.peers|, 0) && r.tries > 0
      modifies this, g
      ensures g.Valid() && SameGroup(old(g.peers), g.peers)
      ensures rc == Ok ==> Sane(r, |g.peers|, 1) && Given(old(r), r, g.peers)
      ensures rc == Busy ==> Sane(r, |g.peers|, 0)
      ensures old(r.tries) < |g.peers| ==> GivesInRing(old(r), old(g.peers), now, rc, r, g.peers)
      ensures old(r.tries) == |g.peers| ==> GivesByWeight(old(r), old(g.peers), now, log, rc, r, g.peers)
      ensures old(r.tries) == |g.peers| && Untroubled(old(r), old(g.peers)) ==>
        rc == Ok && Selects(old(g.peers), r.current, g.peers)
    {
      if r.tries == |g.peers| {
        rc, log := GetFirst(g, now);
      } else {
        rc := GetNext(g, now);
        log := [];
      }
    }

    /** ... for a first try. */
    method GetFirst(g: Group, now: int) returns (rc: Rc, ghost log: seq<Look>)
      requires g.Valid() && Sane(r, |g.peers|, 0) && r.tries > 0
      modifies this, g
      ensures g.Valid() && SameGroup(old(g.peers), g.peers)
      ensures rc == Ok ==> Sane(r, |g.peers|, 1) && Given(old(r), r, g.peers)
      ensures rc == Busy ==> Sane(r, |g.peers|, 0)
      ensures GivesByWeight(old(r), old(g.peers), now, log, rc, r, g.peers)
      ensures Untroubled(old(r), old(g.peers)) ==> rc == Ok && Selects(old(g.peers), r.current, g.peers)
    {
      ghost var r0, peers0 := r, g.peers;
      var found;
      found, log := FirstTry(g, now);
      if Untroubled(r0, peers0) {
        UntroubledLook(r0, peers0, now, log, r, g.peers);
      }
      ghost var r1, peers1 := r, g.peers;
      rc := Conclude(g, found);
      FirstTryGives(r0, peers0, now, log, found, r1, peers1, rc, r, g.peers);
    }

    /** ... for a later one. */
    method GetNext(g: Group, now: int) returns (rc: Rc)
      requires g.Valid() && Sane(r, |g.peers|, 0) && 0 < r.tries <= |g.peers|
      modifies this, g
      ensures g.Valid() && SameGroup(old(g.peers), g.peers)
      ensures rc == Ok ==> Sane(r, |g.peers|, 1) && Given(old(r), r, g.peers)
      ensures rc == Busy ==> Sane(r, |g.peers|, 0)
      ensures GivesInRing(old(r), old(g.peers), now, rc, r, g.peers)
    {
      ghost var r0, peers0 := r, g.peers;
      var found := NextTry(g, now);
      ghost var r1, peers1 := r, g.peers;
      rc := Conclude(g, found);
      NextTryGives(r0, peers0, now, found, r1, peers1, rc, r, g.peers);
    }

    /** The peer found is charged with one unit of weight; without one, all failures are forgotten. */
    method Conclude(g: Group, found: bool) returns (rc: Rc)
      requires g.Valid() && Sane(r, |g.peers|, 0)
      modifies this, g
      ensures g.Valid() && SameGroup(old(g.peers), g.peers) && Sane(r, |g.peers|, if found then 1 else 0)
      ensures Answers(found, old(r), old(g.peers), rc, r, g.peers)
    {
      if !found {
        g.ForgetFailures();
        return Busy;
      }
      var k := r.current;
      g.peers := Spend(g.peers, k);
      r := r.(tried := r.tried + {k});
      return Ok;
    }

    /** ngx_http_upstream_free_round_robin_peer */
    method Free(g: Group, state: State, now: int)
      requires g.Valid() && Sane(r, |g.peers|, 1)
      modifies this, g
      ensures g.Valid() && SameGroup(old(g.peers), g.peers) && Sane(r, |g.peers|, 0)
      ensures if state == Good && old(r.tries) == 0 then r == old(r) else
        && r.tries == (if old(r.tries) == 0 then 0 else old(r.tries) - 1) && r.tried == old(r.tried)
        && r.current == if old(r.current) + 1 == |g.peers| then 0 else old(r.current) + 1
      ensures g.peers == if state != Failed then old(g.peers)
                         else old(g.peers)[old(r.current) := Blamed(old(g.peers)[old(r.current)], now)]
    {
      TriedSize(r, |g.peers|);
      if state == Good && r.tries == 0 {
        return;
      }
      if state == Failed {
        g.Blame(r.current, now);
      }
      r := r.(current := if r.current + 1 >= |g.peers| then 0 else r.current + 1);
      if r.tries > 0 {
        r := r.(tries := r.tries - 1);
      }
    }

    /** What came before: the turns so far, the last of which left the request as it is. */
    ghost predicate Trying(g: Group, ts: seq<Turn>)
      reads this, g
    {
      && g.Valid() && Sane(r, |g.peers|, 0) && Turns(ts, g.peers)
      && r == if ts == [] then Req(|g.peers|, {}, 0) else ts[|ts| - 1].after
    }

    /** The request gives back the peer it was given. */
    method EndTurn(g: Group, v: Visit, ghost ts: seq<Turn>, ghost had: Req) returns (ghost ts': seq<Turn>)
      requires g.Valid() && Sane(r, |g.peers|, 1) && Turns(ts, g.peers) && Given(had, r, g.peers)
      requires had == if ts == [] then Req(|g.peers|, {}, 0) else ts[|ts| - 1].after
      modifies this, g
      ensures Trying(g, ts') && SameGroup(old(g.peers), g.peers) && |ts'| == |ts| + 1
      ensures r.tries == if old(r.tries) == 0 then 0 else old(r.tries) - 1
    {
      ghost var given, peers := r, g.peers;
      Free(g, StateAfter(v.end), v.now);
      ts' := ts + [Turn(had, given, r)];
      OneTurn(ts', peers);
      TurnsFrame(ts', peers, g.peers);
    }

    /** One attempt: take a peer, use it and give it back; Busy if there is none. */
    method Attempt(g: Group, v: Visit, ghost ts: seq<Turn>) returns (rc: Rc, ghost ts': seq<Turn>)
      requires Trying(g, ts) && r.tries > 0 && SameGroup(g.peers, v.peers) && Bounded(v.peers)
      modifies this, g
      ensures g.Valid() && SameGroup(old(g.peers), g.peers) && Sane(r, |g.peers|, 0) && Turns(ts', g.peers)
      ensures if rc == Ok then Trying(g, ts') && |ts'| == |ts| + 1 else ts' == ts
      ensures rc == Ok ==> r.tries < old(r.tries)
    {
      TurnsFrame(ts, g.peers, v.peers);
      g.peers := v.peers;
      ghost var had := r;
      ghost var log;
      rc, log := Get(g, v.now);
      TurnsFrame(ts, v.peers, g.peers);
      ts' := ts;
      if rc == Ok {
        ts' := EndTurn(g, v, ts, had);
      }
    }

    /** ngx_http_upstream_connect and ngx_http_upstream_next, until the request is finalized: try again while there are
      * tries left.  Other requests may do anything to the peers before every attempt, and `env` says what became of
      * each. */
    method Serve(g: Group, env: nat -> Visit) returns (out: Outcome, ghost ts: seq<Turn>)
      requires g.Valid() && r == Req(|g.peers|, {}, 0)
      requires forall k: nat :: SameGroup(g.peers, env(k).peers) && Bounded(env(k).peers)
      modifies this, g
      ensures g.Valid() && SameGroup(old(g.peers), g.peers) && Turns(ts, g.peers) && |ts| <= |g.peers|
      ensures forall k: nat | k < |ts| - 1 :: env(k).end.Again?
      ensures out == Served || out == Refused ==> |ts| > 0 && env(|ts| - 1).end == if out == Served then Fine else Final
      ensures out == Exhausted ==> |ts| > 0 && env(|ts| - 1).end.Again? && r.tries == 0
      ensures out == NoLive ==> forall k: nat | k < |ts| :: env(k).end.Again?
    {
      ts := [];
      var k := 0;
      ghost var first := g.peers;
      while true
        invariant Trying(g, ts) && SameGroup(first, g.peers) && r.tries > 0 && k == |ts|
        invariant forall j: nat | j < k :: env(j).end.Again?
        decreases r.tries
      {
        var v := env(k);
        var rc;
        rc, ts := Attempt(g, v, ts);
        RetryDiscipline(ts, g.peers);
        if rc == Busy {
          out := NoLive;
          break;
        }
        if v.end == Fine {
          return Served, ts;
        }
        if r.tries == 0 || v.end == Final {
          out := if v.end == Final then Refused else Exhausted;
          break;
        }
        k := k + 1;
      }
      Free(g, Good, env(k).now);
      RetryDiscipline(ts, g.peers);
    }
  }

  lemma RefreshedKeeps(peers: Peers, peers': Peers)
    requires Refreshed(peers, peers')
    ensures SameGroup(peers, peers')
  {
  }

  // ---------------------------------------------------------------- retries

  /** A request gets a peer, uses it and gives it back to try another. */
  datatype Turn = Turn(before: Req, given: Req, after: Req)

  /** The peers may change between and during turns, but not their number and who is down. */
  ghost predicate TurnAt(ts: seq<Turn>, k: nat, peers: Peers)
    requires k < |ts|
  {
    && Given(ts[k].before, ts[k].given, peers) && ts[k].given.tried <= Below(|peers|)
    && ts[k].after.tried == ts[k].given.tried
    && ts[k].before == if k == 0 then Req(|peers|, {}, 0) else ts[k - 1].after
  }

  ghost predicate Turns(ts: seq<Turn>, peers: Peers) {
    forall k: nat | k < |ts| :: TurnAt(ts, k, peers)
  }

  /** Turns depend on nothing that requests change about the peers. */
  lemma TurnsFrame(ts: seq<Turn>, peers: Peers, peers': Peers)
    requires Turns(ts, peers) && SameGroup(peers, peers')
    ensures Turns(ts, peers')
  {
    forall k: nat | k < |ts|
      ensures TurnAt(ts, k, peers')
    {
      assert TurnAt(ts, k, peers);
    }
  }

  lemma OneTurn(ts: seq<Turn>, peers: Peers)
    requires ts != [] && Turns(ts[..|ts| - 1], peers) && TurnAt(ts, |ts| - 1, peers)
    ensures Turns(ts, peers)
  {
    forall k: nat | k < |ts|
      ensures TurnAt(ts, k, peers)
    {
      if k < |ts| - 1 {
        assert TurnAt(ts[..|ts| - 1], k, peers);
      }
    }
  }

  /** What has been tried stays tried. */
  lemma {:induction false} TriedGrows(ts: seq<Turn>, peers: Peers, j: nat, k: nat)
    requires Turns(ts, peers) && j < k < |ts|
    ensures ts[j].given.current in ts[k].before.tried
    decreases k
  {
    assert TurnAt(ts, k, peers) && TurnAt(ts, k - 1, peers);
    if j < k - 1 {
      TriedGrows(ts, peers, j, k - 1);
    }
  }

  lemma {:induction false} TriedCounts(ts: seq<Turn>, peers: Peers, k: nat)
    requires Turns(ts, peers) && k < |ts|
    ensures |ts[k].given.tried| >= k + 1
    decreases k
  {
    assert TurnAt(ts, k, peers);
    var t := ts[k];
    if k > 0 {
      TriedCounts(ts, peers, k - 1);
      assert TurnAt(ts, k - 1, peers);
    }
    SubsetSize(t.before.tried + {t.given.current}, t.given.tried);
  }

  /** No request is given a peer twice or one that is down, and it has at most as many turns as there are peers. */
  lemma RetryDiscipline(ts: seq<Turn>, peers: Peers)
    requires Turns(ts, peers)
    ensures forall j, k | 0 <= j < k < |ts| :: ts[j].given.current != ts[k].given.current
    ensures forall k | 0 <= k < |ts| :: ts[k].given.current < |peers| && !peers[ts[k].given.current].down
    ensures |ts| <= |peers|
  {
    forall j, k | 0 <= j < k < |ts|
      ensures ts[j].given.current != ts[k].given.current
    {
      TriedGrows(ts, peers, j, k);
      assert TurnAt(ts, k, peers);
    }
    forall k | 0 <= k < |ts|
      ensures ts[k].given.current < |peers| && !peers[ts[k].given.current].down
    {
      assert TurnAt(ts, k, peers);
    }
    if |ts| > 0 {
      var k := |ts| - 1;
      TriedCounts(ts, peers, k);
      assert TurnAt(ts, k, peers);
      TriedSize(ts[k].given, |peers|);
    }
  }
}
