/** The loop shared by the resumable line parsers, and what makes them resumable: the local variables of
  * the loop are loaded from the request at the start of a call and stored again where the call ends.
  */
module Automaton {
  import opened Bytes

  /** One turn: carry on, leave by a `done` label with this octet, or return an error.  A turn that
    * returns an error has written to the request before it does. */
  datatype Turn<S, E> = Go(state: S) | Done(state: S) | Reject(error: E, state: S)

  /** A turn sees the octets before the current one, because a parser may look back at them. */
  type Step<!S, !E> = (S, seq<byte>, byte) -> Turn<S, E>

  /** How a call ends, with the variables of the loop and the position after the last octet seen;
    * `Again` means that all input was consumed and more is needed. */
  datatype Result<S, E> = Again(state: S, pos: nat) | Complete(state: S, pos: nat) | Failed(error: E, state: S, pos: nat)

  /** The meaning of one call's loop on the octets of `buf` from offset p on. */
  ghost function Run<S, E>(step: Step<S, E>, s: S, buf: seq<byte>, p: nat): (r: Result<S, E>)
    requires p <= |buf|
    ensures p <= r.pos <= |buf| && (r.Again? ==> r.pos == |buf|)
    decreases |buf| - p
  {
    if p == |buf| then Again(s, p)
    else
      match step(s, buf[..p], buf[p])
      case Go(s') => Run(step, s', buf, p + 1)
      case Done(s') => Complete(s', p + 1)
      case Reject(e, s') => Failed(e, s', p + 1)
  }

  /** The parser loop from b->pos to b->last. */
  method Drive<S, E>(step: Step<S, E>, start: S, buf: seq<byte>, pos: nat) returns (r: Result<S, E>)
    requires pos <= |buf|
    ensures r == Run(step, start, buf, pos)
  {
    var s, p := start, pos;
    while p < |buf|
      invariant pos <= p <= |buf|
      invariant Run(step, s, buf, p) == Run(step, start, buf, pos)
    {
      match step(s, buf[..p], buf[p]) {
        case Go(s') => s := s';
        case Done(s') => return Complete(s', p + 1);
        case Reject(e, s') => return Failed(e, s', p + 1);
      }
      p := p + 1;
    }
    r := Again(s, p);
  }

  /** A run on a prefix consumes it entirely, or ends exactly as a run on the whole input would. */
  lemma {:induction false} RunOnPrefix<S, E>(step: Step<S, E>, s: S, buf: seq<byte>, p: nat, cut: nat)
    requires p <= cut <= |buf|
    ensures var part, whole := Run(step, s, buf[..cut], p), Run(step, s, buf, p);
      if part.Again? then whole == Run(step, part.state, buf, cut) && (whole.Again? || cut < whole.pos)
      else whole == part && whole.pos <= cut
    decreases cut - p
  {
    if p < cut {
      assert buf[..cut][..p] == buf[..p];
      match step(s, buf[..p], buf[p]) {
        case Go(s') => RunOnPrefix(step, s', buf, p + 1, cut);
        case Done(s') =>
        case Reject(e, s') =>
      }
    } else {
      RunAdvances(step, s, buf, p);
    }
  }

  /** A run that does not ask for more consumes an octet. */
  lemma RunAdvances<S, E>(step: Step<S, E>, s: S, buf: seq<byte>, p: nat)
    requires p <= |buf|
    ensures var r := Run(step, s, buf, p); r.Again? || p < r.pos
  {
  }

  // ---------------------------------------------------------------- calls, and what they keep

  /** A parser: `load` gives the loop its variables from the memory M that outlives a call, `from` is
    * b->pos there, and `store` is what the exit taken writes back. */
  datatype Parser<!M, !S, !E> = Parser(step: Step<S, E>, load: M -> S, from: M -> nat, store: (M, Result<S, E>) -> M)

  /** Asking for more saves everything: the next call loads what this one had, it does not matter what
    * was saved before, and a call that sees nothing changes nothing. */
  ghost predicate SavesAll<M(!new), S(!new), E(!new)>(parser: Parser<M, S, E>) {
    && (forall m, s, p: nat :: parser.load(parser.store(m, Again(s, p))) == s && parser.from(parser.store(m, Again(s, p))) == p)
    && (forall m, m', s, p: nat :: parser.store(m, Again(s, p)) == parser.store(m', Again(s, p)))
    && (forall m :: parser.store(m, Again(parser.load(m), parser.from(m))) == m)
  }

  /** One call on the part of the buffer filled so far. */
  ghost function Call<M, S, E>(parser: Parser<M, S, E>, m: M, buf: seq<byte>): (Result<S, E>, M)
    requires parser.from(m) <= |buf|
  {
    var r := Run(parser.step, parser.load(m), buf, parser.from(m));
    (r, parser.store(m, r))
  }

  /** Calling the parser as input arrives, until it no longer asks for more.  `cuts` are the fill levels
    * of the buffer at each call before the last. */
  ghost function Calls<M(!new), S(!new), E(!new)>(parser: Parser<M, S, E>, m: M, buf: seq<byte>, cuts: seq<nat>): (Result<S, E>, M)
    requires SavesAll(parser) && Growing(parser.from(m), cuts, |buf|)
    decreases |cuts|
  {
    if cuts == [] then Call(parser, m, buf)
    else
      var (r, m') := Call(parser, m, buf[..cuts[0]]);
      if r.Again? then Calls(parser, m', buf, cuts[1..]) else (r, m')
  }

  ghost predicate Growing(p: nat, cuts: seq<nat>, last: nat)
    ensures Growing(p, cuts, last) ==> p <= last
    decreases |cuts|
  {
    if cuts == [] then p <= last else p <= cuts[0] <= last && Growing(cuts[0], cuts[1..], last)
  }

  /** Where the last of the calls that decides the result starts: the last fill level before `stop`. */
  ghost function LastCut(p: nat, cuts: seq<nat>, stop: nat): nat
    decreases |cuts|
  {
    if cuts == [] || cuts[0] >= stop then p else LastCut(cuts[0], cuts[1..], stop)
  }

  lemma {:induction false} LastCutInRange(p: nat, cuts: seq<nat>, last: nat, stop: nat)
    requires Growing(p, cuts, last) && p <= stop <= last
    ensures p <= LastCut(p, cuts, stop) <= stop && (p < stop ==> LastCut(p, cuts, stop) < stop)
    decreases |cuts|
  {
    if cuts != [] && cuts[0] < stop {
      LastCutInRange(cuts[0], cuts[1..], last, stop);
    }
  }

  /** The memory when the call that decides the result starts. */
  ghost function Before<M, S, E>(parser: Parser<M, S, E>, m: M, buf: seq<byte>, cuts: seq<nat>): M
    requires Growing(parser.from(m), cuts, |buf|)
  {
    var p := parser.from(m);
    var whole := Run(parser.step, parser.load(m), buf, p);
    LastCutInRange(p, cuts, |buf|, whole.pos);
    Call(parser, m, buf[..LastCut(p, cuts, whole.pos)]).1
  }

  /** The deciding call finds what a call on the input before it saves when it asks for more. */
  lemma BeforeIsSaved<M(!new), S(!new), E(!new)>(parser: Parser<M, S, E>, m: M, buf: seq<byte>, cuts: seq<nat>) returns (s: S)
    requires SavesAll(parser) && Growing(parser.from(m), cuts, |buf|)
    ensures var p, one := parser.from(m), Call(parser, m, buf).0;
      var cut := LastCut(p, cuts, one.pos);
      && p <= cut <= |buf| && Run(parser.step, parser.load(m), buf[..cut], p) == Again(s, cut)
      && Before(parser, m, buf, cuts) == parser.store(m, Again(s, cut))
      && one == Run(parser.step, s, buf, cut)
  {
    var p, one := parser.from(m), Call(parser, m, buf).0;
    LastCutInRange(p, cuts, |buf|, one.pos);
    RunAdvances(parser.step, parser.load(m), buf, p);
    RunOnPrefix(parser.step, parser.load(m), buf, p, LastCut(p, cuts, one.pos));
    s := Run(parser.step, parser.load(m), buf[..LastCut(p, cuts, one.pos)], p).state;
  }

  /** Waiting for one more fill level does not change what the deciding call finds. */
  lemma BeforeLater<M(!new), S(!new), E(!new)>(parser: Parser<M, S, E>, m: M, buf: seq<byte>, cuts: seq<nat>, m': M)
    requires SavesAll(parser) && cuts != [] && Growing(parser.from(m), cuts, |buf|)
    requires Call(parser, m, buf[..cuts[0]]).0.Again? && Call(parser, m, buf[..cuts[0]]).1 == m'
    requires cuts[0] < Call(parser, m, buf).0.pos && Call(parser, m', buf).0 == Call(parser, m, buf).0
    ensures Before(parser, m', buf, cuts[1..]) == Before(parser, m, buf, cuts)
  {
    var p, cut, stop := parser.from(m), cuts[0], Call(parser, m, buf).0.pos;
    var c := LastCut(cut, cuts[1..], stop);
    LastCutInRange(cut, cuts[1..], |buf|, stop);
    RunOnPrefix(parser.step, parser.load(m), buf, p, c);
    RunOnPrefix(parser.step, parser.load(m), buf[..c], p, cut);
    assert buf[..c][..cut] == buf[..cut];
  }

  /** However the input is cut into pieces, the calls end as a single call does; only what the last call
    * does not store is left from the call before it. */
  lemma {:induction false} CallsResume<M(!new), S(!new), E(!new)>(parser: Parser<M, S, E>, m: M, buf: seq<byte>, cuts: seq<nat>)
    requires SavesAll(parser) && Growing(parser.from(m), cuts, |buf|)
    ensures var one := Call(parser, m, buf).0;
      Calls(parser, m, buf, cuts) == (one, parser.store(Before(parser, m, buf, cuts), one))
    decreases |cuts|
  {
    var p, one := parser.from(m), Call(parser, m, buf).0;
    if cuts != [] {
      var cut := cuts[0];
      var (part, m') := Call(parser, m, buf[..cut]);
      RunOnPrefix(parser.step, parser.load(m), buf, p, cut);
      if part.Again? {
        CallsResume(parser, m', buf, cuts[1..]);
        if cut < one.pos {
          BeforeLater(parser, m, buf, cuts, m');
        }
      }
    }
  }

  /** Induction over a run: a property of state and octets seen that every turn keeps holds at the
    * end, and so does whatever the final turn establishes. */
  lemma {:induction false} RunKeeps<S, E>(step: Step<S, E>, keeps: (S, seq<byte>) -> bool, ends: (S, seq<byte>) -> bool,
                                          s: S, buf: seq<byte>, p: nat)
    requires p <= |buf| && keeps(s, buf[..p])
    requires forall t: S, seen: seq<byte>, ch: byte :: keeps(t, seen) ==>
      match step(t, seen, ch)
      case Go(t') => keeps(t', seen + [ch])
      case Done(t') => ends(t', seen + [ch])
      case Reject(e, t') => true
    ensures match Run(step, s, buf, p)
      case Again(s', p') => keeps(s', buf)
      case Complete(s', p') => p' <= |buf| && ends(s', buf[..p'])
      case Failed(e, s', p') => true
    decreases |buf| - p
  {
    if p == |buf| {
      assert buf[..p] == buf;
    } else {
      assert buf[..p] + [buf[p]] == buf[..p + 1];
      match step(s, buf[..p], buf[p]) {
        case Go(s') => RunKeeps(step, keeps, ends, s', buf, p + 1);
        case Done(s') =>
        case Reject(e, t') =>
      }
    }
  }

  /** ... and where a run is rejected, whatever the rejecting turn establishes about the octets up to there. */
  lemma {:induction false} RunRejects<S, E>(step: Step<S, E>, keeps: (S, seq<byte>) -> bool, rejects: seq<byte> -> bool,
                                            s: S, buf: seq<byte>, p: nat)
    requires p <= |buf| && keeps(s, buf[..p])
    requires forall t: S, seen: seq<byte>, ch: byte :: keeps(t, seen) ==>
      match step(t, seen, ch)
      case Go(t') => keeps(t', seen + [ch])
      case Done(t') => true
      case Reject(e, t') => rejects(seen + [ch])
    ensures var r := Run(step, s, buf, p); r.Failed? ==> rejects(buf[..r.pos])
    decreases |buf| - p
  {
    if p < |buf| {
      assert buf[..p] + [buf[p]] == buf[..p + 1];
      match step(s, buf[..p], buf[p]) {
        case Go(s') => RunRejects(step, keeps, rejects, s', buf, p + 1);
        case Done(s') =>
        case Reject(e, t') =>
      }
    }
  }
}
