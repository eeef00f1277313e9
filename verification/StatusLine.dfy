/** The upstream status line automaton (src/http/ngx_http_parse.c, ngx_http_parse_status_line). */
module StatusLine {
  import opened Bytes
  import opened Automaton

  datatype State =
    | Start | H | HT | HTT | HTTP | FirstMajorDigit | MajorDigit | FirstMinorDigit | MinorDigit
    | Code | SpaceAfterStatus | StatusText | AlmostDone

  /** r->state and the ngx_http_status_t structure. */
  datatype Status = Status(state: State, code: nat, count: nat, start: Option<nat>, end: Option<nat>) {
    function To(s: State): Status {
      this.(state := s)
    }
  }

  const BLANK: Status := Status(Start, 0, 0, None, None)

  datatype Error = NotHttp

  type StatusTurn = Turn<Status, Error>

  function Expect(r: Status, ch: byte, wanted: byte, next: State): StatusTurn {
    if ch == wanted then Go(r.To(next)) else Reject(NotHttp, r)
  }

  function StepVersion(r: Status, ch: byte): StatusTurn {
    match r.state
    case Start => Expect(r, ch, 72, H)
    case H => Expect(r, ch, 84, HT)
    case HT => Expect(r, ch, 84, HTT)
    case HTT => Expect(r, ch, 80, HTTP)
    case HTTP => Expect(r, ch, SLASH, FirstMajorDigit)
    case FirstMajorDigit => if IsDigit(ch) && ch != ZERO then Go(r.To(MajorDigit)) else Reject(NotHttp, r)
    case MajorDigit => if ch == DOT then Go(r.To(FirstMinorDigit)) else if IsDigit(ch) then Go(r) else Reject(NotHttp, r)
    case FirstMinorDigit => if IsDigit(ch) then Go(r.To(MinorDigit)) else Reject(NotHttp, r)
    case _ => if ch == SPACE then Go(r.To(Code)) else if IsDigit(ch) then Go(r) else Reject(NotHttp, r)
  }

  /** The three digits of the code; spaces are skipped, also between digits. */
  function StepCode(r: Status, p: nat, ch: byte): StatusTurn {
    if ch == SPACE then Go(r)
    else if !IsDigit(ch) then Reject(NotHttp, r)
    else
      var r := r.(code := r.code * 10 + (ch - ZERO), count := r.count + 1);
      if r.count == 3 then Go(r.(start := if p >= 2 then Some(p - 2) else None, state := SpaceAfterStatus)) else Go(r)
  }

  /** Label `done`. */
  function Conclude(r: Status, p: nat): StatusTurn {
    Done(r.(end := if r.end.None? then Some(p) else r.end, state := Start))
  }

  function StepText(r: Status, p: nat, ch: byte): StatusTurn {
    match r.state
    case SpaceAfterStatus =>
      if ch == SPACE || ch == DOT then Go(r.To(StatusText))
      else if ch == CR then Go(r.To(AlmostDone))
      else if ch == LF then Conclude(r, p)
      else Reject(NotHttp, r)
    case StatusText =>
      if ch == CR then Go(r.To(AlmostDone)) else if ch == LF then Conclude(r, p) else Go(r)
    case _ =>
      var r := r.(end := if p > 0 then Some(p - 1) else None);
      if ch == LF then Conclude(r, p) else Reject(NotHttp, r)
  }

  predicate AfterCode(s: State) {
    s.SpaceAfterStatus? || s.StatusText? || s.AlmostDone?
  }

  /** One turn of the loop. */
  function StepStatus(r: Status, seen: seq<byte>, ch: byte): StatusTurn {
    if r.state.Code? then StepCode(r, |seen|, ch)
    else if AfterCode(r.state) then StepText(r, |seen|, ch)
    else StepVersion(r, ch)
  }

  // ---------------------------------------------------------------- calls

  /** What outlives a call: r->state, the status structure and b->pos. */
  datatype Memory = Memory(status: Status, pos: nat)

  datatype Code = NgxAgain | NgxOk | NgxError

  function CodeOf(r: Result<Status, Error>): Code {
    match r
    case Again(_, _) => NgxAgain
    case Complete(_, _) => NgxOk
    case Failed(_, _, _) => NgxError
  }

  function Load(m: Memory): Status {
    m.status
  }

  function From(m: Memory): nat {
    m.pos
  }

  /** The structure is written as the loop runs; the local `state` and the position are stored only
    * where the call does not fail. */
  function Store(m: Memory, r: Result<Status, Error>): Memory {
    match r
    case Again(s, p) => Memory(s, p)
    case Complete(s, p) => Memory(s.To(Start), p)
    case Failed(_, s, _) => Memory(s.To(m.status.state), m.pos)
  }

  const PARSER: Parser<Memory, Status, Error> := Parser(StepStatus, Load, From, Store)

  class Upstream {
    var status: Status
    var pos: nat

    function Kept(): Memory
      reads this
    {
      Memory(status, pos)
    }

    /** ngx_http_parse_status_line on the part of `buf` filled so far, from b->pos on. */
    method Parse(buf: seq<byte>) returns (code: Code)
      requires pos <= |buf|
      modifies this
      ensures var (r, m) := Call(PARSER, old(Kept()), buf); code == CodeOf(r) && Kept() == m
    {
      var r := Drive(StepStatus, status, buf, pos);
      match r {
        case Again(s, p) => status, pos := s, p;
        case Complete(s, p) => status, pos := s.To(Start), p;
        case Failed(_, s, _) => status := s.To(status.state);
      }
      code := CodeOf(r);
    }

    /** The caller's loop: it reads more and calls again as long as it is asked to. */
    method ParseArriving(buf: seq<byte>, cuts: seq<nat>) returns (code: Code)
      requires Growing(pos, cuts, |buf|)
      modifies this
      ensures SavesAll(PARSER)
      ensures var (r, m) := Calls(PARSER, old(Kept()), buf, cuts); code == CodeOf(r) && Kept() == m
      decreases |cuts|
    {
      if cuts == [] {
        code := Parse(buf);
      } else {
        code := Parse(buf[..cuts[0]]);
        if code == NgxAgain {
          code := ParseArriving(buf, cuts[1..]);
        }
      }
    }
  }

  /** However the status line arrives, the return code and everything the structure records are those of
    * a single call; so are the position and the saved state, unless the line is rejected.  Then they are
    * left where the last call before it stopped. */
  lemma StatusResumes(m: Memory, buf: seq<byte>, cuts: seq<nat>)
    requires Growing(m.pos, cuts, |buf|)
    ensures SavesAll(PARSER)
    ensures var (one, first), (many, last) := Call(PARSER, m, buf), Calls(PARSER, m, buf, cuts);
      && CodeOf(many) == CodeOf(one)
      && last.status.To(Start) == first.status.To(Start)
      && (!one.Failed? ==> last == first)
      && (one.Failed? ==> first.pos == m.pos && last.pos == LastCut(m.pos, cuts, one.pos))
  {
    CallsResume(PARSER, m, buf, cuts);
    var s := BeforeIsSaved(PARSER, m, buf, cuts);
  }

  // ---------------------------------------------------------------- what is recorded

  /** The decimal number spelt by the digits of s, other octets skipped. */
  function Number(s: seq<byte>): nat {
    if s == [] then 0
    else
      var ch := s[|s| - 1];
      if IsDigit(ch) then Number(s[..|s| - 1]) * 10 + (ch - ZERO) else Number(s[..|s| - 1])
  }

  function Digits(s: seq<byte>): nat {
    if s == [] then 0 else Digits(s[..|s| - 1]) + if IsDigit(s[|s| - 1]) then 1 else 0
  }

  /** The code was read from seen[from..to]: three digits, the last one at its end. */
  ghost predicate ReadFrom(r: Status, seen: seq<byte>, from: nat, to: nat) {
    && from < to <= |seen| && to >= 3
    && r.code == Number(seen[from..to]) && Digits(seen[from..to]) == 3
    && IsDigit(seen[to - 1]) && r.start == Some(to - 3)
    && forall i | from <= i < to :: IsDigit(seen[i]) || seen[i] == SPACE
  }

  ghost predicate Tracks(r: Status, seen: seq<byte>) {
    if r.state.Code? then
      r.end.None? && |seen| >= 2 &&
      exists from: nat :: Reading(r, seen, from)
    else if AfterCode(r.state) then
      r.end.None? && exists from: nat, to: nat :: ReadFrom(r, seen, from, to) && (r.state.AlmostDone? ==> to < |seen|)
    else r.code == 0 && r.count == 0 && r.end.None? && (r.state.MinorDigit? ==> |seen| >= 1)
  }

  /** Fewer than three digits so far. */
  ghost predicate Reading(r: Status, seen: seq<byte>, from: nat) {
    && from <= |seen| && r.count < 3
    && r.code == Number(seen[from..]) && r.count == Digits(seen[from..])
    && forall i | from <= i < |seen| :: IsDigit(seen[i]) || seen[i] == SPACE
  }

  ghost predicate Recorded(r: Status, seen: seq<byte>) {
    && r.end.Some? && exists from: nat, to: nat :: ReadFrom(r, seen, from, to) && to <= r.end.value < |seen|
  }

  ghost predicate TurnRecords(t: StatusTurn, seen: seq<byte>) {
    match t
    case Go(r) => Tracks(r, seen)
    case Done(r) => Recorded(r, seen)
    case Reject(_, _) => true
  }

  lemma NumberGrows(s: seq<byte>, ch: byte)
    ensures Number(s + [ch]) == if IsDigit(ch) then Number(s) * 10 + (ch - ZERO) else Number(s)
    ensures Digits(s + [ch]) == Digits(s) + if IsDigit(ch) then 1 else 0
  {
    assert (s + [ch])[..|s|] == s;
  }

  lemma ReadLater(r: Status, seen: seq<byte>, ch: byte, from: nat, to: nat)
    requires ReadFrom(r, seen, from, to)
    ensures ReadFrom(r, seen + [ch], from, to)
  {
    assert (seen + [ch])[from..to] == seen[from..to];
  }

  lemma SpanGrows(seen: seq<byte>, ch: byte, from: nat)
    requires from <= |seen|
    ensures (seen + [ch])[from..] == seen[from..] + [ch] == (seen + [ch])[from..|seen| + 1]
  {
  }

  lemma ReadingGoesOn(r: Status, seen: seq<byte>, ch: byte, from: nat, r': Status)
    requires Reading(r, seen, from) && (IsDigit(ch) || ch == SPACE)
    requires r'.code == (if IsDigit(ch) then r.code * 10 + (ch - ZERO) else r.code)
    requires r'.count == (if IsDigit(ch) then r.count + 1 else r.count)
    ensures r'.count < 3 ==> Reading(r', seen + [ch], from)
    ensures r'.count == 3 && |seen| >= 2 && r'.start == Some(|seen| - 2) ==> ReadFrom(r', seen + [ch], from, |seen| + 1)
  {
    SpanGrows(seen, ch, from);
    NumberGrows(seen[from..], ch);
  }

  lemma TrackCode(r: Status, seen: seq<byte>, ch: byte)
    requires r.state.Code? && Tracks(r, seen)
    ensures TurnRecords(StepCode(r, |seen|, ch), seen + [ch])
  {
    var from: nat :| Reading(r, seen, from);
    if IsDigit(ch) || ch == SPACE {
      ReadingGoesOn(r, seen, ch, from, StepCode(r, |seen|, ch).state);
    }
  }

  lemma TrackText(r: Status, seen: seq<byte>, ch: byte)
    requires AfterCode(r.state) && Tracks(r, seen)
    ensures TurnRecords(StepText(r, |seen|, ch), seen + [ch])
  {
    var from: nat, to: nat :| ReadFrom(r, seen, from, to) && (r.state.AlmostDone? ==> to < |seen|);
    ReadLater(r, seen, ch, from, to);
    var t := StepText(r, |seen|, ch);
    if !t.Reject? {
      assert ReadFrom(t.state, seen + [ch], from, to);
    }
  }

  lemma TrackVersion(r: Status, seen: seq<byte>, ch: byte)
    requires !r.state.Code? && !AfterCode(r.state) && Tracks(r, seen)
    ensures TurnRecords(StepVersion(r, ch), seen + [ch])
  {
    var seen' := seen + [ch];
    assert seen'[|seen'|..] == [];
    var t := StepVersion(r, ch);
    if t.Go? && t.state.state.Code? {
      assert Reading(t.state, seen', |seen'|);
    }
  }

  // ---------------------------------------------------------------- the text behind the code

  ghost predicate NoEnd(seen: seq<byte>, a: nat, b: nat) {
    a <= b <= |seen| && forall i | a <= i < b :: seen[i] != CR && seen[i] != LF
  }

  /** The text from `to` on: nothing, or a space or a dot and what follows it in the line. */
  ghost predicate TextLies(seen: seq<byte>, to: nat, end: nat) {
    NoEnd(seen, to, end) && (to < end ==> seen[to] == SPACE || seen[to] == DOT)
  }

  ghost predicate Follows(r: Status, seen: seq<byte>) {
    && r.end.None?
    && (AfterCode(r.state) ==> r.start.Some? && r.start.value + 3 <= |seen|)
    && (r.state.SpaceAfterStatus? ==> r.start == Some(|seen| - 3))
    && (r.state.StatusText? ==> r.start.value + 3 < |seen| && TextLies(seen, r.start.value + 3, |seen|))
    && (r.state.AlmostDone? ==>
          r.start.value + 3 < |seen| && TextLies(seen, r.start.value + 3, |seen| - 1) && seen[|seen| - 1] == CR)
  }

  /** The recorded span is the code and the text, up to the line end. */
  ghost predicate SpanLies(r: Status, seen: seq<byte>) {
    && r.start.Some? && r.end.Some? && r.end.value < |seen| && TextLies(seen, r.start.value + 3, r.end.value)
    && (seen[r.end.value..] == [LF] || seen[r.end.value..] == [CR, LF])
  }

  ghost predicate TurnFollows(t: StatusTurn, seen: seq<byte>) {
    match t
    case Go(r) => Follows(r, seen)
    case Done(r) => SpanLies(r, seen)
    case Reject(_, _) => true
  }

  lemma CodeFollows(r: Status, seen: seq<byte>, ch: byte)
    requires r.state.Code? && r.end.None? && |seen| >= 2
    ensures TurnFollows(StepCode(r, |seen|, ch), seen + [ch])
  {
  }

  lemma TextFollows(r: Status, seen: seq<byte>, ch: byte)
    requires AfterCode(r.state) && Follows(r, seen)
    ensures TurnFollows(StepText(r, |seen|, ch), seen + [ch])
  {
    var seen' := seen + [ch];
    assert seen'[|seen|..] == [ch];
    if r.state.AlmostDone? {
      assert seen'[|seen| - 1..] == [CR, ch];
    }
  }

  lemma VersionFollows(r: Status, seen: seq<byte>, ch: byte)
    requires !r.state.Code? && !AfterCode(r.state) && r.end.None?
    ensures TurnFollows(StepVersion(r, ch), seen + [ch])
  {
  }

  /** For every status line that parses, the code is the number spelt by its three digits, and the recorded span starts
    * two octets before the last of them and ends where the line does. */
  lemma StatusIsRecorded(buf: seq<byte>)
    ensures var end := Run(StepStatus, BLANK, buf, 0);
      && (end.Complete? ==> Recorded(end.state, buf[..end.pos]) && SpanLies(end.state, buf[..end.pos]))
      && (end.Again? ==> Tracks(end.state, buf))
  {
    forall r: Status, seen: seq<byte>, ch: byte | Tracks(r, seen)
      ensures TurnRecords(StepStatus(r, seen, ch), seen + [ch])
    {
      StepTracks(r, seen, ch);
    }
    RunKeeps(StepStatus, (r, seen) => Tracks(r, seen), (r, seen) => Recorded(r, seen), BLANK, buf, 0);
    SpanIsRecorded(buf);
  }

  lemma StepTracks(r: Status, seen: seq<byte>, ch: byte)
    requires Tracks(r, seen)
    ensures TurnRecords(StepStatus(r, seen, ch), seen + [ch])
  {
    if r.state.Code? {
      TrackCode(r, seen, ch);
    } else if AfterCode(r.state) {
      TrackText(r, seen, ch);
    } else {
      TrackVersion(r, seen, ch);
    }
  }

  lemma SpanIsRecorded(buf: seq<byte>)
    ensures var end := Run(StepStatus, BLANK, buf, 0); end.Complete? ==> SpanLies(end.state, buf[..end.pos])
  {
    forall r: Status, seen: seq<byte>, ch: byte | Tracks(r, seen) && Follows(r, seen)
      ensures TurnRecords(StepStatus(r, seen, ch), seen + [ch]) && TurnFollows(StepStatus(r, seen, ch), seen + [ch])
    {
      StepTracks(r, seen, ch);
      if r.state.Code? {
        CodeFollows(r, seen, ch);
      } else if AfterCode(r.state) {
        TextFollows(r, seen, ch);
      } else {
        VersionFollows(r, seen, ch);
      }
    }
    RunKeeps(StepStatus, (r, seen) => Tracks(r, seen) && Follows(r, seen), (r, seen) => SpanLies(r, seen), BLANK, buf, 0);
  }
}
