/** The header line automaton (src/http/ngx_http_parse.c, ngx_http_parse_header_line). */
module HeaderLine {
  import opened Bytes
  import opened Automaton

  datatype State =
    | Start | Name | SpaceBeforeValue | Value | SpaceAfterValue | IgnoreLine | AlmostDone | HeaderAlmostDone

  /** NGX_HTTP_LC_HEADER_LEN: octets of the name that are kept in lower case. */
  const LOWCASE_LEN := 32

  type Copy = c: seq<byte> | |c| == LOWCASE_LEN witness seq(LOWCASE_LEN, _ => NUL)

  /** The index into the copy is masked, so it always lies inside. */
  type Index = i: nat | i < LOWCASE_LEN

  /** Offsets of the name and the value. */
  datatype Spans = Spans(nameStart: nat, nameEnd: nat, start: nat, end: nat)

  /** What is gathered about the name: its hash and a lower-case copy that wraps around. */
  datatype NameCopy = NameCopy(invalid: bool, hash: nat, index: Index, lowcase: Copy)

  /** The variables of the loop: the locals `state`, `hash` and `i`, and the request fields it reads and
    * writes; `underscores` and `upstream` never change. */
  datatype Header = Header(state: State, at: Spans, name: NameCopy, underscores: bool, upstream: bool) {
    function To(s: State): Header {
      this.(state := s)
    }

    /** Whether a line that ends in this state is the empty one that ends the header. */
    predicate Last() {
      state.Start? || state.HeaderAlmostDone?
    }
  }

  datatype Error = InvalidHeader

  type HeaderTurn = Turn<Header, Error>

  /** The `lowcase` table: letters, digits and '-' in lower case, zero for everything else. */
  function Lower(ch: byte): byte {
    if UPPER_A <= ch <= UPPER_Z then ch + 32
    else if LOWER_A <= ch <= LOWER_Z || IsDigit(ch) || ch == MINUS then ch
    else NUL
  }

  /** ngx_hash on a 64-bit ngx_uint_t. */
  function Hash(key: nat, c: byte): nat {
    (key * 31 + c) % 0x1_0000_0000_0000_0000
  }

  /** Append one octet to the hash and to the wrapped lower-case copy. */
  function Add(n: NameCopy, c: byte): NameCopy {
    NameCopy(n.invalid, Hash(n.hash, c), if n.index + 1 == LOWCASE_LEN then 0 else n.index + 1, n.lowcase[n.index := c])
  }

  function Spoil(n: NameCopy): NameCopy {
    n.(invalid := true)
  }

  function StepStart(r: Header, p: nat, ch: byte): HeaderTurn {
    var r := r.(at := r.at.(nameStart := p), name := r.name.(invalid := false));
    if ch == CR then Go(r.(at := r.at.(end := p), state := HeaderAlmostDone))
    else if ch == LF then Done(r.(at := r.at.(end := p)))
    else if Lower(ch) != NUL then
      Go(r.(name := NameCopy(false, Hash(0, Lower(ch)), 1, r.name.lowcase[0 := Lower(ch)]), state := Name))
    else if ch == NUL then Reject(InvalidHeader, r)
    else Go(r.(name := Spoil(r.name), state := Name))
  }

  const HTTP: seq<byte> := [72, 84, 84, 80]

  /** The octets that may end a name; anything else is part of it. */
  function StepName(r: Header, seen: seq<byte>, ch: byte): HeaderTurn {
    var p := |seen|;
    if Lower(ch) != NUL then Go(r.(name := Add(r.name, Lower(ch))))
    else if ch == UNDERSCORE then Go(r.(name := if r.underscores then Add(r.name, ch) else Spoil(r.name)))
    else if ch == COLON then Go(r.(at := r.at.(nameEnd := p), state := SpaceBeforeValue))
    else if ch == CR then Go(r.(at := Spans(r.at.nameStart, p, p, p), state := AlmostDone))
    else if ch == LF then Done(r.(at := Spans(r.at.nameStart, p, p, p)))
    else if ch == SLASH && r.upstream && r.at.nameStart <= p && seen[r.at.nameStart..] == HTTP then Go(r.To(IgnoreLine))
    else if ch == NUL then Reject(InvalidHeader, r)
    else Go(r.(name := Spoil(r.name)))
  }

  /** The value states see only the offsets. */
  function StepValue(r: Header, p: nat, ch: byte): HeaderTurn {
    match r.state
    case SpaceBeforeValue =>
      if ch == SPACE then Go(r)
      else if ch == CR then Go(r.(at := r.at.(start := p, end := p), state := AlmostDone))
      else if ch == LF then Done(r.(at := r.at.(start := p, end := p)))
      else if ch == NUL then Reject(InvalidHeader, r)
      else Go(r.(at := r.at.(start := p), state := Value))
    case Value =>
      var r' := r.(at := r.at.(end := p));
      if ch == SPACE then Go(r'.To(SpaceAfterValue))
      else if ch == CR then Go(r'.To(AlmostDone))
      else if ch == LF then Done(r')
      else if ch == NUL then Reject(InvalidHeader, r)
      else Go(r)
    case _ =>
      if ch == SPACE then Go(r)
      else if ch == CR then Go(r.To(AlmostDone))
      else if ch == LF then Done(r)
      else if ch == NUL then Reject(InvalidHeader, r)
      else Go(r.To(Value))
  }

  function StepEnd(r: Header, ch: byte): HeaderTurn {
    match r.state
    case IgnoreLine => Go(if ch == LF then r.To(Start) else r)
    case AlmostDone =>
      if ch == LF then Done(r) else if ch == CR then Go(r) else Reject(InvalidHeader, r)
    case _ =>
      if ch == LF then Done(r) else Reject(InvalidHeader, r)
  }

  /** One turn of the loop.  A jump to a label leaves `state` alone: it tells which label it was. */
  function StepHeader(r: Header, seen: seq<byte>, ch: byte): HeaderTurn {
    match r.state
    case Start => StepStart(r, |seen|, ch)
    case Name => StepName(r, seen, ch)
    case SpaceBeforeValue => StepValue(r, |seen|, ch)
    case Value => StepValue(r, |seen|, ch)
    case SpaceAfterValue => StepValue(r, |seen|, ch)
    case _ => StepEnd(r, ch)
  }

  // ---------------------------------------------------------------- calls

  /** The request fields that are written as the loop runs. */
  datatype Fields = Fields(at: Spans, invalid: bool, lowcase: Copy, underscores: bool, upstream: bool)

  /** r->state, r->header_hash, r->lowcase_index and b->pos, written only where a call stores them. */
  datatype Saved = Saved(state: State, hash: nat, index: Index, pos: nat)

  /** What outlives a call. */
  datatype Memory = Memory(fields: Fields, saved: Saved)

  datatype Code = NgxAgain | NgxOk | HeaderDone | Refused

  function CodeOf(r: Result<Header, Error>): Code {
    match r
    case Again(_, _) => NgxAgain
    case Complete(s, _) => if s.Last() then HeaderDone else NgxOk
    case Failed(_, _, _) => Refused
  }

  function Load(m: Memory): Header {
    Header(m.saved.state, m.fields.at, NameCopy(m.fields.invalid, m.saved.hash, m.saved.index, m.fields.lowcase),
           m.fields.underscores, m.fields.upstream)
  }

  function From(m: Memory): nat {
    m.saved.pos
  }

  function Written(s: Header): Fields {
    Fields(s.at, s.name.invalid, s.name.lowcase, s.underscores, s.upstream)
  }

  /** Asking for more and label `done` store the locals; label `header_done` stores the position and
    * resets the state, but leaves the saved hash and index alone; an error stores none of them. */
  function Store(m: Memory, r: Result<Header, Error>): Memory {
    match r
    case Again(s, p) => Memory(Written(s), Saved(s.state, s.name.hash, s.name.index, p))
    case Complete(s, p) =>
      Memory(Written(s), if s.Last() then m.saved.(state := Start, pos := p) else Saved(Start, s.name.hash, s.name.index, p))
    case Failed(_, s, _) => Memory(Written(s), m.saved)
  }

  const PARSER: Parser<Memory, Header, Error> := Parser(StepHeader, Load, From, Store)

  class Request {
    var fields: Fields
    var saved: Saved

    function Kept(): Memory
      reads this
    {
      Memory(fields, saved)
    }

    /** ngx_http_parse_header_line on the part of `buf` filled so far, from b->pos on. */
    method Parse(buf: seq<byte>) returns (code: Code)
      requires saved.pos <= |buf|
      modifies this
      ensures var (r, m) := Call(PARSER, old(Kept()), buf); code == CodeOf(r) && Kept() == m
    {
      var r := Drive(StepHeader, Load(Kept()), buf, saved.pos);
      fields := Written(r.state);
      match r {
        case Again(s, p) => saved := Saved(s.state, s.name.hash, s.name.index, p);
        case Complete(s, p) =>
          if s.Last() {
            saved := saved.(state := Start, pos := p);
          } else {
            saved := Saved(Start, s.name.hash, s.name.index, p);
          }
        case Failed(_, _, _) =>
      }
      code := CodeOf(r);
    }

    /** The caller's loop: it reads more and calls again as long as it is asked to. */
    method ParseArriving(buf: seq<byte>, cuts: seq<nat>) returns (code: Code)
      requires Growing(saved.pos, cuts, |buf|)
      modifies this
      ensures SavesAll(PARSER)
      ensures var (r, m) := Calls(PARSER, old(Kept()), buf, cuts); code == CodeOf(r) && Kept() == m
      decreases |cuts|
    {
      if cuts == [] {
        code := Parse(buf);
      } else {
        code := Parse(buf[..cuts[0]]);
        if code == NgxAgain {
          code := ParseArriving(buf, cuts[1..]);
        }
      }
    }
  }

  /** However the header line arrives, the return code, the offsets, the invalid mark and the lower-case
    * copy are those of a single call, and after a header everything saved is.  The end of the header
    * saves the same position, but keeps hash and index of the call before; an error keeps all of them. */
  lemma HeaderResumes(m: Memory, buf: seq<byte>, cuts: seq<nat>)
    requires Growing(m.saved.pos, cuts, |buf|)
    ensures SavesAll(PARSER)
    ensures var (one, first), (many, last) := Call(PARSER, m, buf), Calls(PARSER, m, buf, cuts);
      && CodeOf(many) == CodeOf(one)
      && last.fields == first.fields
      && (CodeOf(one).NgxAgain? || CodeOf(one).NgxOk? ==> last == first)
      && (CodeOf(one).HeaderDone? ==> last.saved.state == first.saved.state && last.saved.pos == first.saved.pos)
      && (CodeOf(one).Refused? ==> first.saved == m.saved && last.saved.pos == LastCut(m.saved.pos, cuts, one.pos))
  {
    CallsResume(PARSER, m, buf, cuts);
    var s := BeforeIsSaved(PARSER, m, buf, cuts);
  }

  // ---------------------------------------------------------------- what is recorded about a header

  /** Names whose lower-case copy and hash are usable: an underscore may not come first. */
  ghost predicate NameOk(name: seq<byte>, underscores: bool) {
    && name != [] && Lower(name[0]) != NUL
    && forall i | 0 < i < |name| :: Lower(name[i]) != NUL || (name[i] == UNDERSCORE && underscores)
  }

  function Lowered(name: seq<byte>): (low: seq<byte>)
    ensures |low| == |name|
  {
    if name == [] then []
    else
      var ch := name[|name| - 1];
      Lowered(name[..|name| - 1]) + [if ch == UNDERSCORE then ch else Lower(ch)]
  }

  /** The hash of a whole name, octet by octet. */
  function HashOf(low: seq<byte>): nat {
    if low == [] then 0 else Hash(HashOf(low[..|low| - 1]), low[|low| - 1])
  }

  /** The copy describes the name read so far; the caller trusts it when its index is the name's length. */
  ghost predicate Records(n: NameCopy, underscores: bool, name: seq<byte>) {
    && (n.invalid <==> !NameOk(name, underscores))
    && (!n.invalid ==>
          && n.hash == HashOf(Lowered(name))
          && (n.index == |name| <==> |name| < LOWCASE_LEN)
          && (|name| < LOWCASE_LEN ==> n.lowcase[..|name|] == Lowered(name)))
  }

  ghost predicate Named(r: Header, seen: seq<byte>) {
    && r.at.nameStart < r.at.nameEnd <= |seen|
    && Records(r.name, r.underscores, seen[r.at.nameStart..r.at.nameEnd])
  }

  ghost predicate Valued(at: Spans, p: nat) {
    at.nameEnd <= at.start <= at.end < p
  }

  /** What holds between two turns. */
  ghost predicate Tracks(r: Header, seen: seq<byte>) {
    match r.state
    case Name => r.at.nameStart < |seen| && Records(r.name, r.underscores, seen[r.at.nameStart..])
    case SpaceBeforeValue => Named(r, seen)
    case Value => Named(r, seen) && r.at.nameEnd <= r.at.start < |seen|
    case SpaceAfterValue => Named(r, seen) && Valued(r.at, |seen|)
    case AlmostDone => Named(r, seen) && Valued(r.at, |seen|)
    case HeaderAlmostDone => r.at.end == r.at.nameStart < |seen| && seen[r.at.end] == CR
    case _ => true
  }

  /** What a completed line records: an ordered name and value with a faithful name, or the empty line. */
  ghost predicate Recorded(r: Header, seen: seq<byte>) {
    if r.Last() then r.at.end == r.at.nameStart < |seen| && (seen[r.at.end] == CR || seen[r.at.end] == LF)
    else Named(r, seen) && Valued(r.at, |seen|)
  }

  ghost predicate TurnRecords(t: HeaderTurn, seen: seq<byte>) {
    match t
    case Go(r) => Tracks(r, seen)
    case Done(r) => Recorded(r, seen)
    case Reject(_, _) => true
  }

  lemma NameOkGrows(name: seq<byte>, ch: byte, underscores: bool)
    requires name != []
    ensures NameOk(name + [ch], underscores) <==>
      NameOk(name, underscores) && (Lower(ch) != NUL || (ch == UNDERSCORE && underscores))
  {
    var name' := name + [ch];
    assert forall i | 0 <= i < |name| :: name'[i] == name[i];
    assert name'[|name|] == ch;
  }

  lemma LoweredGrows(name: seq<byte>, ch: byte)
    ensures Lowered(name + [ch]) == Lowered(name) + [if ch == UNDERSCORE then ch else Lower(ch)]
    ensures HashOf(Lowered(name + [ch])) == Hash(HashOf(Lowered(name)), if ch == UNDERSCORE then ch else Lower(ch))
  {
    assert (name + [ch])[..|name|] == name;
    var low, c := Lowered(name), if ch == UNDERSCORE then ch else Lower(ch);
    assert (low + [c])[..|low|] == low;
  }

  lemma RecordsAdd(n: NameCopy, underscores: bool, name: seq<byte>, ch: byte)
    requires name != [] && Records(n, underscores, name)
    requires Lower(ch) != NUL || (ch == UNDERSCORE && underscores)
    ensures Records(Add(n, if ch == UNDERSCORE then ch else Lower(ch)), underscores, name + [ch])
  {
    NameOkGrows(name, ch, underscores);
    LoweredGrows(name, ch);
    var c := if ch == UNDERSCORE then ch else Lower(ch);
    if !n.invalid && |name| + 1 < LOWCASE_LEN {
      assert n.lowcase[n.index := c][..|name| + 1] == n.lowcase[..|name|] + [c];
    }
  }

  lemma RecordsSpoil(n: NameCopy, underscores: bool, name: seq<byte>, ch: byte)
    requires name != [] && Records(n, underscores, name)
    requires Lower(ch) == NUL && !(ch == UNDERSCORE && underscores)
    ensures Records(Spoil(n), underscores, name + [ch])
  {
    NameOkGrows(name, ch, underscores);
  }

  lemma NameGoesOn(r: Header, seen: seq<byte>, ch: byte, r': Header)
    requires r.state.Name? && Tracks(r, seen)
    requires r' == r.(name := if Lower(ch) != NUL then Add(r.name, Lower(ch))
                              else if ch == UNDERSCORE && r.underscores then Add(r.name, ch) else Spoil(r.name))
    ensures Tracks(r', seen + [ch])
  {
    var name := seen[r.at.nameStart..];
    assert (seen + [ch])[r.at.nameStart..] == name + [ch];
    if Lower(ch) != NUL || (ch == UNDERSCORE && r.underscores) {
      RecordsAdd(r.name, r.underscores, name, ch);
    } else {
      RecordsSpoil(r.name, r.underscores, name, ch);
    }
  }

  lemma NameEnds(r: Header, seen: seq<byte>, ch: byte, r': Header)
    requires r.state.Name? && Tracks(r, seen)
    requires r'.name == r.name && r'.underscores == r.underscores
    requires r'.at.nameStart == r.at.nameStart && r'.at.nameEnd == |seen|
    ensures Named(r', seen + [ch])
  {
    assert (seen + [ch])[r.at.nameStart..|seen|] == seen[r.at.nameStart..];
  }

  lemma TrackNameEnd(r: Header, seen: seq<byte>, ch: byte)
    requires r.state.Name? && Tracks(r, seen) && (ch == COLON || ch == CR || ch == LF)
    ensures TurnRecords(StepName(r, seen, ch), seen + [ch])
  {
    var p := |seen|;
    if ch == COLON {
      NameEnds(r, seen, ch, r.(at := r.at.(nameEnd := p), state := SpaceBeforeValue));
    } else {
      NameEnds(r, seen, ch, r.(at := Spans(r.at.nameStart, p, p, p), state := if ch == CR then AlmostDone else Name));
    }
  }

  lemma TrackName(r: Header, seen: seq<byte>, ch: byte)
    requires r.state.Name? && Tracks(r, seen)
    ensures TurnRecords(StepName(r, seen, ch), seen + [ch])
  {
    if ch == COLON || ch == CR || ch == LF {
      TrackNameEnd(r, seen, ch);
    } else if StepName(r, seen, ch).Go? && StepName(r, seen, ch).state.state != IgnoreLine {
      NameGoesOn(r, seen, ch, StepName(r, seen, ch).state);
    }
  }

  lemma FirstOctet(ch: byte, underscores: bool)
    ensures NameOk([ch], underscores) <==> Lower(ch) != NUL
    ensures Lower(ch) != NUL ==> Lowered([ch]) == [Lower(ch)] && HashOf([Lower(ch)]) == Hash(0, Lower(ch))
  {
    LoweredGrows([], ch);
    assert [] + [ch] == [ch] && [] + [Lower(ch)] == [Lower(ch)];
  }

  lemma TrackStart(r: Header, seen: seq<byte>, ch: byte)
    requires r.state.Start? && Tracks(r, seen)
    ensures TurnRecords(StepStart(r, |seen|, ch), seen + [ch])
  {
    assert (seen + [ch])[|seen|..] == [ch];
    FirstOctet(ch, r.underscores);
    assert r.name.lowcase[0 := Lower(ch)][..1] == [Lower(ch)];
  }

  lemma NamedLater(r: Header, seen: seq<byte>, ch: byte)
    requires Named(r, seen)
    ensures Named(r, seen + [ch])
  {
    assert (seen + [ch])[r.at.nameStart..r.at.nameEnd] == seen[r.at.nameStart..r.at.nameEnd];
  }

  /** The value states leave the name alone. */
  lemma ValueKeepsName(r: Header, p: nat, ch: byte)
    requires r.state.SpaceBeforeValue? || r.state.Value? || r.state.SpaceAfterValue?
    ensures var t := StepValue(r, p, ch);
      !t.Reject? ==>
        && t.state.name == r.name && t.state.underscores == r.underscores
        && t.state.at.nameStart == r.at.nameStart && t.state.at.nameEnd == r.at.nameEnd
  {
  }

  ghost predicate ValuePlaced(s: State, at: Spans, p: nat) {
    && at.nameEnd <= p
    && (s.Value? ==> at.nameEnd <= at.start < p)
    && (s.SpaceAfterValue? || s.AlmostDone? ==> Valued(at, p))
  }

  lemma ValuePlaces(r: Header, p: nat, ch: byte)
    requires (r.state.SpaceBeforeValue? || r.state.Value? || r.state.SpaceAfterValue?) && ValuePlaced(r.state, r.at, p)
    ensures var t := StepValue(r, p, ch);
      && (t.Go? ==> ValuePlaced(t.state.state, t.state.at, p + 1) &&
                    (t.state.state.SpaceBeforeValue? || t.state.state.Value? || t.state.state.SpaceAfterValue?
                     || t.state.state.AlmostDone?))
      && (t.Done? ==> Valued(t.state.at, p + 1) && !t.state.Last())
  {
  }

  lemma TrackValue(r: Header, seen: seq<byte>, ch: byte)
    requires (r.state.SpaceBeforeValue? || r.state.Value? || r.state.SpaceAfterValue?) && Tracks(r, seen)
    ensures TurnRecords(StepValue(r, |seen|, ch), seen + [ch])
  {
    NamedLater(r, seen, ch);
    ValueKeepsName(r, |seen|, ch);
    ValuePlaces(r, |seen|, ch);
    NamedAlike(r, StepValue(r, |seen|, ch), seen + [ch]);
    ValueTurnTracks(StepValue(r, |seen|, ch), seen + [ch]);
  }

  lemma ValueTurnTracks(t: HeaderTurn, seen: seq<byte>)
    requires !t.Reject? ==> Named(t.state, seen)
    requires t.Go? ==> ValuePlaced(t.state.state, t.state.at, |seen|)
    requires t.Go? ==>
      (t.state.state.SpaceBeforeValue? || t.state.state.Value? || t.state.state.SpaceAfterValue? || t.state.state.AlmostDone?)
    requires t.Done? ==> Valued(t.state.at, |seen|) && !t.state.Last()
    ensures TurnRecords(t, seen)
  {
  }

  lemma NamedAlike(r: Header, t: HeaderTurn, seen: seq<byte>)
    requires Named(r, seen)
    requires !t.Reject? ==>
      && t.state.name == r.name && t.state.underscores == r.underscores
      && t.state.at.nameStart == r.at.nameStart && t.state.at.nameEnd == r.at.nameEnd
    ensures !t.Reject? ==> Named(t.state, seen)
  {
  }

  lemma TrackEnd(r: Header, seen: seq<byte>, ch: byte)
    requires (r.state.IgnoreLine? || r.state.AlmostDone? || r.state.HeaderAlmostDone?) && Tracks(r, seen)
    ensures TurnRecords(StepEnd(r, ch), seen + [ch])
  {
    if r.state.AlmostDone? {
      NamedLater(r, seen, ch);
    }
  }

  lemma TrackStep(r: Header, seen: seq<byte>, ch: byte)
    requires Tracks(r, seen)
    ensures TurnRecords(StepHeader(r, seen, ch), seen + [ch])
  {
    match r.state
    case Start => TrackStart(r, seen, ch);
    case Name => TrackName(r, seen, ch);
    case SpaceBeforeValue => TrackValue(r, seen, ch);
    case Value => TrackValue(r, seen, ch);
    case SpaceAfterValue => TrackValue(r, seen, ch);
    case _ => TrackEnd(r, seen, ch);
  }

  // ---------------------------------------------------------------- which octets are the name and the value

  ghost predicate Spaces(seen: seq<byte>, a: nat, b: nat) {
    a <= b <= |seen| && forall i | a <= i < b :: seen[i] == SPACE
  }

  ghost predicate NoBreak(seen: seq<byte>, a: nat, b: nat) {
    a <= b <= |seen| && forall i | a <= i < b :: seen[i] != CR && seen[i] != LF && seen[i] != NUL
  }

  /** A name starts its line and goes on to the first colon or line end; only its first octet may be a colon. */
  ghost predicate NameLies(seen: seq<byte>, from: nat, a: nat, b: nat) {
    && from <= a < b && NoBreak(seen, a, b) && (a == from || seen[a - 1] == LF)
    && forall i | a < i < b :: seen[i] != COLON
  }

  /** Spaces and then CRs. */
  ghost predicate Blank(seen: seq<byte>, a: nat, b: nat) {
    && a <= b <= |seen| && (forall i | a <= i < b :: seen[i] == SPACE || seen[i] == CR)
    && forall i | a < i < b :: seen[i - 1] == CR ==> seen[i] == CR
  }

  /** The value without the spaces around it: behind a colon, or nothing where the name ends the line. */
  ghost predicate ValueLies(seen: seq<byte>, at: Spans) {
    && at.nameEnd < |seen| && at.nameEnd <= at.start <= at.end <= |seen| && NoBreak(seen, at.start, at.end)
    && (if seen[at.nameEnd] == COLON then Spaces(seen, at.nameEnd + 1, at.start) else at.start == at.end == at.nameEnd)
    && (at.start < at.end ==> seen[at.start] != SPACE && seen[at.end - 1] != SPACE)
  }

  /** A finished line. */
  ghost predicate LineLies(seen: seq<byte>, from: nat, at: Spans) {
    && NameLies(seen, from, at.nameStart, at.nameEnd) && ValueLies(seen, at)
    && at.end < |seen| && seen[|seen| - 1] == LF && Blank(seen, at.end, |seen| - 1)
  }

  /** The empty line. */
  ghost predicate EndLies(seen: seq<byte>, from: nat, at: Spans) {
    && from <= at.nameStart == at.end < |seen| && (at.end == from || seen[at.end - 1] == LF)
    && (seen[at.end..] == [LF] || seen[at.end..] == [CR, LF])
  }

  ghost predicate Lies(r: Header, seen: seq<byte>, from: nat) {
    var at := r.at;
    from <= |seen| &&
    match r.state
    case Start => |seen| == from || seen[|seen| - 1] == LF
    case Name => NameLies(seen, from, at.nameStart, |seen|)
    case SpaceBeforeValue =>
      NameLies(seen, from, at.nameStart, at.nameEnd) && at.nameEnd < |seen| && seen[at.nameEnd] == COLON
      && Spaces(seen, at.nameEnd + 1, |seen|)
    case Value =>
      && NameLies(seen, from, at.nameStart, at.nameEnd) && at.start < |seen| && ValueLies(seen, at.(end := |seen|))
      && seen[at.nameEnd] == COLON
    case SpaceAfterValue =>
      && NameLies(seen, from, at.nameStart, at.nameEnd) && at.start < at.end && ValueLies(seen, at)
      && seen[at.nameEnd] == COLON && Spaces(seen, at.end, |seen|) && at.end < |seen|
    case AlmostDone =>
      && NameLies(seen, from, at.nameStart, at.nameEnd) && ValueLies(seen, at)
      && at.end < |seen| && Blank(seen, at.end, |seen|) && seen[|seen| - 1] == CR
    case IgnoreLine => from < |seen|
    case HeaderAlmostDone =>
      from <= at.nameStart == at.end == |seen| - 1 && seen[at.end] == CR && (at.end == from || seen[at.end - 1] == LF)
  }

  ghost predicate DoneLies(r: Header, seen: seq<byte>, from: nat) {
    if r.Last() then EndLies(seen, from, r.at) else LineLies(seen, from, r.at)
  }

  /** What the line records when it is done, and why it is rejected if it is. */
  ghost predicate TurnLies(t: HeaderTurn, seen: seq<byte>, from: nat) {
    match t
    case Go(r) => Lies(r, seen, from)
    case Done(r) => DoneLies(r, seen, from)
    case Reject(_, _) => Spoilt(seen)
  }

  /** The last octet is a zero, or it follows a CR and does not go with it. */
  ghost predicate Spoilt(seen: seq<byte>) {
    && seen != []
    && (seen[|seen| - 1] == NUL || (|seen| > 1 && seen[|seen| - 2] == CR && seen[|seen| - 1] != LF))
  }

  /** One octet more does not change what lies before it. */
  lemma NameStays(seen: seq<byte>, from: nat, a: nat, b: nat, ch: byte)
    requires NameLies(seen, from, a, b)
    ensures NameLies(seen + [ch], from, a, b)
  {
  }

  lemma ValueStays(seen: seq<byte>, at: Spans, ch: byte)
    requires ValueLies(seen, at)
    ensures ValueLies(seen + [ch], at)
  {
  }

  lemma StartLies(r: Header, seen: seq<byte>, from: nat, ch: byte)
    requires r.state.Start? && Lies(r, seen, from)
    ensures TurnLies(StepStart(r, |seen|, ch), seen + [ch], from)
  {
    assert (seen + [ch])[|seen|..] == [ch];
  }

  lemma NameGrows(seen: seq<byte>, from: nat, a: nat, ch: byte)
    requires NameLies(seen, from, a, |seen|) && ch != CR && ch != LF && ch != NUL && ch != COLON
    ensures NameLies(seen + [ch], from, a, |seen| + 1)
  {
  }

  /** The name ends its line. */
  lemma BareNameEnds(seen: seq<byte>, from: nat, a: nat, ch: byte)
    requires NameLies(seen, from, a, |seen|) && (ch == CR || ch == LF)
    ensures var p := |seen|; ValueLies(seen + [ch], Spans(a, p, p, p)) && Blank(seen + [ch], p, if ch == LF then p else p + 1)
  {
  }

  /** What a turn does to state and offsets in a name. */
  ghost predicate NameTurn(t: HeaderTurn, at: Spans, p: nat, ch: byte) {
    if ch == COLON then t.Go? && t.state.state == SpaceBeforeValue && t.state.at == at.(nameEnd := p)
    else if ch == CR then t.Go? && t.state.state == AlmostDone && t.state.at == Spans(at.nameStart, p, p, p)
    else if ch == LF then t.Done? && t.state.state == Name && t.state.at == Spans(at.nameStart, p, p, p)
    else if ch == NUL then t.Reject?
    else t.Go? && t.state.at == at && (t.state.state == Name || t.state.state == IgnoreLine)
  }

  lemma NameTurns(r: Header, seen: seq<byte>, ch: byte)
    requires r.state.Name?
    ensures NameTurn(StepName(r, seen, ch), r.at, |seen|, ch)
  {
  }

  lemma NameTurnLies(t: HeaderTurn, at: Spans, seen: seq<byte>, from: nat, ch: byte)
    requires NameTurn(t, at, |seen|, ch) && NameLies(seen, from, at.nameStart, |seen|)
    ensures TurnLies(t, seen + [ch], from)
  {
    NameStays(seen, from, at.nameStart, |seen|, ch);
    if ch == CR || ch == LF {
      BareNameEnds(seen, from, at.nameStart, ch);
    } else if ch != COLON && ch != NUL {
      NameGrows(seen, from, at.nameStart, ch);
    }
  }

  lemma NameStepLies(r: Header, seen: seq<byte>, from: nat, ch: byte)
    requires r.state.Name? && Lies(r, seen, from)
    ensures TurnLies(StepName(r, seen, ch), seen + [ch], from)
  {
    NameTurns(r, seen, ch);
    NameTurnLies(StepName(r, seen, ch), r.at, seen, from, ch);
  }

  /** The value begins, or there is none. */
  lemma ValueBegins(seen: seq<byte>, at: Spans, ch: byte)
    requires at.nameEnd < |seen| && seen[at.nameEnd] == COLON && Spaces(seen, at.nameEnd + 1, |seen|)
    requires ch != SPACE && ch != NUL
    ensures var p := |seen|;
      if ch == CR || ch == LF then
        ValueLies(seen + [ch], at.(start := p, end := p)) && Blank(seen + [ch], p, if ch == LF then p else p + 1)
      else ValueLies(seen + [ch], at.(start := p, end := p + 1))
  {
  }

  lemma BeforeValueLies(r: Header, seen: seq<byte>, from: nat, ch: byte)
    requires r.state.SpaceBeforeValue? && Lies(r, seen, from)
    ensures TurnLies(StepValue(r, |seen|, ch), seen + [ch], from)
  {
    NameStays(seen, from, r.at.nameStart, r.at.nameEnd, ch);
    if ch != SPACE && ch != NUL {
      ValueBegins(seen, r.at, ch);
      assert r.at.(start := |seen|).(end := |seen + [ch]|) == r.at.(start := |seen|, end := |seen| + 1);
    }
  }

  /** The value goes on, or it ends for now. */
  lemma ValueGoesOn(seen: seq<byte>, at: Spans, ch: byte)
    requires at.start < |seen| && ValueLies(seen, at.(end := |seen|)) && ch != NUL
    ensures var p := |seen|;
      if ch == SPACE || ch == CR || ch == LF then
        ValueLies(seen + [ch], at.(end := p)) && (ch == CR || ch == LF ==> Blank(seen + [ch], p, if ch == LF then p else p + 1))
      else ValueLies(seen + [ch], at.(end := p + 1))
  {
  }

  /** What a turn does to state and offsets in a value. */
  ghost predicate ValueTurn(t: HeaderTurn, at: Spans, p: nat, ch: byte) {
    if ch == SPACE then t.Go? && t.state.state == SpaceAfterValue && t.state.at == at.(end := p)
    else if ch == CR then t.Go? && t.state.state == AlmostDone && t.state.at == at.(end := p)
    else if ch == LF then t.Done? && t.state.state == Value && t.state.at == at.(end := p)
    else if ch == NUL then t.Reject?
    else t.Go? && t.state.state == Value && t.state.at == at
  }

  lemma ValueTurns(r: Header, p: nat, ch: byte)
    requires r.state.Value?
    ensures ValueTurn(StepValue(r, p, ch), r.at, p, ch)
  {
  }

  lemma ValueTurnLies(t: HeaderTurn, at: Spans, seen: seq<byte>, from: nat, ch: byte)
    requires ValueTurn(t, at, |seen|, ch) && NameLies(seen, from, at.nameStart, at.nameEnd) && at.start < |seen|
    requires ValueLies(seen, at.(end := |seen|)) && seen[at.nameEnd] == COLON && from <= |seen|
    ensures TurnLies(t, seen + [ch], from)
  {
    NameStays(seen, from, at.nameStart, at.nameEnd, ch);
    if ch != NUL {
      ValueGoesOn(seen, at, ch);
    }
  }

  lemma InValueLies(r: Header, seen: seq<byte>, from: nat, ch: byte)
    requires r.state.Value? && Lies(r, seen, from)
    ensures TurnLies(StepValue(r, |seen|, ch), seen + [ch], from)
  {
    ValueTurns(r, |seen|, ch);
    ValueTurnLies(StepValue(r, |seen|, ch), r.at, seen, from, ch);
  }

  /** The spaces behind the value turn out to be part of it, or to end the line. */
  lemma SpacesEnd(seen: seq<byte>, at: Spans, ch: byte)
    requires at.start < at.end < |seen| && ValueLies(seen, at) && seen[at.nameEnd] == COLON && Spaces(seen, at.end, |seen|)
    requires ch != SPACE && ch != NUL
    ensures if ch == CR || ch == LF then Blank(seen + [ch], at.end, if ch == LF then |seen| else |seen| + 1)
            else ValueLies(seen + [ch], at.(end := |seen| + 1))
  {
  }

  lemma AfterValueLies(r: Header, seen: seq<byte>, from: nat, ch: byte)
    requires r.state.SpaceAfterValue? && Lies(r, seen, from)
    ensures TurnLies(StepValue(r, |seen|, ch), seen + [ch], from)
  {
    NameStays(seen, from, r.at.nameStart, r.at.nameEnd, ch);
    ValueStays(seen, r.at, ch);
    if ch != SPACE && ch != NUL {
      SpacesEnd(seen, r.at, ch);
    }
  }

  lemma EndStepLies(r: Header, seen: seq<byte>, from: nat, ch: byte)
    requires (r.state.IgnoreLine? || r.state.AlmostDone? || r.state.HeaderAlmostDone?) && Lies(r, seen, from)
    ensures TurnLies(StepEnd(r, ch), seen + [ch], from)
  {
    if r.state.AlmostDone? {
      NameStays(seen, from, r.at.nameStart, r.at.nameEnd, ch);
      ValueStays(seen, r.at, ch);
    } else if r.state.HeaderAlmostDone? {
      assert (seen + [ch])[r.at.end..] == [CR, ch];
    }
  }

  lemma StepLies(r: Header, seen: seq<byte>, from: nat, ch: byte)
    requires Lies(r, seen, from)
    ensures TurnLies(StepHeader(r, seen, ch), seen + [ch], from)
  {
    match r.state
    case Start => StartLies(r, seen, from, ch);
    case Name => NameStepLies(r, seen, from, ch);
    case SpaceBeforeValue => BeforeValueLies(r, seen, from, ch);
    case Value => InValueLies(r, seen, from, ch);
    case SpaceAfterValue => AfterValueLies(r, seen, from, ch);
    case _ => EndStepLies(r, seen, from, ch);
  }

  /** Every header line that is done, and every header that ends: the octets the recorded offsets delimit. */
  lemma HeaderLies(r: Header, buf: seq<byte>, pos: nat)
    requires pos <= |buf| && r.state.Start?
    ensures var end := Run(StepHeader, r, buf, pos);
      && (end.Complete? ==> DoneLies(end.state, buf[..end.pos], pos))
      && (end.Failed? ==> Spoilt(buf[..end.pos]))
      && (end.Again? ==> Lies(end.state, buf, pos))
  {
    forall h: Header, seen: seq<byte>, ch: byte | Lies(h, seen, pos)
      ensures TurnLies(StepHeader(h, seen, ch), seen + [ch], pos)
    {
      StepLies(h, seen, pos, ch);
    }
    RunKeeps(StepHeader, (h, seen) => Lies(h, seen, pos),
             (h, seen) => DoneLies(h, seen, pos), r, buf, pos);
    RunRejects(StepHeader, (h, seen) => Lies(h, seen, pos), (seen) => Spoilt(seen), r, buf, pos);
  }

  /** For every header line: the name is the start of the line up to its colon and the value what follows without the
    * spaces around it; `invalid` is set exactly for a bad name, and otherwise the hash is the name's and the lower-case
    * copy is trusted exactly when it is whole. */
  lemma HeaderIsRecorded(r: Header, buf: seq<byte>, pos: nat)
    requires pos <= |buf| && r.state.Start?
    ensures var end := Run(StepHeader, r, buf, pos);
      && (end.Complete? ==> Recorded(end.state, buf[..end.pos]) && DoneLies(end.state, buf[..end.pos], pos))
      && (end.Failed? ==> Spoilt(buf[..end.pos]))
      && (end.Again? ==> Tracks(end.state, buf))
  {
    forall h: Header, seen: seq<byte>, ch: byte | Tracks(h, seen)
      ensures TurnRecords(StepHeader(h, seen, ch), seen + [ch])
    {
      TrackStep(h, seen, ch);
    }
    RunKeeps(StepHeader, (h, seen) => Tracks(h, seen), (h, seen) => Recorded(h, seen), r, buf, pos);
    HeaderLies(r, buf, pos);
  }

  // ---------------------------------------------------------------- what the end of the header leaves saved

  /** The octets after the last line feed. */
  ghost function LineOf(s: seq<byte>): seq<byte> {
    if s == [] || s[|s| - 1] == LF then [] else LineOf(s[..|s| - 1]) + [s[|s| - 1]]
  }

  /** The name whose hash the loop holds after octets that only the end of the header can follow: the
    * letters of "HTTP" read on the line being ignored, or all of them once they were read. */
  ghost function NameRead(s: seq<byte>): seq<byte> {
    var line := LineOf(s);
    if line == [] || line[0] == CR then (if line == s then [] else HTTP)
    else if |line| <= |HTTP| then line
    else HTTP
  }

  lemma LineGrows(s: seq<byte>, ch: byte)
    ensures LineOf(s + [ch]) == if ch == LF then [] else LineOf(s) + [ch]
  {
    assert (s + [ch])[..|s|] == s;
  }

  /** The local hash and index are those of `name`, or untouched if no name was begun. */
  ghost predicate Holds(n: NameCopy, saved: Saved, name: seq<byte>) {
    if name == [] then n.hash == saved.hash && n.index == saved.index
    else n.hash == HashOf(Lowered(name)) && n.index == |name|
  }

  ghost predicate BeginsHttp(line: seq<byte>) {
    |line| <= |HTTP| && line == HTTP[..|line|]
  }

  /** Only lines to be ignored so far, from where the call started. */
  ghost predicate Skipping(h: Header, from: nat, seen: seq<byte>) {
    && from <= |seen|
    && var line := LineOf(seen[from..]);
    && match h.state
       case Start => line == []
       case Name => h.at.nameStart < |seen| && line == seen[h.at.nameStart..] && BeginsHttp(line)
       case IgnoreLine => |line| > |HTTP| && line[0] == HTTP[0]
       case HeaderAlmostDone => line == [CR]
       case _ => false
  }

  ghost predicate Ignoring(h: Header, saved: Saved, seen: seq<byte>) {
    Skipping(h, saved.pos, seen) && Holds(h.name, saved, NameRead(seen[saved.pos..]))
  }

  /** An ordinary header line, which will not end the header. */
  ghost predicate Ordinary(h: Header, seen: seq<byte>) {
    || h.state.SpaceBeforeValue? || h.state.Value? || h.state.SpaceAfterValue? || h.state.AlmostDone?
    || (h.state.Name? && h.at.nameStart < |seen| && !BeginsHttp(seen[h.at.nameStart..]))
  }

  lemma BeganHttp(line: seq<byte>, ch: byte)
    requires BeginsHttp(line + [ch])
    ensures BeginsHttp(line)
  {
    assert line == (line + [ch])[..|line|] == HTTP[..|line|];
  }

  lemma OrdinaryGoesOn(h: Header, seen: seq<byte>, ch: byte)
    requires Ordinary(h, seen)
    ensures var t := StepHeader(h, seen, ch);
      && (t.Go? ==> Ordinary(t.state, seen + [ch]))
      && (t.Done? ==> !t.state.Last())
  {
    if h.state.Name? {
      var line := seen[h.at.nameStart..];
      assert (seen + [ch])[h.at.nameStart..] == line + [ch];
      if BeginsHttp(line + [ch]) {
        BeganHttp(line, ch);
      }
    }
  }

  /** Any first octet but 'H' and the end of the line starts an ordinary header. */
  lemma StartsOrdinary(h: Header, seen: seq<byte>, ch: byte)
    requires h.state.Start? && ch != CR && ch != HTTP[0]
    ensures var t := StepHeader(h, seen, ch); t.Go? ==> Ordinary(t.state, seen + [ch])
  {
    assert (seen + [ch])[|seen|..] == [ch];
    assert !BeginsHttp([ch]);
  }

  lemma HoldsFirst(lowcase: Copy, saved: Saved, ch: byte)
    requires Lower(ch) != NUL
    ensures Holds(NameCopy(false, Hash(0, Lower(ch)), 1, lowcase), saved, [ch])
  {
    FirstOctet(ch, false);
  }

  lemma HoldsNext(n: NameCopy, saved: Saved, name: seq<byte>, ch: byte)
    requires name != [] && Holds(n, saved, name) && |name| + 1 < LOWCASE_LEN && Lower(ch) != NUL
    ensures Holds(Add(n, Lower(ch)), saved, name + [ch])
  {
    LoweredGrows(name, ch);
  }

  /** The first letter of "HTTP". */
  lemma SkippingFirst(h: Header, from: nat, seen: seq<byte>, h': Header)
    requires h.state.Start? && Skipping(h, from, seen)
    requires h'.state == Name && h'.at.nameStart == |seen|
    ensures var seen' := seen + [HTTP[0]]; Skipping(h', from, seen') && NameRead(seen'[from..]) == [HTTP[0]]
  {
    var seen' := seen + [HTTP[0]];
    LineGrows(seen[from..], HTTP[0]);
    assert seen'[from..] == seen[from..] + [HTTP[0]];
    assert seen'[|seen|..] == [HTTP[0]] == HTTP[..1];
  }

  /** The next letter of "HTTP". */
  lemma SkippingLetter(h: Header, from: nat, seen: seq<byte>, ch: byte, line: seq<byte>, h': Header)
    requires h.state.Name? && Skipping(h, from, seen) && line == seen[h.at.nameStart..]
    requires BeginsHttp(line + [ch]) && h'.state == Name && h'.at == h.at
    ensures ch == HTTP[|line|] && Skipping(h', from, seen + [ch])
    ensures NameRead(seen[from..]) == line && NameRead((seen + [ch])[from..]) == line + [ch]
  {
    assert (seen + [ch])[from..] == seen[from..] + [ch];
    assert (seen + [ch])[h.at.nameStart..] == line + [ch];
    LineGrows(seen[from..], ch);
    assert (line + [ch])[|line|] == HTTP[|line|] && (line + [ch])[0] == HTTP[0];
  }

  /** The slash after "HTTP". */
  lemma SkippingSlash(h: Header, from: nat, seen: seq<byte>, h': Header)
    requires h.state.Name? && Skipping(h, from, seen) && seen[h.at.nameStart..] == HTTP
    requires h'.state == IgnoreLine
    ensures Skipping(h', from, seen + [SLASH])
    ensures NameRead(seen[from..]) == HTTP == NameRead((seen + [SLASH])[from..])
  {
    assert (seen + [SLASH])[from..] == seen[from..] + [SLASH];
    LineGrows(seen[from..], SLASH);
  }

  /** The CR of the empty line. */
  lemma SkippingCr(h: Header, from: nat, seen: seq<byte>, h': Header)
    requires h.state.Start? && Skipping(h, from, seen) && h'.state == HeaderAlmostDone
    ensures Skipping(h', from, seen + [CR]) && NameRead((seen + [CR])[from..]) == NameRead(seen[from..])
  {
    assert (seen + [CR])[from..] == seen[from..] + [CR];
    LineGrows(seen[from..], CR);
  }

  lemma IgnoringStart(h: Header, saved: Saved, seen: seq<byte>, ch: byte)
    requires h.state.Start? && Ignoring(h, saved, seen)
    ensures var t := StepHeader(h, seen, ch);
      t.Go? ==> Ignoring(t.state, saved, seen + [ch]) || Ordinary(t.state, seen + [ch])
  {
    if ch == CR {
      IgnoringCr(h, saved, seen);
    } else if ch == HTTP[0] {
      IgnoringFirst(h, saved, seen);
    } else {
      StartsOrdinary(h, seen, ch);
    }
  }

  lemma IgnoringCr(h: Header, saved: Saved, seen: seq<byte>)
    requires h.state.Start? && Ignoring(h, saved, seen)
    ensures var t := StepHeader(h, seen, CR); t.Go? && Ignoring(t.state, saved, seen + [CR])
  {
    var t := StepHeader(h, seen, CR);
    SkippingCr(h, saved.pos, seen, t.state);
    assert t.state.name == h.name.(invalid := false);
  }

  lemma IgnoringFirst(h: Header, saved: Saved, seen: seq<byte>)
    requires h.state.Start? && Ignoring(h, saved, seen)
    ensures var t := StepHeader(h, seen, HTTP[0]); t.Go? && Ignoring(t.state, saved, seen + [HTTP[0]])
  {
    var ch := HTTP[0];
    var t := StepHeader(h, seen, ch);
    HoldsFirst(h.name.lowcase[0 := Lower(ch)], saved, ch);
    SkippingFirst(h, saved.pos, seen, t.state);
  }

  /** Any other octet than that letter, or the slash after all of them, makes it an ordinary header. */
  lemma NameTurnsOrdinary(h: Header, seen: seq<byte>, ch: byte, line: seq<byte>)
    requires h.state.Name? && h.at.nameStart < |seen| && line == seen[h.at.nameStart..]
    requires !BeginsHttp(line + [ch])
    ensures var t := StepHeader(h, seen, ch);
      && (t.Go? ==> Ordinary(t.state, seen + [ch]) || (t.state == h.To(IgnoreLine) && line == HTTP && ch == SLASH))
      && (t.Done? ==> !t.state.Last())
  {
    assert (seen + [ch])[h.at.nameStart..] == line + [ch];
  }

  lemma IgnoringName(h: Header, saved: Saved, seen: seq<byte>, ch: byte)
    requires h.state.Name? && Ignoring(h, saved, seen)
    ensures var t := StepHeader(h, seen, ch);
      t.Go? ==> Ignoring(t.state, saved, seen + [ch]) || Ordinary(t.state, seen + [ch])
  {
    var line := seen[h.at.nameStart..];
    if BeginsHttp(line + [ch]) {
      var h' := h.(name := Add(h.name, Lower(ch)));
      SkippingLetter(h, saved.pos, seen, ch, line, h');
      assert Lower(ch) != NUL && StepHeader(h, seen, ch) == Go(h');
      HoldsNext(h.name, saved, line, ch);
    } else {
      NameTurnsOrdinary(h, seen, ch, line);
      if line == HTTP && ch == SLASH {
        SkippingSlash(h, saved.pos, seen, h.To(IgnoreLine));
      }
    }
  }

  lemma IgnoringEnd(h: Header, saved: Saved, seen: seq<byte>, ch: byte)
    requires (h.state.IgnoreLine? || h.state.HeaderAlmostDone?) && Ignoring(h, saved, seen)
    ensures var t := StepHeader(h, seen, ch); t.Go? ==> Ignoring(t.state, saved, seen + [ch])
  {
    var s := seen[saved.pos..];
    assert (seen + [ch])[saved.pos..] == s + [ch];
    LineGrows(s, ch);
  }

  lemma IgnoringOrOrdinary(h: Header, saved: Saved, seen: seq<byte>, ch: byte)
    requires Ignoring(h, saved, seen) || Ordinary(h, seen)
    ensures var t := StepHeader(h, seen, ch);
      t.Go? ==> Ignoring(t.state, saved, seen + [ch]) || Ordinary(t.state, seen + [ch])
  {
    if Ordinary(h, seen) {
      OrdinaryGoesOn(h, seen, ch);
    } else if h.state.Start? {
      IgnoringStart(h, saved, seen, ch);
    } else if h.state.Name? {
      IgnoringName(h, saved, seen, ch);
    } else {
      IgnoringEnd(h, saved, seen, ch);
    }
  }

  lemma CutIsIgnoringOrOrdinary(m: Memory, buf: seq<byte>)
    requires m.saved.state.Start? && m.saved.pos <= |buf|
    ensures var r := Run(StepHeader, Load(m), buf, m.saved.pos);
      r.Again? ==> Ignoring(r.state, m.saved, buf) || Ordinary(r.state, buf)
  {
    forall h: Header, seen: seq<byte>, ch: byte | Ignoring(h, m.saved, seen) || Ordinary(h, seen)
      ensures var t := StepHeader(h, seen, ch);
        t.Go? ==> Ignoring(t.state, m.saved, seen + [ch]) || Ordinary(t.state, seen + [ch])
    {
      IgnoringOrOrdinary(h, m.saved, seen, ch);
    }
    assert buf[..m.saved.pos][m.saved.pos..] == [];
    RunKeeps(StepHeader, (h: Header, seen: seq<byte>) => Ignoring(h, m.saved, seen) || Ordinary(h, seen),
             (h: Header, seen: seq<byte>) => true, Load(m), buf, m.saved.pos);
  }

  lemma OrdinaryDoesNotEndHeader(h: Header, buf: seq<byte>, p: nat)
    requires p <= |buf| && Ordinary(h, buf[..p])
    ensures CodeOf(Run(StepHeader, h, buf, p)) != HeaderDone
  {
    forall h: Header, seen: seq<byte>, ch: byte | Ordinary(h, seen)
      ensures var t := StepHeader(h, seen, ch);
        && (t.Go? ==> Ordinary(t.state, seen + [ch]))
        && (t.Done? ==> !t.state.Last())
    {
      OrdinaryGoesOn(h, seen, ch);
    }
    RunKeeps(StepHeader, (h: Header, seen: seq<byte>) => Ordinary(h, seen), (h: Header, seen: seq<byte>) => !h.Last(), h, buf, p);
  }

  /** Ending the header, the last of several calls keeps what the one before it saved. */
  lemma EndOfHeaderKeeps(m: Memory, buf: seq<byte>, cuts: seq<nat>)
    requires Growing(m.saved.pos, cuts, |buf|) && m.saved.state.Start?
    requires CodeOf(Call(PARSER, m, buf).0) == HeaderDone
    ensures SavesAll(PARSER)
    ensures var last, cut := Calls(PARSER, m, buf, cuts).1.saved, LastCut(m.saved.pos, cuts, Call(PARSER, m, buf).0.pos);
      && m.saved.pos <= cut <= |buf|
      && var name := NameRead(buf[m.saved.pos..cut]);
      && last.hash == (if name == [] then m.saved.hash else HashOf(Lowered(name)))
      && last.index == (if name == [] then m.saved.index else |name|)
  {
    CallsResume(PARSER, m, buf, cuts);
    var s := BeforeIsSaved(PARSER, m, buf, cuts);
    var cut := LastCut(m.saved.pos, cuts, Call(PARSER, m, buf).0.pos);
    CutIsIgnoringOrOrdinary(m, buf[..cut]);
    assert buf[..cut][m.saved.pos..] == buf[m.saved.pos..cut];
    if Ordinary(s, buf[..cut]) {
      OrdinaryDoesNotEndHeader(s, buf, cut);
    }
  }

  /** At the end of the header a single call keeps the hash and the index it found.  Several calls keep
    * them if and only if no letter of a line to be ignored was read before the last cut, or the letters
    * read have the very hash and length that were saved before. */
  lemma HashIsKeptIff(m: Memory, buf: seq<byte>, cuts: seq<nat>)
    requires Growing(m.saved.pos, cuts, |buf|) && m.saved.state.Start?
    requires CodeOf(Call(PARSER, m, buf).0) == HeaderDone
    ensures SavesAll(PARSER)
    ensures var (one, first), (many, last) := Call(PARSER, m, buf), Calls(PARSER, m, buf, cuts);
      var cut := LastCut(m.saved.pos, cuts, one.pos);
      && m.saved.pos <= cut <= |buf|
      && var name := NameRead(buf[m.saved.pos..cut]);
      && first.saved.hash == m.saved.hash && first.saved.index == m.saved.index
      && (last.saved.hash == first.saved.hash <==> name == [] || m.saved.hash == HashOf(Lowered(name)))
      && (last.saved.index == first.saved.index <==> name == [] || m.saved.index == |name|)
  {
    EndOfHeaderKeeps(m, buf, cuts);
  }

  /** "HTTP/" LF LF: a status line to be ignored, and the end of the header. */
  const REPEATED_STATUS: seq<byte> := [72, 84, 84, 80, SLASH, LF, LF]

  /** A request to an upstream, before its first header line. */
  const FRESH: Memory := Memory(
    Fields(Spans(0, 0, 0, 0), false, seq(LOWCASE_LEN, _ => NUL), false, true), Saved(Start, 0, 0, 0))

  lemma RunGoes(h: Header, buf: seq<byte>, p: nat, h': Header)
    requires p < |buf| && StepHeader(h, buf[..p], buf[p]) == Go(h')
    ensures Run(StepHeader, h, buf, p) == Run(StepHeader, h', buf, p + 1)
  {
  }

  /** The header ends with the seventh octet. */
  lemma RepeatedStatusEnds()
    ensures var r := Run(StepHeader, Load(FRESH), REPEATED_STATUS, 0); CodeOf(r) == HeaderDone && r.pos == 7
  {
    var b, h := REPEATED_STATUS, Load(FRESH);
    var h1 := h.(name := NameCopy(false, Hash(0, 104), 1, h.name.lowcase[0 := 104]), state := Name);
    RunGoes(h, b, 0, h1);
    var h2 := h1.(name := Add(h1.name, 116));
    RunGoes(h1, b, 1, h2);
    var h3 := h2.(name := Add(h2.name, 116));
    RunGoes(h2, b, 2, h3);
    var h4 := h3.(name := Add(h3.name, 112));
    RunGoes(h3, b, 3, h4);
    assert b[..4][0..] == HTTP;
    RunGoes(h4, b, 4, h4.To(IgnoreLine));
    RunGoes(h4.To(IgnoreLine), b, 5, h4.To(Start));
  }

  lemma CutInsideIgnoredLine(m: Memory, buf: seq<byte>, cut: nat)
    requires m.saved.state.Start? && m.saved.pos <= cut < |buf|
    requires var r := Run(StepHeader, Load(m), buf, m.saved.pos); CodeOf(r) == HeaderDone && r.pos == |buf|
    requires NameRead(buf[m.saved.pos..cut]) != []
    ensures SavesAll(PARSER)
    ensures var one, many, name := Call(PARSER, m, buf).1.saved, Calls(PARSER, m, buf, [cut]).1.saved, NameRead(buf[m.saved.pos..cut]);
      && one == Saved(Start, m.saved.hash, m.saved.index, |buf|)
      && |name| < LOWCASE_LEN && many == Saved(Start, HashOf(Lowered(name)), |name|, |buf|)
  {
    assert LastCut(m.saved.pos, [cut], |buf|) == cut;
    HeaderResumes(m, buf, [cut]);
    EndOfHeaderKeeps(m, buf, [cut]);
  }

  /** One call on the repeated status line leaves the saved hash and index as they were; cut behind
    * "HTTP/", two calls leave those of "http". */
  lemma SavedHashDependsOnCut()
    ensures SavesAll(PARSER)
    ensures var one, many := Call(PARSER, FRESH, REPEATED_STATUS).1.saved, Calls(PARSER, FRESH, REPEATED_STATUS, [5]).1.saved;
      one == Saved(Start, 0, 0, 7) && many == Saved(Start, HashOf(Lowered(HTTP)), 4, 7)
  {
    RepeatedStatusEnds();
    LineIsAll(REPEATED_STATUS[0..5]);
    assert NameRead(REPEATED_STATUS[0..5]) == HTTP;
    CutInsideIgnoredLine(FRESH, REPEATED_STATUS, 5);
  }

  lemma {:induction false} LineIsAll(s: seq<byte>)
    requires LF !in s
    ensures LineOf(s) == s
  {
    if s != [] {
      LineIsAll(s[..|s| - 1]);
      assert s[..|s| - 1] + [s[|s| - 1]] == s;
    }
  }
}
