/** The request line automaton (src/http/ngx_http_parse.c, ngx_http_parse_request_line). */
module RequestLine {
  import opened Bytes
  import opened UsualBitmap
  import opened Automaton

  datatype State =
    | Start | Method | SpacesBeforeUri
    | Schema | SchemaSlash | SchemaSlashSlash | Host | Port | HostHttp09
    | AfterSlashInUri | CheckUri | CheckUriHttp09 | InUri | Http09
    | HttpH | HttpHT | HttpHTT | HttpHTTP
    | FirstMajorDigit | MajorDigit | FirstMinorDigit | MinorDigit | SpacesAfterDigit
    | AlmostDone

  datatype Verb =
    | Unknown | Get | Head | Post | Put | Delete | Mkcol | Copy | Move | Options | Propfind | Proppatch
    | Lock | Unlock | Patch | Trace

  /** Pointers are offsets into the buffer. */
  datatype Offsets = Offsets(
    requestStart: Option<nat>, methodEnd: Option<nat>, schemaEnd: Option<nat>,
    uriStart: Option<nat>, uriEnd: Option<nat>, uriExt: Option<nat>, argsStart: Option<nat>,
    requestEnd: Option<nat>)

  /** Offsets nothing in this file reads back. */
  datatype Marks = Marks(
    schemaStart: Option<nat>, hostStart: Option<nat>, hostEnd: Option<nat>, portEnd: Option<nat>, httpProtocol: Option<nat>)

  datatype Flags = Flags(complexUri: bool, quotedUri: bool, plusInUri: bool, spaceInUri: bool)

  datatype Version = Version(major: nat, minor: nat)

  /** The request fields the automaton reads and writes. */
  datatype Line = Line(state: State, verb: Verb, at: Offsets, marks: Marks, flags: Flags, version: Version) {
    /** The same request in another state. */
    function To(s: State): Line {
      this.(state := s)
    }
  }

  /** A freshly allocated request. */
  const BLANK: Line := Line(
    Start, Unknown, Offsets(None, None, None, None, None, None, None, None), Marks(None, None, None, None, None),
    Flags(false, false, false, false), Version(0, 0))

  datatype Error = InvalidMethod | InvalidRequest | Invalid09Method

  type LineTurn = Turn<Line, Error>

  predicate IsLetter(ch: byte) {
    LOWER_A <= OrBit5(ch) <= LOWER_Z
  }

  predicate IsMethodOctet(ch: byte) {
    UPPER_A <= ch <= UPPER_Z || ch == UNDERSCORE
  }

  /** The method names, compared octet by octet as the ngx_strNcmp macros do. */
  function VerbOf(m: seq<byte>): Verb {
    if m == [71, 69, 84] then Get
    else if m == [80, 85, 84] then Put
    else if m == [80, 79, 83, 84] then Post
    else if m == [67, 79, 80, 89] then Copy
    else if m == [77, 79, 86, 69] then Move
    else if m == [76, 79, 67, 75] then Lock
    else if m == [72, 69, 65, 68] then Head
    else if m == [77, 75, 67, 79, 76] then Mkcol
    else if m == [80, 65, 84, 67, 72] then Patch
    else if m == [84, 82, 65, 67, 69] then Trace
    else if m == [68, 69, 76, 69, 84, 69] then Delete
    else if m == [85, 78, 76, 79, 67, 75] then Unlock
    else if m == [79, 80, 84, 73, 79, 78, 83] then Options
    else if m == [80, 82, 79, 80, 70, 73, 78, 68] then Propfind
    else if m == [80, 82, 79, 80, 80, 65, 84, 67, 72] then Proppatch
    else Unknown
  }

  const UPPER_H: byte := 72
  const UPPER_P: byte := 80
  const UPPER_T: byte := 84

  /** States before the URI: method, spaces, schema, host and port. */
  function StepBeforeUri(r: Line, seen: seq<byte>, ch: byte): LineTurn {
    var p := |seen|;
    match r.state
    case Start =>
      var r := r.(at := r.at.(requestStart := Some(p)));
      if ch == CR || ch == LF then Go(r)
      else if !IsMethodOctet(ch) then Reject(InvalidMethod, r)
      else Go(r.To(Method))
    case Method =>
      if ch == SPACE then Go(EndOfMethod(r, seen))
      else if !IsMethodOctet(ch) then Reject(InvalidMethod, r)
      else Go(r)
    case SpacesBeforeUri =>
      if ch == SLASH then Go(StartOfUri(r, p))
      else if IsLetter(ch) then Go(r.(marks := r.marks.(schemaStart := Some(p)), state := Schema))
      else if ch == SPACE then Go(r)
      else Reject(InvalidRequest, r)
    case Schema =>
      if IsLetter(ch) then Go(r)
      else if ch == COLON then Go(r.(at := r.at.(schemaEnd := Some(p)), state := SchemaSlash))
      else Reject(InvalidRequest, r)
    case SchemaSlash =>
      if ch == SLASH then Go(r.To(SchemaSlashSlash)) else Reject(InvalidRequest, r)
    case SchemaSlashSlash =>
      if ch == SLASH then Go(r.(marks := r.marks.(hostStart := Some(p + 1)), state := Host)) else Reject(InvalidRequest, r)
    case Host =>
      if IsLetter(ch) || IsDigit(ch) || ch == DOT || ch == MINUS then Go(r)
      else
        var r := r.(marks := r.marks.(hostEnd := Some(p)));
        if ch == COLON then Go(r.To(Port))
        else if ch == SLASH then Go(StartOfUri(r, p))
        else if ch == SPACE then Go(SlashOfSchema(r))
        else Reject(InvalidRequest, r)
    case _ =>
      var r' := r.(marks := r.marks.(portEnd := Some(p)));
      if IsDigit(ch) then Go(r)
      else if ch == SLASH then Go(StartOfUri(r', p))
      else if ch == SPACE then Go(SlashOfSchema(r'))
      else Reject(InvalidRequest, r)
  }

  /** The space after the method; an unknown method leaves the field as it was. */
  function EndOfMethod(r: Line, seen: seq<byte>): Line {
    var p := |seen|;
    var start := r.at.requestStart;
    var verb := if start.Some? && start.value <= p then VerbOf(seen[start.value..]) else Unknown;
    r.(at := r.at.(methodEnd := if p > 0 then Some(p - 1) else None),
       verb := if verb == Unknown then r.verb else verb,
       state := SpacesBeforeUri)
  }

  function StartOfUri(r: Line, p: nat): Line {
    r.(at := r.at.(uriStart := Some(p)), state := AfterSlashInUri)
  }

  /** "http://host ": the URI is the first slash after the schema. */
  function SlashOfSchema(r: Line): Line {
    match r.at.schemaEnd
    case None => r.To(HostHttp09)
    case Some(e) => r.(at := r.at.(uriStart := Some(e + 1), uriEnd := Some(e + 2)), state := HostHttp09)
  }

  /** CR or LF before any version: an HTTP/0.9 request. */
  function EndOfOldLine(r: Line, ch: byte): LineTurn {
    var r := r.(version := r.version.(minor := 9));
    if ch == CR then Go(r.To(AlmostDone)) else Done(r)
  }

  /** The end of a URI by a space, CR or LF. */
  function EndOfUri(r: Line, p: nat, ch: byte, onSpace: State): LineTurn {
    var r := r.(at := r.at.(uriEnd := Some(p)));
    if ch == SPACE then Go(r.To(onSpace)) else EndOfOldLine(r, ch)
  }

  /** A '?' that starts the arguments. */
  function StartOfArgs(r: Line, p: nat): Line {
    r.(at := r.at.(argsStart := Some(p + 1)), state := InUri)
  }

  function MarkComplex(r: Line): Line {
    r.(flags := r.flags.(complexUri := true), state := InUri)
  }

  function MarkQuoted(r: Line): Line {
    r.(flags := r.flags.(quotedUri := true), state := InUri)
  }

  function MarkPlus(r: Line): Line {
    r.(flags := r.flags.(plusInUri := true))
  }

  /** States inside the URI. */
  function StepUri(r: Line, p: nat, ch: byte): LineTurn {
    match r.state
    case AfterSlashInUri =>
      if Unreserved(ch) then Go(r.To(CheckUri))
      else if ch == SPACE || ch == CR || ch == LF then EndOfUri(r, p, ch, CheckUriHttp09)
      else if ch == DOT || ch == SLASH || ch == HASH then Go(MarkComplex(r))
      else if ch == PERCENT then Go(MarkQuoted(r))
      else if ch == QUESTION then Go(StartOfArgs(r, p))
      else if ch == PLUS then Go(MarkPlus(r))
      else if ch == NUL then Reject(InvalidRequest, r)
      else Go(r.To(CheckUri))
    case CheckUri =>
      if Unreserved(ch) then Go(r)
      else if ch == SLASH then Go(r.(at := r.at.(uriExt := None), state := AfterSlashInUri))
      else if ch == DOT then Go(r.(at := r.at.(uriExt := Some(p + 1))))
      else if ch == SPACE || ch == CR || ch == LF then EndOfUri(r, p, ch, CheckUriHttp09)
      else if ch == PERCENT then Go(MarkQuoted(r))
      else if ch == QUESTION then Go(StartOfArgs(r, p))
      else if ch == HASH then Go(MarkComplex(r))
      else if ch == PLUS then Go(MarkPlus(r))
      else if ch == NUL then Reject(InvalidRequest, r)
      else Go(r)
    case _ =>
      if Unreserved(ch) then Go(r)
      else if ch == SPACE || ch == CR || ch == LF then EndOfUri(r, p, ch, Http09)
      else if ch == HASH then Go(MarkComplex(r))
      else if ch == NUL then Reject(InvalidRequest, r)
      else Go(r)
  }

  /** Spaces after the URI; anything but a version resumes the URI where the code still accepts it. */
  function StepAfterUri(r: Line, p: nat, ch: byte): LineTurn {
    if ch == SPACE then Go(r)
    else if ch == CR || ch == LF then EndOfOldLine(r, ch)
    else if ch == UPPER_H then Go(r.(marks := r.marks.(httpProtocol := Some(p)), state := HttpH))
    else if r.state == CheckUriHttp09 then Go(r.(flags := r.flags.(spaceInUri := true), state := CheckUri))
    else if r.state == Http09 then Go(r.(flags := r.flags.(spaceInUri := true), state := InUri))
    else Reject(InvalidRequest, r)
  }

  /** A 16-bit version number with one more decimal digit. */
  function Digit16(n: nat, ch: byte): nat
    requires IsDigit(ch)
  {
    (n * 10 + (ch - ZERO)) % 0x10000
  }

  function Expect(r: Line, ch: byte, wanted: byte, next: State): LineTurn {
    if ch == wanted then Go(r.To(next)) else Reject(InvalidRequest, r)
  }

  function WithVersion(r: Line, major: nat, minor: nat, next: State): Line {
    r.(version := Version(major, minor), state := next)
  }

  /** The protocol version. */
  function StepVersion(r: Line, ch: byte): LineTurn {
    match r.state
    case HttpH => Expect(r, ch, UPPER_T, HttpHT)
    case HttpHT => Expect(r, ch, UPPER_T, HttpHTT)
    case HttpHTT => Expect(r, ch, UPPER_P, HttpHTTP)
    case HttpHTTP => Expect(r, ch, SLASH, FirstMajorDigit)
    case FirstMajorDigit =>
      if !IsDigit(ch) || ch == ZERO then Reject(InvalidRequest, r)
      else Go(WithVersion(r, ch - ZERO, r.version.minor, MajorDigit))
    case MajorDigit =>
      if ch == DOT then Go(r.To(FirstMinorDigit))
      else if !IsDigit(ch) then Reject(InvalidRequest, r)
      else Go(WithVersion(r, Digit16(r.version.major, ch), r.version.minor, MajorDigit))
    case FirstMinorDigit =>
      if !IsDigit(ch) then Reject(InvalidRequest, r)
      else Go(WithVersion(r, r.version.major, ch - ZERO, MinorDigit))
    case MinorDigit =>
      if ch == CR then Go(r.To(AlmostDone))
      else if ch == LF then Done(r)
      else if ch == SPACE then Go(r.To(SpacesAfterDigit))
      else if !IsDigit(ch) then Reject(InvalidRequest, r)
      else Go(WithVersion(r, r.version.major, Digit16(r.version.minor, ch), MinorDigit))
    case _ =>
      if ch == SPACE then Go(r)
      else if ch == CR then Go(r.To(AlmostDone))
      else if ch == LF then Done(r)
      else Reject(InvalidRequest, r)
  }

  /** The octet after CR. */
  function StepAlmostDone(r: Line, p: nat, ch: byte): LineTurn {
    var r := r.(at := r.at.(requestEnd := if p > 0 then Some(p - 1) else None));
    if ch == LF then Done(r) else Reject(InvalidRequest, r)
  }

  predicate BeforeUri(s: State) {
    s.Start? || s.Method? || s.SpacesBeforeUri? || s.Schema? || s.SchemaSlash? || s.SchemaSlashSlash? || s.Host? || s.Port?
  }

  predicate WithinUri(s: State) {
    s.AfterSlashInUri? || s.CheckUri? || s.InUri?
  }

  predicate AfterUri(s: State) {
    s.CheckUriHttp09? || s.Http09? || s.HostHttp09?
  }

  /** Label `done`, reached with the line feed at offset p. */
  function Conclude(r: Line, p: nat): LineTurn {
    var r := r.(at := r.at.(requestEnd := if r.at.requestEnd.None? then Some(p) else r.at.requestEnd), state := Start);
    if r.version.major * 1000 + r.version.minor == 9 && r.verb != Get then Reject(Invalid09Method, r) else Done(r)
  }

  function StepState(r: Line, seen: seq<byte>, ch: byte): LineTurn {
    if BeforeUri(r.state) then StepBeforeUri(r, seen, ch)
    else if WithinUri(r.state) then StepUri(r, |seen|, ch)
    else if AfterUri(r.state) then StepAfterUri(r, |seen|, ch)
    else if r.state == AlmostDone then StepAlmostDone(r, |seen|, ch)
    else StepVersion(r, ch)
  }

  /** One turn of the loop. */
  function StepLine(r: Line, seen: seq<byte>, ch: byte): LineTurn {
    match StepState(r, seen, ch)
    case Go(r') => Go(r')
    case Done(r') => Conclude(r', |seen|)
    case Reject(e, r') => Reject(e, r')
  }

  // ---------------------------------------------------------------- calls

  /** What outlives a call: the request with r->state, and b->pos. */
  datatype Memory = Memory(line: Line, pos: nat)

  datatype Code = NgxAgain | NgxOk | Refused(error: Error)

  function CodeOf(r: Result<Line, Error>): Code {
    match r
    case Again(_, _) => NgxAgain
    case Complete(_, _) => NgxOk
    case Failed(e, _, _) => Refused(e)
  }

  function Load(m: Memory): Line {
    m.line
  }

  function From(m: Memory): nat {
    m.pos
  }

  /** Request fields are written as the loop runs.  The local `state` and the position are stored before
    * asking for more and at label `done`, which also precedes the test of the method; the other errors
    * return without storing them. */
  function Store(m: Memory, r: Result<Line, Error>): Memory {
    match r
    case Again(s, p) => Memory(s, p)
    case Complete(s, p) => Memory(s.To(Start), p)
    case Failed(Invalid09Method, s, p) => Memory(s.To(Start), p)
    case Failed(_, s, _) => Memory(s.To(m.line.state), m.pos)
  }

  const PARSER: Parser<Memory, Line, Error> := Parser(StepLine, Load, From, Store)

  class Request {
    var line: Line
    var pos: nat

    function Kept(): Memory
      reads this
    {
      Memory(line, pos)
    }

    /** ngx_http_parse_request_line on the part of `buf` filled so far, from b->pos on. */
    method Parse(buf: seq<byte>) returns (code: Code)
      requires pos <= |buf|
      modifies this
      ensures var (r, m) := Call(PARSER, old(Kept()), buf); code == CodeOf(r) && Kept() == m
    {
      var r := Drive(StepLine, line, buf, pos);
      match r {
        case Again(s, p) => line, pos := s, p;
        case Complete(s, p) => line, pos := s.To(Start), p;
        case Failed(Invalid09Method, s, p) => line, pos := s.To(Start), p;
        case Failed(_, s, _) => line := s.To(line.state);
      }
      code := CodeOf(r);
    }

    /** The caller's loop: it reads more and calls again as long as it is asked to. */
    method ParseArriving(buf: seq<byte>, cuts: seq<nat>) returns (code: Code)
      requires Growing(pos, cuts, |buf|)
      modifies this
      ensures SavesAll(PARSER)
      ensures var (r, m) := Calls(PARSER, old(Kept()), buf, cuts); code == CodeOf(r) && Kept() == m
      decreases |cuts|
    {
      if cuts == [] {
        code := Parse(buf);
      } else {
        code := Parse(buf[..cuts[0]]);
        if code == NgxAgain {
          code := ParseArriving(buf, cuts[1..]);
        }
      }
    }
  }

  /** Errors that return before the position is stored. */
  predicate Unstored(r: Result<Line, Error>) {
    r.Failed? && r.error != Invalid09Method
  }

  /** However the request line arrives, the return code and every recorded field are those of a single
    * call, also when the line is rejected; so are the position and the saved state, unless an error
    * returned before storing them.  Then they are left where the call before it stopped. */
  lemma RequestLineResumes(m: Memory, buf: seq<byte>, cuts: seq<nat>)
    requires Growing(m.pos, cuts, |buf|)
    ensures SavesAll(PARSER)
    ensures var (one, first), (many, last) := Call(PARSER, m, buf), Calls(PARSER, m, buf, cuts);
      && CodeOf(many) == CodeOf(one)
      && last.line.To(Start) == first.line.To(Start)
      && (!Unstored(one) ==> last == first)
      && (Unstored(one) ==> first.pos == m.pos && last.pos == LastCut(m.pos, cuts, one.pos))
  {
    CallsResume(PARSER, m, buf, cuts);
    var s := BeforeIsSaved(PARSER, m, buf, cuts);
  }

  // ---------------------------------------------------------------- where the offsets lie

  /** The method token lies before offset p, which is past the space that ends it. */
  ghost predicate MethodPlaced(o: Offsets, p: nat) {
    && o.requestStart.Some? && o.methodEnd.Some?
    && o.requestStart.value <= o.methodEnd.value && o.methodEnd.value + 1 < p
  }

  ghost predicate UriStarted(o: Offsets, p: nat) {
    && MethodPlaced(o, p) && o.uriStart.Some?
    && o.methodEnd.value < o.uriStart.value < p
  }

  /** The whole URI, with its arguments if any, lies before offset p. */
  ghost predicate UriPlaced(o: Offsets, p: nat) {
    && UriStarted(o, p) && o.uriEnd.Some?
    && o.uriStart.value < o.uriEnd.value <= p
    && (o.argsStart.Some? ==> o.uriStart.value < o.argsStart.value <= o.uriEnd.value)
  }

  /** The slash that "http://host " uses as its URI lies just after the schema. */
  ghost predicate SchemaPlaced(o: Offsets, p: nat, distance: nat) {
    && MethodPlaced(o, p) && o.argsStart.None?
    && o.schemaEnd.Some? && o.methodEnd.value < o.schemaEnd.value && o.schemaEnd.value + distance <= p
  }

  /** What holds of the offsets between two turns. */
  ghost predicate Placed(r: Line, p: nat) {
    var s, o := r.state, r.at;
    && o.requestEnd.None?
    && (if s.Start? then o.argsStart.None?
        else if s.Method? then o.argsStart.None? && o.requestStart.Some? && o.requestStart.value < p
        else if s.SpacesBeforeUri? || s.Schema? then MethodPlaced(o, p) && o.argsStart.None?
        else if BeforeUri(s) then SchemaPlaced(o, p, if s.SchemaSlash? then 1 else if s.SchemaSlashSlash? then 2 else 3)
        else if s.InUri? then UriStarted(o, p) && (o.argsStart.Some? ==> o.uriStart.value < o.argsStart.value <= p)
        else if WithinUri(s) then UriStarted(o, p) && o.argsStart.None?
        else if s.AlmostDone? then p > 0 && UriPlaced(o, p - 1)
        else UriPlaced(o, p) && (s.CheckUriHttp09? ==> o.argsStart.None?))
  }

  /** The offsets a successful parse leaves in the request, in the order section 5.1 of RFC 2616 gives. */
  ghost predicate Ordered(r: Line, p: nat) {
    && UriPlaced(r.at, p) && r.at.requestEnd.Some?
    && r.at.requestStart.value <= r.at.methodEnd.value < r.at.uriStart.value < r.at.uriEnd.value
       <= r.at.requestEnd.value < p
  }

  /** What a turn of a state has to establish; the end of the line still has to be recorded. */
  ghost predicate TurnPlaced(t: LineTurn, p: nat) {
    match t
    case Go(r) => Placed(r, p)
    case Done(r) =>
      && UriPlaced(r.at, p) && r.at.uriEnd.value < p
      && (r.at.requestEnd.Some? ==> r.at.uriEnd.value <= r.at.requestEnd.value < p)
    case Reject(_, _) => true
  }

  lemma BeforeUriPlaced(r: Line, seen: seq<byte>, ch: byte)
    requires Placed(r, |seen|) && BeforeUri(r.state)
    ensures TurnPlaced(StepState(r, seen, ch), |seen| + 1)
  {
  }

  lemma AfterSlashPlaced(r: Line, seen: seq<byte>, ch: byte)
    requires Placed(r, |seen|) && r.state.AfterSlashInUri?
    ensures TurnPlaced(StepState(r, seen, ch), |seen| + 1)
  {
  }

  lemma CheckUriPlaced(r: Line, seen: seq<byte>, ch: byte)
    requires Placed(r, |seen|) && r.state.CheckUri?
    ensures TurnPlaced(StepState(r, seen, ch), |seen| + 1)
  {
  }

  lemma InUriPlaced(r: Line, seen: seq<byte>, ch: byte)
    requires Placed(r, |seen|) && r.state.InUri?
    ensures TurnPlaced(StepState(r, seen, ch), |seen| + 1)
  {
  }

  lemma AfterUriPlaced(r: Line, seen: seq<byte>, ch: byte)
    requires Placed(r, |seen|) && AfterUri(r.state)
    ensures TurnPlaced(StepState(r, seen, ch), |seen| + 1)
  {
  }

  ghost predicate InVersion(s: State) {
    !BeforeUri(s) && !WithinUri(s) && !AfterUri(s) && !s.AlmostDone?
  }

  /** The version states move no offset, and stay among themselves until the line ends. */
  lemma VersionKeepsOffsets(r: Line, ch: byte)
    requires InVersion(r.state)
    ensures var t := StepVersion(r, ch);
      && (!t.Reject? ==> t.state.at == r.at && t.state.flags == r.flags)
      && (t.Go? ==> InVersion(t.state.state) || t.state.state.AlmostDone?)
      && (t.Done? ==> ch == LF)
  {
  }

  lemma VersionPlaced(r: Line, seen: seq<byte>, ch: byte)
    requires Placed(r, |seen|) && (InVersion(r.state) || r.state.AlmostDone?)
    ensures TurnPlaced(StepState(r, seen, ch), |seen| + 1)
  {
    if InVersion(r.state) {
      VersionKeepsOffsets(r, ch);
    }
  }

  lemma StatePlaced(r: Line, seen: seq<byte>, ch: byte)
    requires Placed(r, |seen|)
    ensures TurnPlaced(StepState(r, seen, ch), |seen| + 1)
  {
    if BeforeUri(r.state) {
      BeforeUriPlaced(r, seen, ch);
    } else if r.state.AfterSlashInUri? {
      AfterSlashPlaced(r, seen, ch);
    } else if r.state.CheckUri? {
      CheckUriPlaced(r, seen, ch);
    } else if r.state.InUri? {
      InUriPlaced(r, seen, ch);
    } else if AfterUri(r.state) {
      AfterUriPlaced(r, seen, ch);
    } else {
      VersionPlaced(r, seen, ch);
    }
  }

  lemma StepPlaced(r: Line, seen: seq<byte>, ch: byte)
    requires Placed(r, |seen|)
    ensures var t := StepLine(r, seen, ch);
      && (t.Go? ==> Placed(t.state, |seen| + 1))
      && (t.Done? ==> Ordered(t.state, |seen| + 1))
  {
    StatePlaced(r, seen, ch);
  }

  /** For every request line that parses, the recorded offsets delimit method, URI and arguments in order. */
  lemma OffsetsAreOrdered(buf: seq<byte>)
    ensures var r := Run(StepLine, BLANK, buf, 0);
      && (r.Complete? ==> r.pos <= |buf| && Ordered(r.state, r.pos))
      && (r.Again? ==> Placed(r.state, |buf|))
  {
    forall r: Line, seen: seq<byte>, ch: byte | Placed(r, |seen|)
      ensures var t := StepLine(r, seen, ch);
        && (t.Go? ==> Placed(t.state, |seen + [ch]|))
        && (t.Done? ==> Ordered(t.state, |seen + [ch]|))
    {
      StepPlaced(r, seen, ch);
    }
    RunKeeps(StepLine, (r: Line, seen: seq<byte>) => Placed(r, |seen|), (r: Line, seen: seq<byte>) => Ordered(r, |seen|),
             BLANK, buf, 0);
  }
}
