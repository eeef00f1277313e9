/** Normalisation of a complex request URI (src/http/ngx_http_parse.c, ngx_http_parse_complex_uri).
  *
  * The specification works in two passes: percent-decode up to the first raw '?' or '#', then split
  * the decoded path at slashes and resolve dot segments on a stack.  The code does both at once in
  * one forward scan over a moving output pointer.  The two are proved equal on every input.
  */
module Uri {
  import opened Bytes
  import opened UsualBitmap

  // ---------------------------------------------------------------- pass one: percent-decoding

  /** Value of a hexadecimal digit. */
  function HexValue(ch: byte): (v: Option<nat>)
    ensures v.Some? ==> v.value < 16
  {
    if ZERO <= ch <= NINE then Some(ch - ZERO)
    else if LOWER_A <= ch <= LOWER_F then Some(ch - LOWER_A + 10)
    else if UPPER_A <= ch <= UPPER_F then Some(ch - UPPER_A + 10)
    else None
  }

  /** A decoded path together with the number of source octets it was decoded from; `quoted` says
    * whether an escape was entered, `stop` is the offset of the raw '?' or '#' that ended it. */
  datatype Decoded = Decoded(path: seq<byte>, stop: nat, quoted: bool)

  function Prepend(b: byte, width: nat, rest: Option<Decoded>, quoted: bool): Option<Decoded> {
    match rest
    case None => None
    case Some(d) => Some(Decoded([b] + d.path, d.stop + width, d.quoted || quoted))
  }

  /** Decode up to the first raw '?' or '#'.  A decoded octet is plain data, so a decoded '%', '#' or
    * '?' stays literal; a bad digit or %00 fails; an unfinished final escape is dropped. */
  function Decode(s: seq<byte>): (r: Option<Decoded>)
    ensures r.Some? ==> |r.value.path| <= r.value.stop <= |s|
    ensures r.Some? && r.value.stop < |s| ==> s[r.value.stop] == QUESTION || s[r.value.stop] == HASH
    decreases |s|
  {
    if s == [] || s[0] == QUESTION || s[0] == HASH then Some(Decoded([], 0, false))
    else if s[0] != PERCENT then Prepend(s[0], 1, Decode(s[1..]), false)
    else if |s| == 1 then Some(Decoded([], 1, false))
    else if HexValue(s[1]).None? then None
    else if |s| == 2 then Some(Decoded([], 2, true))
    else if HexValue(s[2]).None? then None
    else
      var b: byte := HexValue(s[1]).value * 16 + HexValue(s[2]).value;
      if b == NUL then None else Prepend(b, 3, Decode(s[3..]), true)
  }

  // ---------------------------------------------------------------- pass two: dot segments

  const DOT_SEGMENT: seq<byte> := [DOT]
  const DOT_DOT_SEGMENT: seq<byte> := [DOT, DOT]

  /** The pieces of a path between its slashes; there is one piece more than there are slashes. */
  function Split(d: seq<byte>): (parts: seq<seq<byte>>)
    ensures |parts| >= 1
  {
    if d == [] then [[]]
    else
      var parts := Split(d[..|d| - 1]);
      var n := |parts| - 1;
      if d[|d| - 1] == SLASH then parts + [[]]
      else parts[..n] + [parts[n] + [d[|d| - 1]]]
  }

  /** Remove the innermost directory.  An empty segment, which only exists when slashes are not
    * merged, does not count as a directory: it goes together with the segment before it. */
  function Pop(stack: seq<seq<byte>>): Option<seq<seq<byte>>> {
    var n := |stack|;
    if n == 0 then None
    else if stack[n - 1] != [] then Some(stack[..n - 1])
    else if n == 1 then None
    else Some(stack[..n - 2])
  }

  /** Resolve the slash-terminated segments on a stack of directories. */
  function Resolve(segments: seq<seq<byte>>, merge: bool): (r: Option<seq<seq<byte>>>)
    decreases |segments|
  {
    if segments == [] then Some([])
    else
      var seg := segments[|segments| - 1];
      match Resolve(segments[..|segments| - 1], merge)
      case None => None
      case Some(stack) =>
        if seg == [] then Some(if merge then stack else stack + [[]])
        else if seg == DOT_SEGMENT then Some(stack)
        else if seg == DOT_DOT_SEGMENT then Pop(stack)
        else Some(stack + [seg])
  }

  function Join(stack: seq<seq<byte>>): seq<byte> {
    if stack == [] then [] else Join(stack[..|stack| - 1]) + stack[|stack| - 1] + [SLASH]
  }

  /** The octets before the last segment of the normalised path, given all pieces of the path. */
  function Directory(parts: seq<seq<byte>>, merge: bool): Option<seq<byte>>
    requires |parts| >= 1
  {
    if |parts| == 1 then Some([])
    else
      match Resolve(parts[1..|parts| - 1], merge)
      case None => None
      case Some(stack) => Some(parts[0] + [SLASH] + Join(stack))
  }

  /** Dot-segment removal; the piece after the last slash is kept verbatim, even if it is "..". */
  function Normalise(d: seq<byte>, merge: bool): Option<seq<byte>> {
    var parts := Split(d);
    match Directory(parts, merge)
    case None => None
    case Some(dir) => Some(dir + parts[|parts| - 1])
  }

  predicate OnlyDots(segment: seq<byte>) {
    segment == [] || segment == DOT_SEGMENT || segment == DOT_DOT_SEGMENT
  }

  /** Offset just past the last dot of a segment that is not one of its (at most three) leading
    * dots; `first` marks the piece before any slash, where leading dots are not special. */
  function Extension(segment: seq<byte>, first: bool): (e: Option<nat>)
    ensures e.Some? ==> 0 < e.value <= |segment|
  {
    if segment == [] then None
    else
      var before := segment[..|segment| - 1];
      if segment[|segment| - 1] == DOT && (first || !OnlyDots(before)) then Some(|segment|)
      else Extension(before, first)
  }

  /** First offset at or after `from` that holds `b`, or the length. */
  function IndexOf(s: seq<byte>, b: byte, from: nat): (i: nat)
    requires from <= |s|
    ensures from <= i <= |s|
    ensures i < |s| ==> s[i] == b
    ensures forall j | from <= j < i :: s[j] != b
    decreases |s| - from
  {
    if from == |s| || s[from] == b then from else IndexOf(s, b, from + 1)
  }

  // ---------------------------------------------------------------- what the caller observes

  /** The request fields set by the parser.  `extension` and `path` refer to the output buffer,
    * the two argument fields are offsets into the source. */
  datatype Parsed = Parsed(
    path: seq<byte>,
    extension: Option<nat>,
    argsStart: Option<nat>,
    args: Option<(nat, nat)>,
    plusInUri: bool,
    quotedUri: bool)

  /** The argument fields: everything after a raw '?' up to a raw '#', if there is one. */
  function Arguments(s: seq<byte>, stop: nat): (Option<nat>, Option<(nat, nat)>)
    requires stop <= |s|
  {
    if stop == |s| || s[stop] != QUESTION then (None, None)
    else
      var fragment := IndexOf(s, HASH, stop + 1);
      if fragment < |s| then (None, Some((stop + 1, fragment))) else (Some(stop + 1), None)
  }

  /** The fields for a decoded path. */
  function Describe(s: seq<byte>, d: Decoded, merge: bool): Option<Parsed>
    requires d.stop <= |s|
  {
    match Normalise(d.path, merge)
    case None => None
    case Some(path) =>
      var parts := Split(d.path);
      var last := parts[|parts| - 1];
      var ext := Extension(last, |parts| == 1);
      var (argsStart, args) := Arguments(s, d.stop);
      Some(Parsed(
        path,
        if ext.None? then None else Some(|path| - |last| + ext.value),
        argsStart, args, PLUS in d.path, d.quoted))
  }

  /** The two-pass reference meaning of a URI. */
  function Reference(s: seq<byte>, merge: bool): Option<Parsed> {
    match Decode(s)
    case None => None
    case Some(d) => Describe(s, d, merge)
  }

  // ---------------------------------------------------------------- the path under construction

  /** A prefix of a decoded path: the piece before the first slash, the directories on the stack and
    * the unfinished segment.  While `first` holds no slash has been seen. */
  datatype Path = Path(first: bool, root: seq<byte>, stack: seq<seq<byte>>, last: seq<byte>) {
    function Dir(): seq<byte> {
      if first then [] else root + [SLASH] + Join(stack)
    }

    ghost predicate SlashFree() {
      && SLASH !in root && SLASH !in last
      && forall p | p in stack :: SLASH !in p
    }
  }

  const EMPTY_PATH := Path(true, [], [], [])

  /** One more decoded octet: only a slash closes a segment. */
  function Step(path: Path, b: byte, merge: bool): Option<Path> {
    if b != SLASH then Some(path.(last := path.last + [b]))
    else if path.first then Some(Path(false, path.last, [], []))
    else if path.last == [] then Some(if merge then path else path.(stack := path.stack + [[]]))
    else if path.last == DOT_SEGMENT then Some(path.(last := []))
    else if path.last == DOT_DOT_SEGMENT then
      match Pop(path.stack)
      case None => None
      case Some(stack) => Some(path.(stack := stack, last := []))
    else Some(path.(stack := path.stack + [path.last], last := []))
  }

  /** What decoding and stepping from offset k on amounts to. */
  datatype Outcome = Outcome(path: Path, stop: nat, plus: bool, quoted: bool)

  /** The single-pass meaning: decode and step octet by octet. */
  function Walk(path: Path, s: seq<byte>, k: nat, merge: bool, plus: bool, quoted: bool): Option<Outcome>
    requires k <= |s|
    decreases |s| - k, 0
  {
    if k == |s| || s[k] == QUESTION || s[k] == HASH then Some(Outcome(path, k, plus, quoted))
    else if s[k] != PERCENT then Take(path, s[k], s, k + 1, merge, plus, quoted)
    else if k + 1 == |s| then Some(Outcome(path, k + 1, plus, quoted))
    else if HexValue(s[k + 1]).None? then None
    else if k + 2 == |s| then Some(Outcome(path, k + 2, plus, true))
    else if HexValue(s[k + 2]).None? then None
    else
      var b: byte := HexValue(s[k + 1]).value * 16 + HexValue(s[k + 2]).value;
      if b == NUL then None else Take(path, b, s, k + 3, merge, plus, true)
  }

  /** Step over the octet b, then walk on from offset k. */
  function Take(path: Path, b: byte, s: seq<byte>, k: nat, merge: bool, plus: bool, quoted: bool): Option<Outcome>
    requires k <= |s|
    decreases |s| - k, 1
  {
    match Step(path, b, merge)
    case None => None
    case Some(p) => Walk(p, s, k, merge, plus || b == PLUS, quoted)
  }

  // ---------------------------------------------------------------- one pass equals two passes

  function Fold(path: Path, d: seq<byte>, merge: bool): Option<Path>
    decreases |d|
  {
    if d == [] then Some(path)
    else
      match Step(path, d[0], merge)
      case None => None
      case Some(p) => Fold(p, d[1..], merge)
  }

  /** The outcome of folding a decoded suffix, as Walk reports it. */
  function Folded(path: Path, d: Option<Decoded>, k: nat, merge: bool, plus: bool, quoted: bool): Option<Outcome> {
    match d
    case None => None
    case Some(x) =>
      match Fold(path, x.path, merge)
      case None => None
      case Some(p) => Some(Outcome(p, k + x.stop, plus || PLUS in x.path, quoted || x.quoted))
  }

  lemma FoldedPrepend(path: Path, b: byte, width: nat, d: Option<Decoded>, q: bool,
                      k: nat, merge: bool, plus: bool, quoted: bool)
    ensures Folded(path, Prepend(b, width, d, q), k, merge, plus, quoted) ==
      match Step(path, b, merge)
      case None => None
      case Some(p) => Folded(p, d, k + width, merge, plus || b == PLUS, quoted || q)
  {
    if d.Some? {
      assert ([b] + d.value.path)[1..] == d.value.path;
    }
  }

  /** Decoding and stepping in one pass is folding the decoded octets. */
  lemma {:induction false} WalkFoldsDecoded(path: Path, s: seq<byte>, k: nat, merge: bool, plus: bool, quoted: bool)
    requires k <= |s|
    ensures Walk(path, s, k, merge, plus, quoted) == Folded(path, Decode(s[k..]), k, merge, plus, quoted)
    decreases |s| - k, 0
  {
    var t := s[k..];
    if k == |s| || s[k] == QUESTION || s[k] == HASH {
    } else if s[k] != PERCENT {
      assert t[1..] == s[k + 1..];
      FoldedPrepend(path, s[k], 1, Decode(s[k + 1..]), false, k, merge, plus, quoted);
      TakeFoldsDecoded(path, s[k], s, k + 1, merge, plus, quoted);
    } else if k + 2 < |s| && HexValue(s[k + 1]).Some? && HexValue(s[k + 2]).Some? {
      assert t[1] == s[k + 1] && t[2] == s[k + 2] && t[3..] == s[k + 3..];
      var b: byte := HexValue(s[k + 1]).value * 16 + HexValue(s[k + 2]).value;
      if b != NUL {
        FoldedPrepend(path, b, 3, Decode(s[k + 3..]), true, k, merge, plus, quoted);
        TakeFoldsDecoded(path, b, s, k + 3, merge, plus, true);
      }
    }
  }

  lemma {:induction false} TakeFoldsDecoded(path: Path, b: byte, s: seq<byte>, k: nat, merge: bool, plus: bool, quoted: bool)
    requires k <= |s|
    ensures Take(path, b, s, k, merge, plus, quoted) ==
      match Step(path, b, merge)
      case None => None
      case Some(p) => Folded(p, Decode(s[k..]), k, merge, plus || b == PLUS, quoted)
    decreases |s| - k, 1
  {
    match Step(path, b, merge)
    case None =>
    case Some(p) => WalkFoldsDecoded(p, s, k, merge, plus || b == PLUS, quoted);
  }

  lemma {:induction false} FoldSnoc(path: Path, d: seq<byte>, b: byte, merge: bool)
    ensures Fold(path, d + [b], merge) ==
      match Fold(path, d, merge)
      case None => None
      case Some(p) => Step(p, b, merge)
    decreases |d|
  {
    if d == [] {
      assert ([] + [b])[1..] == [];
    } else {
      assert (d + [b])[1..] == d[1..] + [b];
      match Step(path, d[0], merge)
      case None =>
      case Some(p) => FoldSnoc(p, d[1..], b, merge);
    }
  }

  lemma ResolveSnoc(segments: seq<seq<byte>>, seg: seq<byte>, merge: bool)
    ensures Resolve(segments + [seg], merge) ==
      match Resolve(segments, merge)
      case None => None
      case Some(stack) =>
        if seg == [] then Some(if merge then stack else stack + [[]])
        else if seg == DOT_SEGMENT then Some(stack)
        else if seg == DOT_DOT_SEGMENT then Pop(stack)
        else Some(stack + [seg])
  {
    assert (segments + [seg])[..|segments|] == segments;
  }

  /** The path as the two-pass specification sees it. */
  function Resolved(parts: seq<seq<byte>>, merge: bool): Option<Path>
    requires |parts| >= 1
  {
    if |parts| == 1 then Some(Path(true, [], [], parts[0]))
    else
      match Resolve(parts[1..|parts| - 1], merge)
      case None => None
      case Some(stack) => Some(Path(false, parts[0], stack, parts[|parts| - 1]))
  }

  lemma ResolvedGrow(parts: seq<seq<byte>>, b: byte, merge: bool)
    requires |parts| >= 1 && b != SLASH
    ensures var n := |parts| - 1;
      Resolved(parts[..n] + [parts[n] + [b]], merge) ==
        match Resolved(parts, merge)
        case None => None
        case Some(p) => Step(p, b, merge)
  {
    var n := |parts| - 1;
    var parts' := parts[..n] + [parts[n] + [b]];
    if n > 0 {
      assert parts'[1..n] == parts[1..n];
    }
  }

  lemma ResolvedClose(parts: seq<seq<byte>>, merge: bool)
    requires |parts| >= 1
    ensures Resolved(parts + [[]], merge) ==
      match Resolved(parts, merge)
      case None => None
      case Some(p) => Step(p, SLASH, merge)
  {
    var n := |parts| - 1;
    if n == 0 {
      assert (parts + [[]])[1..1] == [];
    } else {
      assert (parts + [[]])[1..n + 1] == parts[1..n] + [parts[n]];
      ResolveSnoc(parts[1..n], parts[n], merge);
    }
  }

  /** Folding octet by octet equals splitting first and resolving the segments afterwards. */
  lemma {:induction false} FoldIsResolved(d: seq<byte>, merge: bool)
    ensures Fold(EMPTY_PATH, d, merge) == Resolved(Split(d), merge)
    decreases |d|
  {
    if d != [] {
      var init, b := d[..|d| - 1], d[|d| - 1];
      assert d == init + [b];
      FoldIsResolved(init, merge);
      FoldSnoc(EMPTY_PATH, init, b, merge);
      if b == SLASH {
        ResolvedClose(Split(init), merge);
      } else {
        ResolvedGrow(Split(init), b, merge);
      }
    }
  }

  /** The fields a finished walk stands for. */
  function Report(s: seq<byte>, o: Option<Outcome>): Option<Parsed>
    requires o.Some? ==> o.value.stop <= |s|
  {
    match o
    case None => None
    case Some(x) =>
      var ext := Extension(x.path.last, x.path.first);
      var (argsStart, args) := Arguments(s, x.stop);
      Some(Parsed(
        x.path.Dir() + x.path.last,
        if ext.None? then None else Some(|x.path.Dir()| + ext.value),
        argsStart, args, x.plus, x.quoted))
  }

  lemma ResolvedIsNormalised(d: seq<byte>, merge: bool)
    ensures Normalise(d, merge) == match Resolved(Split(d), merge) { case None => None case Some(p) => Some(p.Dir() + p.last) }
    ensures Resolved(Split(d), merge).Some? ==>
      var p := Resolved(Split(d), merge).value;
      p.last == Split(d)[|Split(d)| - 1] && p.first == (|Split(d)| == 1)
  {
  }

  lemma DescribedAsReported(s: seq<byte>, d: Decoded, merge: bool)
    requires d.stop <= |s|
    ensures Describe(s, d, merge) == Report(s, Folded(EMPTY_PATH, Some(d), 0, merge, false, false))
  {
    FoldIsResolved(d.path, merge);
    ResolvedIsNormalised(d.path, merge);
  }

  /** One pass equals two passes, on every input. */
  lemma WalkIsReference(s: seq<byte>, merge: bool)
    ensures var o := Walk(EMPTY_PATH, s, 0, merge, false, false);
      && (o.Some? ==> o.value.stop <= |s|)
      && Report(s, o) == Reference(s, merge)
  {
    WalkFoldsDecoded(EMPTY_PATH, s, 0, merge, false, false);
    assert s[0..] == s;
    if Decode(s).Some? {
      DescribedAsReported(s, Decode(s).value, merge);
    }
  }

  // ---------------------------------------------------------------- the automaton

  datatype State = Usual | AfterSlash | AfterDot | AfterDotDot | Quoted | QuotedSecond

  /** The path state is a function of the current segment alone. */
  function StateOf(path: Path): State {
    if path.first then Usual
    else if path.last == [] then AfterSlash
    else if path.last == DOT_SEGMENT then AfterDot
    else if path.last == DOT_DOT_SEGMENT then AfterDotDot
    else Usual
  }

  function ExtensionOf(path: Path): Option<nat> {
    var e := Extension(path.last, path.first);
    if e.None? then None else Some(|path.Dir()| + e.value)
  }

  /** The automaton has written `out` and recorded the extension offset `ext` for this path. */
  ghost predicate Shows(path: Path, out: seq<byte>, ext: Option<nat>) {
    && path.SlashFree()
    && out == path.Dir() + path.last
    && ext == ExtensionOf(path)
  }

  lemma PlainStep(path: Path, out: seq<byte>, ext: Option<nat>, b: byte)
    requires Shows(path, out, ext) && b != SLASH && b != DOT
    ensures StateOf(path.(last := path.last + [b])) == Usual
    ensures Shows(path.(last := path.last + [b]), out + [b], ext)
  {
    assert (path.last + [b])[..|path.last|] == path.last;
    assert Extension(path.last + [b], path.first) == Extension(path.last, path.first);
  }

  lemma DotStep(path: Path, out: seq<byte>, ext: Option<nat>)
    requires Shows(path, out, ext)
    ensures var state, path' := StateOf(path), path.(last := path.last + [DOT]);
      && StateOf(path') == (if state == AfterSlash then AfterDot else if state == AfterDot then AfterDotDot else Usual)
      && Shows(path', out + [DOT], if state == Usual then Some(|out| + 1) else ext)
  {
    assert (path.last + [DOT])[..|path.last|] == path.last;
  }

  lemma NoExtension(path: Path)
    requires StateOf(path) != Usual
    ensures ExtensionOf(path) == None
  {
    assert DOT_DOT_SEGMENT[..1] == DOT_SEGMENT;
    assert Extension(DOT_SEGMENT, false) == None;
    assert Extension(DOT_DOT_SEGMENT, false) == None;
  }

  lemma JoinSnoc(stack: seq<seq<byte>>, seg: seq<byte>)
    ensures Join(stack + [seg]) == Join(stack) + seg + [SLASH]
  {
    assert (stack + [seg])[..|stack|] == stack;
  }

  /** A slash outside a dot segment ends a directory, or is merged into the one before it. */
  lemma SlashStep(path: Path, merge: bool, out: seq<byte>, ext: Option<nat>)
    requires Shows(path, out, ext) && StateOf(path) != AfterDotDot
    ensures Step(path, SLASH, merge).Some?
    ensures var state, path' := StateOf(path), Step(path, SLASH, merge).value;
      && StateOf(path') == AfterSlash
      && Shows(path',
               if state == AfterDot then out[..|out| - 1] else if state == AfterSlash && merge then out else out + [SLASH],
               if state == Usual then None else ext)
  {
    if StateOf(path) != Usual {
      NoExtension(path);
    }
    if path.first {
      assert Join([]) == [];
      assert path.last + [SLASH] + [] == path.last + [SLASH];
    } else {
      JoinSnoc(path.stack, path.last);
    }
  }

  /** `at` is just past the last slash at or before `start`, or zero if there is none. */
  ghost predicate LandsOn(out: seq<byte>, at: int, start: int) {
    && 0 <= at <= start + 1 && start < |out|
    && (at > 0 ==> out[at - 1] == SLASH)
    && forall j | at <= j <= start :: out[j] != SLASH
  }

  lemma SlashFreeStretch(out: seq<byte>, before: seq<byte>, seg: seq<byte>)
    requires SLASH !in seg && before + seg <= out
    ensures forall j | |before| <= j < |before| + |seg| :: out[j] != SLASH
  {
    assert forall j | |before| <= j < |before| + |seg| :: out[j] == seg[j - |before|];
  }

  /** Landing is unique: scanning back through a slash-free segment ends at the slash before it. */
  lemma LandsBefore(out: seq<byte>, below: seq<byte>, seg: seq<byte>, at: int, start: int)
    requires below != [] && below[|below| - 1] == SLASH && SLASH !in seg && below + seg <= out
    requires |below| - 1 <= start < |below| + |seg|
    requires LandsOn(out, at, start)
    ensures at == |below| && out[..at] == below
  {
    assert out[|below| - 1] == SLASH;
    SlashFreeStretch(out, below, seg);
  }

  lemma EndsInSlash(root: seq<byte>, stack: seq<seq<byte>>)
    ensures var s := root + [SLASH] + Join(stack); s != [] && s[|s| - 1] == SLASH
  {
  }

  /** Walking back from four octets before the end of "/.." finds exactly the popped directory. */
  lemma PopFindsDirectory(root: seq<byte>, stack: seq<seq<byte>>, out: seq<byte>, at: int)
    requires SLASH !in root && forall p | p in stack :: SLASH !in p
    requires out == root + [SLASH] + Join(stack) + DOT_DOT_SEGMENT
    requires LandsOn(out, at, if |out| >= 5 then |out| - 5 else -1)
    ensures at == 0 <==> Pop(stack).None?
    ensures at > 0 ==> out[..at] == root + [SLASH] + Join(Pop(stack).value)
  {
    var n := |stack|;
    if n == 0 {
      assert out == root + [SLASH, DOT, DOT];
      SlashFreeStretch(out, [], root);
    } else {
      var top, below := stack[n - 1], root + [SLASH] + Join(stack[..n - 1]);
      assert out == below + top + [SLASH, DOT, DOT];
      EndsInSlash(root, stack[..n - 1]);
      if top != [] {
        LandsBefore(out, below, top, at, |out| - 5);
      } else if n == 1 {
        assert stack[..0] == [];
        PopEmptyAtRoot(root, out, at);
      } else {
        PopTwo(root, stack, out, at);
      }
    }
  }

  lemma JoinTwo(stack: seq<seq<byte>>)
    requires |stack| >= 2
    ensures Join(stack) == Join(stack[..|stack| - 2]) + stack[|stack| - 2] + [SLASH] + stack[|stack| - 1] + [SLASH]
  {
    var init := stack[..|stack| - 1];
    assert init[..|stack| - 2] == stack[..|stack| - 2];
    assert Join(init) == Join(stack[..|stack| - 2]) + stack[|stack| - 2] + [SLASH];
  }

  lemma PopEmptyAtRoot(root: seq<byte>, out: seq<byte>, at: int)
    requires SLASH !in root && out == root + [SLASH] + [SLASH] + DOT_DOT_SEGMENT
    requires LandsOn(out, at, if |out| >= 5 then |out| - 5 else -1)
    ensures at == 0
  {
    SlashFreeStretch(out, [], root);
  }

  lemma PopTwo(root: seq<byte>, stack: seq<seq<byte>>, out: seq<byte>, at: int)
    requires |stack| >= 2 && stack[|stack| - 1] == [] && SLASH !in stack[|stack| - 2]
    requires out == root + [SLASH] + Join(stack) + DOT_DOT_SEGMENT
    requires LandsOn(out, at, |out| - 5)
    ensures at > 0 && out[..at] == root + [SLASH] + Join(stack[..|stack| - 2])
  {
    var n := |stack|;
    JoinTwo(stack);
    Regroup(root, Join(stack[..n - 2]), stack[n - 2], out);
    EndsInSlash(root, stack[..n - 2]);
    LandsInSecond(root + [SLASH] + Join(stack[..n - 2]), stack[n - 2], out, at);
  }

  lemma Regroup(root: seq<byte>, below: seq<byte>, top: seq<byte>, out: seq<byte>)
    requires out == root + [SLASH] + (below + top + [SLASH] + [] + [SLASH]) + DOT_DOT_SEGMENT
    ensures out == root + [SLASH] + below + top + [SLASH] + [SLASH] + DOT_DOT_SEGMENT
  {
  }

  lemma LandsInSecond(below: seq<byte>, top: seq<byte>, out: seq<byte>, at: int)
    requires below != [] && below[|below| - 1] == SLASH && SLASH !in top
    requires out == below + top + [SLASH] + [SLASH] + DOT_DOT_SEGMENT
    requires LandsOn(out, at, |out| - 5)
    ensures at == |below| && out[..at] == below
  {
    assert below + top <= out;
    LandsBefore(out, below, top, at, |out| - 5);
  }

  /** A slash after ".." succeeds exactly when the specification can pop. */
  lemma PopStep(path: Path, merge: bool, out: seq<byte>, ext: Option<nat>, at: int)
    requires Shows(path, out, ext) && StateOf(path) == AfterDotDot
    requires LandsOn(out, at, if |out| >= 5 then |out| - 5 else -1)
    ensures at == 0 <==> Step(path, SLASH, merge).None?
    ensures at > 0 ==> var path' := Step(path, SLASH, merge).value;
      StateOf(path') == AfterSlash && Shows(path', out[..at], ext)
  {
    NoExtension(path);
    PopFindsDirectory(path.root, path.stack, out, at);
  }

  /** `*u++ = ch` */
  method Emit(buf: array<byte>, u: nat, ch: byte) returns (u': nat)
    requires u < buf.Length
    modifies buf
    ensures u' == u + 1 && buf[..u'] == old(buf[..u]) + [ch]
  {
    buf[u] := ch;
    u' := u + 1;
  }

  /** The backward walk of the ".." case; zero means that it left the buffer. */
  method FindDirectory(buf: array<byte>, u: nat) returns (at: nat)
    requires u <= buf.Length
    ensures LandsOn(buf[..u], at, if u >= 5 then u - 5 else -1)
  {
    var v: int := u - 5;
    while v >= 0 && buf[v] != SLASH
      invariant v <= u - 5
      invariant u >= 5 ==> v >= -1
      invariant forall j | v < j <= u - 5 :: 0 <= j ==> buf[j] != SLASH
    {
      v := v - 1;
    }
    at := if v < 0 then 0 else v + 1;
  }

  /** The '/' cases of the four path states. */
  method SlashOctet(merge: bool, buf: array<byte>, state: State, u: nat, ext: Option<nat>, ghost path: Path)
    returns (ok: bool, u': nat, ext': Option<nat>)
    requires u < buf.Length
    requires Shows(path, buf[..u], ext) && state == StateOf(path)
    modifies buf
    ensures ok <==> Step(path, SLASH, merge).Some?
    ensures ok ==> u' <= u + 1 && StateOf(Step(path, SLASH, merge).value) == AfterSlash
    ensures ok ==> Shows(Step(path, SLASH, merge).value, buf[..u'], ext')
  {
    ghost var out := buf[..u];
    ok, u', ext' := true, u, ext;
    if state == AfterDotDot {
      u' := FindDirectory(buf, u);
      PopStep(path, merge, out, ext, u');
      ok := u' > 0;
      assert buf[..u'] == out[..u'];
    } else {
      SlashStep(path, merge, out, ext);
      if state == AfterDot {
        u' := u - 1;
        assert buf[..u'] == out[..|out| - 1];
      } else {
        if state == Usual {
          ext' := None;
        }
        if state == Usual || !merge {
          u' := Emit(buf, u, SLASH);
        }
      }
    }
  }

  /** The '.' cases of the four path states. */
  method DotOctet(buf: array<byte>, state: State, u: nat, ext: Option<nat>, ghost path: Path)
    returns (state': State, u': nat, ext': Option<nat>)
    requires u < buf.Length
    requires Shows(path, buf[..u], ext) && state == StateOf(path)
    modifies buf
    ensures u' == u + 1 && state' == StateOf(path.(last := path.last + [DOT]))
    ensures Shows(path.(last := path.last + [DOT]), buf[..u'], ext')
  {
    DotStep(path, buf[..u], ext);
    state', ext' := Usual, ext;
    if state == AfterSlash {
      state' := AfterDot;
    } else if state == AfterDot {
      state' := AfterDotDot;
    } else if state == Usual {
      ext' := Some(u + 1);
    }
    u' := Emit(buf, u, DOT);
  }

  /** The cases of the four path states other than '%', '?' and '#'. */
  method PathOctet(ch: byte, merge: bool, buf: array<byte>, state: State, u: nat, ext: Option<nat>, ghost path: Path)
    returns (ok: bool, state': State, u': nat, ext': Option<nat>)
    requires u < buf.Length
    requires Shows(path, buf[..u], ext) && state == StateOf(path)
    modifies buf
    ensures ok <==> Step(path, ch, merge).Some?
    ensures ok ==> u' <= u + 1 && state' == StateOf(Step(path, ch, merge).value)
    ensures ok ==> Shows(Step(path, ch, merge).value, buf[..u'], ext')
  {
    UsualOctets(ch);
    ok, state', u', ext' := true, Usual, u, ext;
    if IsUsual(ch) || (ch != SLASH && ch != DOT) {
      PlainStep(path, buf[..u], ext, ch);
      u' := Emit(buf, u, ch);
    } else if ch == DOT {
      state', u', ext' := DotOctet(buf, state, u, ext, path);
    } else {
      state' := AfterSlash;
      ok, u', ext' := SlashOctet(merge, buf, state, u, ext, path);
    }
  }

  // ---------------------------------------------------------------- the whole scan

  /** The local variables of the parser. */
  datatype Scan = Scan(
    p: nat, ch: byte, state: State, quotedState: State, high: nat,
    u: nat, ext: Option<nat>, plus: bool, quoted: bool)
  {
    function PathState(): State {
      if state == Quoted || state == QuotedSecond then quotedState else state
    }

    /** `ch = *p++` */
    function Next(line: seq<byte>): Scan
      requires p < |line|
    {
      this.(ch := line[p], p := p + 1)
    }
  }

  /** Where the scan stands: the rest of the source, walked from `path`, yields `total`.  In a path
    * state `ch` is either the raw octet before p or, when `pending`, a decoded one. */
  ghost predicate Remains(s: seq<byte>, merge: bool, c: Scan, path: Path, pending: bool, total: Option<Outcome>) {
    && 1 <= c.p <= |s| + 1
    && (c.p <= |s| && !pending ==> c.ch == s[c.p - 1])
    && match c.state
       case Quoted =>
         && !pending && c.p >= 2 && s[c.p - 2] == PERCENT
         && total == Walk(path, s, c.p - 2, merge, c.plus, c.quoted)
       case QuotedSecond =>
         && !pending && c.p >= 3 && s[c.p - 3] == PERCENT && c.quoted
         && HexValue(s[c.p - 2]) == Some(c.high)
         && total == Walk(path, s, c.p - 3, merge, c.plus, c.quoted)
       case _ =>
         if pending then
           && c.p <= |s| && s[c.p - 1] != QUESTION && c.ch != PERCENT && c.ch != QUESTION && c.ch != HASH
           && total == Take(path, c.ch, s, c.p, merge, c.plus, c.quoted)
         else
           total == Walk(path, s, c.p - 1, merge, c.plus, c.quoted)
  }

  /** The output written so far shows `path`, and it fits: nothing is written past the octets read. */
  ghost predicate Written(s: seq<byte>, c: Scan, path: Path, out: seq<byte>) {
    && c.u <= |out| && c.u < c.p && c.p - 1 <= IndexOf(s, QUESTION, 0)
    && c.PathState() == StateOf(path)
    && Shows(path, out[..c.u], c.ext)
  }

  lemma QuotedRemains(s: seq<byte>, merge: bool, c: Scan, path: Path, total: Option<Outcome>, next: byte)
    requires c.state == Quoted && c.p <= |s| && (c.p < |s| ==> next == s[c.p])
    requires Remains(s, merge, c, path, false, total)
    ensures HexValue(c.ch).None? ==> total.None?
    ensures HexValue(c.ch).Some? ==>
      Remains(s, merge, c.(quoted := true, high := HexValue(c.ch).value, state := QuotedSecond, ch := next, p := c.p + 1),
              path, false, total)
  {
  }

  lemma QuotedSecondRemains(s: seq<byte>, merge: bool, c: Scan, path: Path, total: Option<Outcome>)
    requires c.state == QuotedSecond && c.p <= |s|
    requires Remains(s, merge, c, path, false, total)
    ensures c.high < 16
    ensures HexValue(c.ch).None? ==> total.None?
    ensures HexValue(c.ch).Some? ==>
      var b: byte := c.high * 16 + HexValue(c.ch).value;
      && (b == NUL ==> total.None?)
      && (b != NUL ==> total == Take(path, b, s, c.p, merge, c.plus, true))
  {
  }

  /** A plain octet is taken without a chance of failure. */
  lemma TakeLiteral(path: Path, b: byte, s: seq<byte>, k: nat, merge: bool, plus: bool, quoted: bool)
    requires k <= |s| && b != SLASH && b != PLUS
    ensures Take(path, b, s, k, merge, plus, quoted) ==
      Walk(path.(last := path.last + [b]), s, k, merge, plus, quoted)
  {
  }

  lemma PathRemains(s: seq<byte>, merge: bool, c: Scan, path: Path, pending: bool, total: Option<Outcome>)
    requires c.state != Quoted && c.state != QuotedSecond && c.p <= |s|
    requires c.ch != PERCENT && c.ch != QUESTION && c.ch != HASH
    requires Remains(s, merge, c, path, pending, total)
    requires c.p - 1 <= IndexOf(s, QUESTION, 0)
    ensures total == Take(path, c.ch, s, c.p, merge, c.plus, c.quoted)
    ensures c.p <= IndexOf(s, QUESTION, 0)
  {
    NotYetArguments(s, c.p);
  }

  lemma TakenRemains(s: seq<byte>, merge: bool, c: Scan, path: Path, total: Option<Outcome>, c': Scan)
    requires c.p <= |s| && total == Take(path, c.ch, s, c.p, merge, c.plus, c.quoted)
    requires Step(path, c.ch, merge).Some?
    requires c'.p == c.p + 1 && (c'.p <= |s| ==> c'.ch == s[c.p])
    requires c'.state != Quoted && c'.state != QuotedSecond && c'.plus == (c.plus || c.ch == PLUS) && c'.quoted == c.quoted
    ensures Remains(s, merge, c', Step(path, c.ch, merge).value, false, total)
  {
  }

  lemma NotYetArguments(s: seq<byte>, p: nat)
    requires 0 < p <= |s| && s[p - 1] != QUESTION && p - 1 <= IndexOf(s, QUESTION, 0)
    ensures p <= IndexOf(s, QUESTION, 0)
  {
  }

  lemma LiteralWritten(s: seq<byte>, c: Scan, b: byte, path: Path, out: seq<byte>, out': seq<byte>, c': Scan)
    requires b == PERCENT || b == HASH || b == QUESTION
    requires Written(s, c, path, out) && c.p <= IndexOf(s, QUESTION, 0)
    requires |out'| > c.u && out'[..c.u + 1] == out[..c.u] + [b]
    requires c'.p == c.p + 1 && c'.u == c.u + 1 && c'.state == Usual && c'.ext == c.ext
    ensures Written(s, c', path.(last := path.last + [b]), out')
  {
    PlainStep(path, out[..c.u], c.ext, b);
  }

  /** Case sw_quoted_second for a decoded '%', '#' or '?', which is written at once. */
  method WriteLiteral(line: seq<byte>, end: nat, merge: bool, buf: array<byte>, c: Scan, b: byte,
                      ghost path: Path, ghost total: Option<Outcome>)
    returns (c': Scan, ghost path': Path)
    requires end < |line| && c.p <= end && c.state == QuotedSecond && (b == PERCENT || b == HASH || b == QUESTION)
    requires c.u < buf.Length && c.p <= IndexOf(line[..end], QUESTION, 0)
    requires Written(line[..end], c, path, buf[..])
    requires total == Take(path, b, line[..end], c.p, merge, c.plus, c.quoted)
    modifies buf
    ensures Remains(line[..end], merge, c', path', false, total)
    ensures Written(line[..end], c', path', buf[..])
    ensures c'.p == c.p + 1
  {
    ghost var out := buf[..];
    path' := path.(last := path.last + [b]);
    TakeLiteral(path, b, line[..end], c.p, merge, c.plus, c.quoted);
    assert out[..c.u] == buf[..c.u];
    var u := Emit(buf, c.u, b);
    assert buf[..][..u] == buf[..u];
    c' := c.(state := Usual, u := u).Next(line);
    LiteralWritten(line[..end], c, b, path, out, buf[..], c');
  }

  /** The four path states on anything but '%', '?' and '#'. */
  method PathStep(line: seq<byte>, end: nat, merge: bool, buf: array<byte>, c: Scan,
                  ghost path: Path, ghost total: Option<Outcome>)
    returns (ok: bool, c': Scan, ghost path': Path)
    requires end < |line| && c.p <= end && c.state != Quoted && c.state != QuotedSecond
    requires IndexOf(line[..end], QUESTION, 0) <= buf.Length && c.p <= IndexOf(line[..end], QUESTION, 0)
    requires Written(line[..end], c, path, buf[..])
    requires total == Take(path, c.ch, line[..end], c.p, merge, c.plus, c.quoted)
    modifies buf
    ensures !ok ==> total.None?
    ensures ok ==> c'.p == c.p + 1 && c'.state != Quoted && c'.state != QuotedSecond
    ensures ok ==> Remains(line[..end], merge, c', path', false, total)
    ensures ok ==> Written(line[..end], c', path', buf[..])
  {
    assert buf[..][..c.u] == buf[..c.u];
    var state, u, ext;
    ok, state, u, ext := PathOctet(c.ch, merge, buf, c.state, c.u, c.ext, path);
    c', path' := c, path;
    if ok {
      path' := Step(path, c.ch, merge).value;
      c' := c.(state := state, u := u, ext := ext, plus := c.plus || c.ch == PLUS).Next(line);
      TakenRemains(line[..end], merge, c, path, total, c');
      assert buf[..][..u] == buf[..u];
    }
  }

  /** The digit test of both quoted states, which folds the case of a letter with `ch | 0x20`. */
  method HexDigit(ch: byte) returns (v: Option<nat>)
    ensures v == HexValue(ch)
  {
    if ZERO <= ch <= NINE {
      return Some(ch - ZERO);
    }
    var c := OrBit5(ch);
    if LOWER_A <= c <= LOWER_F {
      return Some(c - LOWER_A + 10);
    }
    return None;
  }

  /** Cases sw_quoted and sw_quoted_second up to the decoded octet: `b` is set once it is complete. */
  method Unquote(line: seq<byte>, end: nat, merge: bool, c: Scan, ghost out: seq<byte>, ghost path: Path, ghost total: Option<Outcome>)
    returns (ok: bool, c': Scan, b: Option<byte>)
    requires end < |line| && c.p <= end && (c.state == Quoted || c.state == QuotedSecond)
    requires Remains(line[..end], merge, c, path, false, total)
    requires Written(line[..end], c, path, out)
    ensures !ok ==> total.None?
    ensures ok ==> Written(line[..end], c', path, out)
    ensures ok ==> c.p <= IndexOf(line[..end], QUESTION, 0)
    ensures ok && b.None? ==> c'.p == c.p + 1 && Remains(line[..end], merge, c', path, false, total)
    ensures ok && b.Some? ==> c' == c && c.state == QuotedSecond && b.value != NUL
                              && total == Take(path, b.value, line[..end], c.p, merge, c.plus, true)
    ensures ok && b.Some? ==> c.quoted && c.ch != QUESTION && line[c.p - 1] == c.ch
  {
    ghost var s := line[..end];
    var digit := HexDigit(c.ch);
    ok, c', b := digit.Some?, c, None;
    if ok {
      NotYetArguments(s, c.p);
    }
    if c.state == Quoted {
      QuotedRemains(s, merge, c, path, total, line[c.p]);
      if ok {
        c' := c.(quoted := true, high := digit.value, state := QuotedSecond).Next(line);
      }
    } else {
      QuotedSecondRemains(s, merge, c, path, total);
      if ok {
        b := Some(c.high * 16 + digit.value);
        ok := b.value != NUL;
      }
    }
  }

  /** Offsets the C code stores: a length instead of the copied path. */
  datatype Fields = Fields(
    len: nat,
    extension: Option<nat>,
    argsStart: Option<nat>,
    args: Option<(nat, nat)>,
    plusInUri: bool,
    quotedUri: bool)

  /** The parser's outcome says exactly what the reference says. */
  ghost predicate Implements(r: Option<Fields>, out: seq<byte>, reference: Option<Parsed>) {
    match reference
    case None => r.None?
    case Some(x) =>
      && r.Some? && r.value.len <= |out|
      && x == Parsed(out[..r.value.len], r.value.extension, r.value.argsStart, r.value.args,
                     r.value.plusInUri, r.value.quotedUri)
  }

  /** The loop at label `args`: stop at a raw '#', after which there are no arguments to take. */
  method ScanArguments(line: seq<byte>, end: nat, start: nat) returns (argsStart: Option<nat>, args: Option<(nat, nat)>)
    requires 0 < start <= end < |line| && line[start - 1] == QUESTION
    ensures (argsStart, args) == Arguments(line[..end], start - 1)
  {
    argsStart, args := Some(start), None;
    var p := start;
    while p < end
      invariant start <= p <= end
      invariant forall j | start <= j < p :: line[j] != HASH
      invariant argsStart == Some(start) && args == None
    {
      p := p + 1;
      if line[p - 1] == HASH {
        assert line[..end][p - 1] == HASH;
        return None, Some((start, p - 1));
      }
    }
  }

  /** Leaving the loop, at a raw '?' or '#' or wherever the source ends. */
  lemma Finished(s: seq<byte>, merge: bool, c: Scan, path: Path, out: seq<byte>, stop: nat, fields: Fields)
    requires stop <= |s| && Written(s, c, path, out)
    requires Walk(EMPTY_PATH, s, 0, merge, false, false) == Some(Outcome(path, stop, c.plus, c.quoted))
    requires var (argsStart, args) := Arguments(s, stop); fields == Fields(c.u, c.ext, argsStart, args, c.plus, c.quoted)
    ensures Implements(Some(fields), out, Reference(s, merge))
  {
    WalkIsReference(s, merge);
  }

  lemma Stopped(s: seq<byte>, merge: bool, c: Scan, path: Path, pending: bool, total: Option<Outcome>)
    requires c.p <= |s| + 1
    requires c.p <= |s| ==> (c.ch == QUESTION || c.ch == HASH) && c.state != Quoted && c.state != QuotedSecond
    requires Remains(s, merge, c, path, pending, total)
    ensures c.p <= |s| ==> total == Some(Outcome(path, c.p - 1, c.plus, c.quoted)) && c.ch == s[c.p - 1]
    ensures c.p == |s| + 1 ==> total == Some(Outcome(path, |s|, c.plus, c.quoted))
  {
  }

  /** Labels `done` and `args`. */
  method Finish(line: seq<byte>, end: nat, merge: bool, c: Scan, ghost out: seq<byte>,
                ghost path: Path, ghost pending: bool, ghost total: Option<Outcome>)
    returns (fields: Fields)
    requires end < |line| && c.p <= end + 1
    requires c.p <= end ==> (c.ch == QUESTION || c.ch == HASH) && c.state != Quoted && c.state != QuotedSecond
    requires total == Walk(EMPTY_PATH, line[..end], 0, merge, false, false)
    requires Remains(line[..end], merge, c, path, pending, total)
    requires Written(line[..end], c, path, out)
    ensures Implements(Some(fields), out, Reference(line[..end], merge))
  {
    ghost var s := line[..end];
    Stopped(s, merge, c, path, pending, total);
    var argsStart: Option<nat>, args: Option<(nat, nat)> := None, None;
    if c.p <= end && c.ch == QUESTION {
      argsStart, args := ScanArguments(line, end, c.p);
    }
    fields := Fields(c.u, c.ext, argsStart, args, c.plus, c.quoted);
    Finished(s, merge, c, path, out, if c.p <= end then c.p - 1 else end, fields);
  }

  /** One turn of the loop in the two quoted states. */
  method QuotedStep(line: seq<byte>, end: nat, merge: bool, buf: array<byte>, c: Scan,
                    ghost path: Path, ghost total: Option<Outcome>)
    returns (ok: bool, c': Scan, ghost path': Path, ghost pending: bool)
    requires end < |line| && c.p <= end && (c.state == Quoted || c.state == QuotedSecond)
    requires IndexOf(line[..end], QUESTION, 0) <= buf.Length
    requires Remains(line[..end], merge, c, path, false, total)
    requires Written(line[..end], c, path, buf[..])
    modifies buf
    ensures !ok ==> total.None?
    ensures ok ==> Remains(line[..end], merge, c', path', pending, total)
    ensures ok ==> Written(line[..end], c', path', buf[..])
    ensures ok ==> c'.p == c.p + 1 || (c'.p == c.p && c.state == QuotedSecond && c'.state != QuotedSecond)
  {
    var b;
    path', pending := path, false;
    ok, c', b := Unquote(line, end, merge, c, buf[..], path, total);
    if ok && b.Some? {
      if b.value == PERCENT || b.value == HASH || b.value == QUESTION {
        c', path' := WriteLiteral(line, end, merge, buf, c, b.value, path, total);
      } else {
        pending, c' := true, c.(ch := b.value, state := c.quotedState);
      }
    }
  }

  lemma EnterEscape(s: seq<byte>, merge: bool, c: Scan, path: Path, pending: bool, total: Option<Outcome>, out: seq<byte>, c': Scan)
    requires c.p <= |s| && c.ch == PERCENT && c.state != Quoted && c.state != QuotedSecond
    requires Remains(s, merge, c, path, pending, total) && Written(s, c, path, out)
    requires c' == c.(quotedState := c.state, state := Quoted, ch := c'.ch, p := c.p + 1)
    requires c'.p <= |s| ==> c'.ch == s[c.p]
    ensures Remains(s, merge, c', path, false, total) && Written(s, c', path, out)
  {
    NotYetArguments(s, c.p);
  }

  /** One turn of the loop in the four path states, '?' and '#' excepted. */
  method PathTurn(line: seq<byte>, end: nat, merge: bool, buf: array<byte>, c: Scan,
                  ghost path: Path, ghost pending: bool, ghost total: Option<Outcome>)
    returns (ok: bool, c': Scan, ghost path': Path)
    requires end < |line| && c.p <= end && c.state != Quoted && c.state != QuotedSecond
    requires c.ch != QUESTION && c.ch != HASH
    requires IndexOf(line[..end], QUESTION, 0) <= buf.Length
    requires Remains(line[..end], merge, c, path, pending, total)
    requires Written(line[..end], c, path, buf[..])
    modifies buf
    ensures !ok ==> total.None?
    ensures ok ==> Remains(line[..end], merge, c', path', false, total)
    ensures ok ==> Written(line[..end], c', path', buf[..])
    ensures ok ==> c'.p == c.p + 1
  {
    if c.ch == PERCENT {
      ok, path', c' := true, path, c.(quotedState := c.state, state := Quoted).Next(line);
      EnterEscape(line[..end], merge, c, path, pending, total, buf[..], c');
    } else {
      PathRemains(line[..end], merge, c, path, pending, total);
      ok, c', path' := PathStep(line, end, merge, buf, c, path, total);
    }
  }

  /** ngx_http_parse_complex_uri.  `line` starts at uri_start; the octet at `end` exists because a
    * line feed follows every URI, and the code may read it.  The caller sized the buffer by the
    * offset of the first question mark. */
  method ParseComplexUri(line: seq<byte>, end: nat, merge: bool, buf: array<byte>) returns (r: Option<Fields>)
    requires end < |line|
    requires IndexOf(line[..end], QUESTION, 0) <= buf.Length
    modifies buf
    ensures Implements(r, buf[..], Reference(line[..end], merge))
  {
    ghost var s := line[..end];
    ghost var total := Walk(EMPTY_PATH, s, 0, merge, false, false);
    WalkIsReference(s, merge);
    var c := Scan(1, line[0], Usual, Usual, 0, 0, None, false, false);
    ghost var path, pending := EMPTY_PATH, false;

    while c.p <= end
      invariant Remains(s, merge, c, path, pending, total)
      invariant Written(s, c, path, buf[..])
      decreases end + 1 - c.p, if c.state == QuotedSecond then 1 else 0
    {
      var ok := true;
      if c.state == Quoted || c.state == QuotedSecond {
        ok, c, path, pending := QuotedStep(line, end, merge, buf, c, path, total);
      } else if c.ch == QUESTION || c.ch == HASH {
        var fields := Finish(line, end, merge, c, buf[..], path, pending, total);
        return Some(fields);
      } else {
        ok, c, path := PathTurn(line, end, merge, buf, c, path, pending, total);
        pending := false;
      }
      if !ok {
        return None;
      }
    }
    var fields := Finish(line, end, merge, c, buf[..], path, pending, total);
    r := Some(fields);
  }
}
