/** The request line parser lets its caller skip URI normalisation: the caller normalises a URI only if
  * the parser raised complex_uri or quoted_uri, and uses the raw one otherwise
  * (src/http/ngx_http_parse.c; src/http/ngx_http_request.c, ngx_http_process_request_line).
  *
  * The parser does not look at the octet that follows a space inside a URI, and the caller does not
  * look at space_in_uri.  So the short cut can differ from normalisation: "/ /../x" keeps its dot
  * segment.  This module proves exactly when it does not, and that it never does without a space.
  */
module FastPath {
  import opened Bytes
  import opened UsualBitmap
  import opened Automaton
  import opened RequestLine
  import Uri
  import UriLaws

  // ---------------------------------------------------------------- paths that normalise to themselves

  /** Nothing to decode, and nothing that would end the path. */
  ghost predicate Plain(path: seq<byte>) {
    PERCENT !in path && QUESTION !in path && HASH !in path
  }

  /** No directory is a dot segment, and none is empty if slashes are merged. */
  ghost predicate Tidy(path: seq<byte>, merge: bool) {
    var parts := Uri.Split(path);
    forall i | 0 < i < |parts| - 1 ::
      parts[i] != Uri.DOT_SEGMENT && parts[i] != Uri.DOT_DOT_SEGMENT && (merge ==> parts[i] != [])
  }

  /** The extension of a path of n octets whose last segment is `last`. */
  ghost function ExtensionAt(n: nat, last: seq<byte>, single: bool): Option<nat> {
    var ext := Uri.Extension(last, single);
    if ext.None? || n < |last| then None else Some(n - |last| + ext.value)
  }

  /** Where normalisation finds the extension of a path it leaves alone. */
  ghost function SlowExtension(path: seq<byte>): Option<nat> {
    var parts := Uri.Split(path);
    ExtensionAt(|path|, parts[|parts| - 1], |parts| == 1)
  }

  /** Decoding that saves no octet has decoded nothing. */
  lemma {:induction false} DecodedAsIs(s: seq<byte>)
    ensures var d := Uri.Decode(s);
      d.Some? && |d.value.path| == d.value.stop ==> d.value.path == s[..d.value.stop] && Plain(d.value.path)
    decreases |s|
  {
    if s != [] && s[0] != QUESTION && s[0] != HASH && s[0] != PERCENT {
      DecodedAsIs(s[1..]);
      var d := Uri.Decode(s[1..]);
      if d.Some? {
        assert s[..d.value.stop + 1] == [s[0]] + s[1..][..d.value.stop];
      }
    }
  }

  /** An escape cannot run over the raw '?' that ends a path. */
  lemma {:induction false} DecodeStops(s: seq<byte>, k: nat)
    requires k < |s| && s[k] == QUESTION
    ensures var d := Uri.Decode(s); d.Some? ==> d.value.stop <= k
    decreases |s|
  {
    if s[0] != QUESTION && s[0] != HASH {
      if s[0] != PERCENT {
        DecodeStops(s[1..], k - 1);
      } else if k >= 3 {
        DecodeStops(s[3..], k - 3);
      }
    }
  }

  lemma {:induction false} PlainDecode(s: seq<byte>, from: nat, k: nat)
    requires from <= k <= |s| && (k < |s| ==> s[k] == QUESTION)
    requires Plain(s[from..k])
    ensures Uri.Decode(s[from..]) == Some(Uri.Decoded(s[from..k], k - from, false))
    decreases k - from
  {
    if from == k {
      assert s[k..k] == [];
    } else {
      assert s[from] in s[from..k];
      assert s[from..k][1..] == s[from + 1..k];
      PlainDecode(s, from + 1, k);
      assert s[from..][1..] == s[from + 1..];
      assert [s[from]] + s[from + 1..k] == s[from..k];
    }
  }

  /** The path made of these pieces. */
  ghost function Joined(parts: seq<seq<byte>>): seq<byte>
    requires |parts| > 1
  {
    parts[0] + [SLASH] + Uri.Join(parts[1..|parts| - 1]) + parts[|parts| - 1]
  }

  lemma JoinedClose(parts: seq<seq<byte>>)
    requires |parts| > 1
    ensures Joined(parts + [[]]) == Joined(parts) + [SLASH]
  {
    var n := |parts| - 1;
    assert (parts + [[]])[1..n + 1] == parts[1..n] + [parts[n]];
    Uri.JoinSnoc(parts[1..n], parts[n]);
  }

  lemma JoinedGrow(parts: seq<seq<byte>>, b: byte)
    requires |parts| > 1
    ensures var n := |parts| - 1; Joined(parts[..n] + [parts[n] + [b]]) == Joined(parts) + [b]
  {
    var n := |parts| - 1;
    assert (parts[..n] + [parts[n] + [b]])[1..n] == parts[1..n];
  }

  /** The pieces of a path, joined again. */
  lemma {:induction false} JoinUndoesSplit(d: seq<byte>)
    requires |Uri.Split(d)| > 1
    ensures d == Joined(Uri.Split(d))
    decreases |d|
  {
    var init, b := d[..|d| - 1], d[|d| - 1];
    var parts, n := Uri.Split(init), |Uri.Split(init)| - 1;
    assert d == init + [b];
    if n == 0 {
      UriLaws.NoSlashNoSplit(init);
      assert (parts + [[]])[1..1] == [] && Uri.Join([]) == [];
    } else {
      JoinUndoesSplit(init);
      if b == SLASH {
        JoinedClose(parts);
      } else {
        JoinedGrow(parts, b);
      }
    }
  }

  lemma JoinTakes(stack: seq<seq<byte>>)
    requires stack != []
    ensures |Uri.Join(stack[..|stack| - 1])| <= |Uri.Join(stack)|
  {
  }

  lemma PopShrinks(stack: seq<seq<byte>>)
    ensures Uri.Pop(stack).Some? ==> |Uri.Join(Uri.Pop(stack).value)| <= |Uri.Join(stack)|
  {
    if |stack| >= 1 {
      JoinTakes(stack);
    }
    if |stack| >= 2 {
      var init := stack[..|stack| - 1];
      JoinTakes(init);
      assert init[..|init| - 1] == stack[..|stack| - 2];
    }
  }

  lemma {:induction false} ResolveShrinks(segments: seq<seq<byte>>, merge: bool)
    ensures Uri.Resolve(segments, merge).Some? ==> |Uri.Join(Uri.Resolve(segments, merge).value)| <= |Uri.Join(segments)|
    decreases |segments|
  {
    if segments != [] {
      var init, seg := segments[..|segments| - 1], segments[|segments| - 1];
      ResolveShrinks(init, merge);
      if Uri.Resolve(init, merge).Some? {
        var stack := Uri.Resolve(init, merge).value;
        PopShrinks(stack);
        Uri.JoinSnoc(stack, seg);
      }
    }
  }

  lemma NormaliseShrinks(d: seq<byte>, merge: bool)
    ensures Uri.Normalise(d, merge).Some? ==> |Uri.Normalise(d, merge).value| <= |d|
  {
    var parts, n := Uri.Split(d), |Uri.Split(d)| - 1;
    if n == 0 {
      UriLaws.NoSlashNoSplit(d);
    } else {
      JoinUndoesSplit(d);
      ResolveShrinks(parts[1..n], merge);
    }
  }

  lemma TidyNormalises(path: seq<byte>, merge: bool)
    requires Tidy(path, merge)
    ensures Uri.Normalise(path, merge) == Some(path)
  {
    var parts, n := Uri.Split(path), |Uri.Split(path)| - 1;
    UriLaws.PiecesHaveNoSlash(path);
    if n == 0 {
      UriLaws.NoSlashNoSplit(path);
      assert [] + parts[0] == path;
    } else {
      forall p | p in parts[1..n] ensures UriLaws.Settled(p, merge) {
        var i :| 0 <= i < n - 1 && parts[1..n][i] == p;
        assert parts[i + 1] == p;
      }
      UriLaws.SettledDirectoriesResolveToThemselves(parts[1..n], merge);
      JoinUndoesSplit(path);
    }
  }

  lemma PlainDescribe(s: seq<byte>, path: seq<byte>, k: nat, merge: bool)
    requires k <= |s| && Tidy(path, merge)
    ensures var (argsStart, args) := Uri.Arguments(s, k);
      Uri.Describe(s, Uri.Decoded(path, k, false), merge)
      == Some(Uri.Parsed(path, SlowExtension(path), argsStart, args, PLUS in path, false))
  {
    TidyNormalises(path, merge);
    LastPieceFits(path);
  }

  /** What normalisation reports for a path it keeps. */
  lemma PlainFields(s: seq<byte>, k: nat, merge: bool)
    requires k <= |s| && (k < |s| ==> s[k] == QUESTION)
    requires Plain(s[..k]) && Tidy(s[..k], merge)
    ensures var (argsStart, args) := Uri.Arguments(s, k);
      Uri.Reference(s, merge) == Some(Uri.Parsed(s[..k], SlowExtension(s[..k]), argsStart, args, PLUS in s[..k], false))
  {
    assert s[0..k] == s[..k] && s[0..] == s;
    PlainDecode(s, 0, k);
    PlainDescribe(s, s[..k], k, merge);
  }

  /** A decoded path that normalises to k octets of the source was the source. */
  lemma KeptIsPlain(s: seq<byte>, d: Uri.Decoded, k: nat, merge: bool)
    requires k <= |s| && (k < |s| ==> s[k] == QUESTION)
    requires Uri.Decode(s) == Some(d) && Uri.Normalise(d.path, merge) == Some(s[..k])
    ensures Plain(s[..k]) && Tidy(s[..k], merge)
  {
    NormaliseShrinks(d.path, merge);
    if k < |s| {
      DecodeStops(s, k);
    }
    DecodedAsIs(s);
    UriLaws.NormalisedHasNoDotDirectories(d.path, merge);
  }

  /** Normalisation keeps a path if and only if nothing in it is encoded and every directory stays. */
  lemma UnchangedIff(s: seq<byte>, k: nat, merge: bool)
    requires k <= |s| && (k < |s| ==> s[k] == QUESTION)
    ensures var slow := Uri.Reference(s, merge);
      slow.Some? && slow.value.path == s[..k] <==> Plain(s[..k]) && Tidy(s[..k], merge)
  {
    var slow := Uri.Reference(s, merge);
    if Plain(s[..k]) && Tidy(s[..k], merge) {
      PlainFields(s, k, merge);
    } else if slow.Some? && slow.value.path == s[..k] {
      KeptIsPlain(s, Uri.Decode(s).value, k, merge);
    }
  }

  lemma {:induction false} LastPieceFits(d: seq<byte>)
    ensures |Uri.Split(d)[|Uri.Split(d)| - 1]| <= |d|
  {
    if d != [] {
      LastPieceFits(d[..|d| - 1]);
    }
  }

  lemma WholeArgumentsIff(s: seq<byte>, k: nat)
    requires k < |s| && s[k] == QUESTION
    ensures Uri.Arguments(s, k) == (Some(k + 1), None) <==> HASH !in s[k + 1..]
  {
    var at := Uri.IndexOf(s, HASH, k + 1);
    if at < |s| {
      assert s[k + 1..][at - k - 1] == HASH;
    }
  }

  // ---------------------------------------------------------------- what the parser notes about a path

  /** The octet that resumes a URI after a space is taken without a look at it. */
  predicate Swallowed(path: seq<byte>, i: nat) {
    0 < i < |path| && path[i - 1] == SPACE && path[i] != SPACE
  }

  /** Offset just past the last dot after the last slash, among the octets looked at. */
  ghost function SeenExtension(path: seq<byte>): Option<nat> {
    if path == [] then None
    else
      var n := |path| - 1;
      if Swallowed(path, n) then SeenExtension(path[..n])
      else if path[n] == SLASH then None
      else if path[n] == DOT then Some(n + 1)
      else SeenExtension(path[..n])
  }

  ghost predicate SeenPlus(path: seq<byte>) {
    exists i: nat | i < |path| :: path[i] == PLUS && !Swallowed(path, i)
  }

  /** No octet looked at would have raised a flag. */
  ghost predicate Vetted(path: seq<byte>) {
    && (forall i: nat | i < |path| && !Swallowed(path, i) :: path[i] != PERCENT && path[i] != QUESTION && path[i] != HASH)
    && (forall i: nat | 0 < i < |path| && !Swallowed(path, i) && !Swallowed(path, i - 1) ::
          path[i - 1] == SLASH ==> path[i] != SLASH && path[i] != DOT)
  }

  ghost predicate PathNoted(path: seq<byte>, ext: Option<nat>, plus: bool) {
    && path != [] && path[0] == SLASH
    && ext == SeenExtension(path) && plus == SeenPlus(path)
    && Vetted(path)
  }

  /** Whether the last octet of a path is a slash the parser looked at. */
  ghost predicate EndsInSlash(path: seq<byte>) {
    path != [] && path[|path| - 1] == SLASH && !Swallowed(path, |path| - 1)
  }

  lemma SwallowedAppend(path: seq<byte>, ch: byte)
    ensures forall i: nat | i < |path| :: Swallowed(path + [ch], i) == Swallowed(path, i)
    ensures forall i: nat | i < |path| :: (path + [ch])[i] == path[i]
  {
  }

  lemma VettedAppend(path: seq<byte>, ch: byte)
    requires Vetted(path)
    requires Swallowed(path + [ch], |path|) ||
      (ch != PERCENT && ch != QUESTION && ch != HASH && (EndsInSlash(path) ==> ch != SLASH && ch != DOT))
    ensures Vetted(path + [ch])
  {
    SwallowedAppend(path, ch);
  }

  lemma SeenPlusAppend(path: seq<byte>, ch: byte)
    ensures SeenPlus(path + [ch]) <==> SeenPlus(path) || (ch == PLUS && !Swallowed(path + [ch], |path|))
  {
    var path' := path + [ch];
    SwallowedAppend(path, ch);
    assert path'[|path|] == ch;
    if SeenPlus(path) {
      var i: nat :| i < |path| && path[i] == PLUS && !Swallowed(path, i);
      assert path'[i] == PLUS && !Swallowed(path', i);
    }
  }

  /** One more octet, looked at. */
  lemma NotedNext(path: seq<byte>, ext: Option<nat>, plus: bool, ch: byte)
    requires PathNoted(path, ext, plus) && !Swallowed(path + [ch], |path|)
    requires ch != PERCENT && ch != QUESTION && ch != HASH && (EndsInSlash(path) ==> ch != SLASH && ch != DOT)
    ensures PathNoted(path + [ch], if ch == SLASH then None else if ch == DOT then Some(|path| + 1) else ext, plus || ch == PLUS)
  {
    VettedAppend(path, ch);
    SeenPlusAppend(path, ch);
    assert (path + [ch])[..|path|] == path;
  }

  /** One more octet, swallowed. */
  lemma NotedSwallowed(path: seq<byte>, ext: Option<nat>, plus: bool, ch: byte)
    requires PathNoted(path, ext, plus) && Swallowed(path + [ch], |path|)
    ensures PathNoted(path + [ch], ext, plus)
  {
    VettedAppend(path, ch);
    SeenPlusAppend(path, ch);
    assert (path + [ch])[..|path|] == path;
  }

  lemma SingleSlash()
    ensures PathNoted([SLASH], None, false) && EndsInSlash([SLASH])
  {
  }

  // ---------------------------------------------------------------- what the parser records

  /** The caller's test: the raw URI is used (src/http/ngx_http_request.c, ngx_http_process_request_line). */
  predicate Skips(r: Line) {
    !r.flags.complexUri && !r.flags.quotedUri
  }

  function PathEnd(o: Offsets, end: nat): int {
    if o.argsStart.Some? then o.argsStart.value - 1 else end
  }

  /** An offset relative to the start of the URI. */
  ghost function Relative(a: Option<nat>, start: nat): Option<int> {
    if a.None? then None else Some(a.value - start)
  }

  ghost predicate ArgumentsNoted(o: Offsets, seen: seq<byte>, stop: nat, end: nat) {
    && o.argsStart == Some(stop + 1) && stop < end <= |seen| && seen[stop] == QUESTION
    && forall i: nat | stop < i < end && seen[i - 1] != SPACE :: seen[i] != HASH
  }

  /** The fields describe the URI recorded so far, up to `end`. */
  ghost predicate Noted(o: Offsets, plus: bool, seen: seq<byte>, end: nat) {
    && o.uriStart.Some? && end <= |seen|
    && var start, stop := o.uriStart.value, PathEnd(o, end);
    && start < stop <= end
    && (o.uriExt.Some? ==> o.uriExt.value >= start)
    && PathNoted(seen[start..stop], Relative(o.uriExt, start), plus)
    && (o.argsStart.Some? ==> ArgumentsNoted(o, seen, stop, end))
  }

  ghost predicate SpacesFlagged(r: Line, seen: seq<byte>, end: nat) {
    r.at.uriStart.Some? && r.at.uriStart.value <= end <= |seen|
    && (SPACE in seen[r.at.uriStart.value..end] ==> r.flags.spaceInUri)
  }

  /** Between two turns, as long as neither flag was raised. */
  ghost predicate Watched(r: Line, seen: seq<byte>) {
    var s, o := r.state, r.at;
    if BeforeUri(s) then
      && o.uriExt.None? && !r.flags.plusInUri && o.argsStart.None?
      && (s.SchemaSlashSlash? || s.Host? || s.Port? ==>
            o.schemaEnd.Some? && o.schemaEnd.value + 1 < |seen| && seen[o.schemaEnd.value + 1] == SLASH)
      && (s.SchemaSlash? ==> o.schemaEnd.Some? && o.schemaEnd.value + 1 == |seen|)
    else if WithinUri(s) then
      && Noted(o, r.flags.plusInUri, seen, |seen|)
      && (s.InUri? <==> o.argsStart.Some?)
      && seen[|seen| - 1] != SPACE
      && (s.CheckUri? ==> !EndsInSlash(seen[o.uriStart.value..]))
      && SpacesFlagged(r, seen, |seen|)
    else
      && o.uriEnd.Some? && Noted(o, r.flags.plusInUri, seen, o.uriEnd.value) && SpacesFlagged(r, seen, o.uriEnd.value)
      && (s.CheckUriHttp09? || s.Http09? ==>
            && Noted(o, r.flags.plusInUri, seen, |seen|)
            && (s.Http09? <==> o.argsStart.Some?)
            && seen[|seen| - 1] == SPACE)
  }

  ghost predicate Concluded(r: Line, seen: seq<byte>) {
    r.at.uriEnd.Some? && Noted(r.at, r.flags.plusInUri, seen, r.at.uriEnd.value) && SpacesFlagged(r, seen, r.at.uriEnd.value)
  }

  ghost predicate TurnWatched(t: LineTurn, seen: seq<byte>) {
    match t
    case Go(r) => Skips(r) ==> Watched(r, seen)
    case Done(r) => Skips(r) ==> Concluded(r, seen)
    case Reject(_, _) => true
  }

  lemma SliceKept(seen: seq<byte>, ch: byte, from: nat, to: nat)
    requires from <= to <= |seen|
    ensures (seen + [ch])[from..to] == seen[from..to]
  {
  }

  /** What was noted does not change when more octets arrive, or when the end is recorded. */
  lemma NotedLater(o: Offsets, plus: bool, seen: seq<byte>, ch: byte, end: nat)
    requires Noted(o, plus, seen, end)
    ensures Noted(o, plus, seen + [ch], end)
  {
    SliceKept(seen, ch, o.uriStart.value, PathEnd(o, end));
  }

  lemma FlaggedLater(r: Line, seen: seq<byte>, ch: byte, end: nat)
    requires SpacesFlagged(r, seen, end)
    ensures SpacesFlagged(r, seen + [ch], end)
  {
    SliceKept(seen, ch, r.at.uriStart.value, end);
  }

  lemma EndIsNotNoted(o: Offsets, plus: bool, seen: seq<byte>, end: nat, e: Option<nat>)
    requires Noted(o, plus, seen, end)
    ensures Noted(o.(uriEnd := e), plus, seen, end)
  {
  }

  /** One more path octet. */
  lemma PathGrows(o: Offsets, plus: bool, seen: seq<byte>, ch: byte, o': Offsets)
    requires Noted(o, plus, seen, |seen|) && o.argsStart.None?
    requires seen[|seen| - 1] == SPACE ==> ch == SPACE
    requires ch != PERCENT && ch != QUESTION && ch != HASH
    requires EndsInSlash(seen[o.uriStart.value..]) ==> ch != SLASH && ch != DOT
    requires o' == o.(uriExt := if ch == SLASH then None else if ch == DOT then Some(|seen| + 1) else o.uriExt)
    ensures Noted(o', plus || ch == PLUS, seen + [ch], |seen| + 1)
  {
    var start := o.uriStart.value;
    var path := seen[start..];
    assert seen[start..|seen|] == path && (seen + [ch])[start..|seen| + 1] == path + [ch];
    assert (path + [ch])[|path| - 1] == seen[|seen| - 1];
    NotedNext(path, Relative(o.uriExt, start), plus, ch);
  }

  /** One more path octet that resumes the URI. */
  lemma PathResumes(o: Offsets, plus: bool, seen: seq<byte>, ch: byte)
    requires Noted(o, plus, seen, |seen|) && o.argsStart.None?
    requires seen[|seen| - 1] == SPACE && ch != SPACE
    ensures Noted(o, plus, seen + [ch], |seen| + 1) && !EndsInSlash((seen + [ch])[o.uriStart.value..])
  {
    var start := o.uriStart.value;
    var path := seen[start..];
    assert seen[start..|seen|] == path && (seen + [ch])[start..|seen| + 1] == path + [ch] == (seen + [ch])[start..];
    assert (path + [ch])[|path| - 1] == seen[|seen| - 1];
    NotedSwallowed(path, Relative(o.uriExt, start), plus, ch);
  }

  /** The '?' that starts the arguments. */
  lemma ArgumentsStart(o: Offsets, plus: bool, seen: seq<byte>, ch: byte)
    requires Noted(o, plus, seen, |seen|) && o.argsStart.None? && ch == QUESTION
    ensures Noted(o.(argsStart := Some(|seen| + 1)), plus, seen + [ch], |seen| + 1)
  {
    SliceKept(seen, ch, o.uriStart.value, |seen|);
  }

  /** One more argument octet. */
  lemma ArgumentsGrow(o: Offsets, plus: bool, seen: seq<byte>, ch: byte)
    requires Noted(o, plus, seen, |seen|) && o.argsStart.Some? && (ch != HASH || seen[|seen| - 1] == SPACE)
    ensures Noted(o, plus, seen + [ch], |seen| + 1)
  {
    var seen' := seen + [ch];
    SliceKept(seen, ch, o.uriStart.value, PathEnd(o, |seen|));
    assert forall i: nat | i < |seen| :: seen'[i] == seen[i];
  }

  /** The first slash of a URI. */
  lemma WatchedStart(r: Line, seen: seq<byte>, ch: byte)
    requires r.at.uriExt.None? && !r.flags.plusInUri && r.at.argsStart.None? && ch == SLASH
    ensures Watched(StartOfUri(r, |seen|), seen + [ch])
  {
    var seen' := seen + [ch];
    SingleSlash();
    assert seen'[|seen|..|seen| + 1] == [SLASH] == seen'[|seen|..];
  }

  /** The slash of "http://host " that stands for its URI. */
  lemma WatchedSchemaSlash(r: Line, seen: seq<byte>, ch: byte)
    requires r.at.uriExt.None? && !r.flags.plusInUri && r.at.argsStart.None?
    requires r.at.schemaEnd.Some? && r.at.schemaEnd.value + 1 < |seen| && seen[r.at.schemaEnd.value + 1] == SLASH
    ensures Watched(SlashOfSchema(r), seen + [ch])
  {
    var e := r.at.schemaEnd.value;
    SingleSlash();
    assert (seen + [ch])[e + 1..e + 2] == [SLASH];
  }

  lemma WatchedHost(r: Line, seen: seq<byte>, ch: byte)
    requires r.state.Host? && Skips(r) && Watched(r, seen)
    ensures TurnWatched(StepState(r, seen, ch), seen + [ch])
  {
    if ch == SLASH {
      WatchedStart(r.(marks := r.marks.(hostEnd := Some(|seen|))), seen, ch);
    } else if ch == SPACE {
      WatchedSchemaSlash(r.(marks := r.marks.(hostEnd := Some(|seen|))), seen, ch);
    }
  }

  lemma WatchedPort(r: Line, seen: seq<byte>, ch: byte)
    requires r.state.Port? && Skips(r) && Watched(r, seen)
    ensures TurnWatched(StepState(r, seen, ch), seen + [ch])
  {
    if ch == SLASH {
      WatchedStart(r.(marks := r.marks.(portEnd := Some(|seen|))), seen, ch);
    } else if ch == SPACE {
      WatchedSchemaSlash(r.(marks := r.marks.(portEnd := Some(|seen|))), seen, ch);
    }
  }

  lemma WatchedBeforeUri(r: Line, seen: seq<byte>, ch: byte)
    requires BeforeUri(r.state) && Skips(r) && Watched(r, seen)
    ensures TurnWatched(StepState(r, seen, ch), seen + [ch])
  {
    if r.state.Host? {
      WatchedHost(r, seen, ch);
    } else if r.state.Port? {
      WatchedPort(r, seen, ch);
    } else if r.state.SpacesBeforeUri? && ch == SLASH {
      WatchedStart(r, seen, ch);
    }
  }

  lemma EndOfUriTurn(r: Line, p: nat, ch: byte, onSpace: State)
    ensures var t := EndOfUri(r, p, ch, onSpace);
      && !t.Reject? && t.state.at == r.at.(uriEnd := Some(p)) && t.state.flags == r.flags
      && (t.Go? ==> t.state.state == if ch == SPACE then onSpace else AlmostDone)
  {
  }

  /** The state after the end of the URI. */
  lemma WatchedEnded(r: Line, seen: seq<byte>, ch: byte, r': Line)
    requires WithinUri(r.state) && Watched(r, seen)
    requires r'.at == r.at.(uriEnd := Some(|seen|)) && r'.flags == r.flags
    ensures Concluded(r', seen + [ch])
    ensures ch == SPACE ==> Noted(r'.at, r'.flags.plusInUri, seen + [ch], |seen| + 1)
  {
    var o, plus := r'.at, r.flags.plusInUri;
    EndIsNotNoted(r.at, plus, seen, |seen|, Some(|seen|));
    NotedLater(o, plus, seen, ch, |seen|);
    FlaggedLater(r, seen, ch, |seen|);
    if ch == SPACE {
      if r.state.InUri? {
        ArgumentsGrow(o, plus, seen, ch);
      } else {
        PathGrows(o, plus, seen, ch, o);
      }
    }
  }

  lemma WatchedOutside(r: Line, seen: seq<byte>)
    requires !BeforeUri(r.state) && !WithinUri(r.state) && Concluded(r, seen)
    requires r.state.CheckUriHttp09? || r.state.Http09? ==>
      Noted(r.at, r.flags.plusInUri, seen, |seen|) && (r.state.Http09? <==> r.at.argsStart.Some?) && seen[|seen| - 1] == SPACE
    ensures Watched(r, seen)
  {
  }

  /** Ending the URI sets its end; a space may yet turn out to be part of it. */
  lemma WatchedEnd(r: Line, seen: seq<byte>, ch: byte, onSpace: State)
    requires WithinUri(r.state) && Watched(r, seen) && (ch == SPACE || ch == CR || ch == LF)
    requires onSpace == if r.state.InUri? then Http09 else CheckUriHttp09
    ensures TurnWatched(EndOfUri(r, |seen|, ch, onSpace), seen + [ch])
  {
    var t := EndOfUri(r, |seen|, ch, onSpace);
    EndOfUriTurn(r, |seen|, ch, onSpace);
    WatchedEnded(r, seen, ch, t.state);
    if t.Go? {
      WatchedOutside(t.state, seen + [ch]);
    }
  }

  /** The state after one more path octet. */
  lemma WatchedPath(r: Line, seen: seq<byte>, ch: byte, r': Line)
    requires (r.state.AfterSlashInUri? || r.state.CheckUri?) && Watched(r, seen)
    requires ch != PERCENT && ch != QUESTION && ch != HASH && ch != SPACE
    requires r.state.AfterSlashInUri? ==> ch != SLASH && ch != DOT
    requires r'.at == r.at.(uriExt := if ch == SLASH then None else if ch == DOT then Some(|seen| + 1) else r.at.uriExt)
    requires r'.flags.plusInUri == (r.flags.plusInUri || ch == PLUS) && r'.flags.spaceInUri == r.flags.spaceInUri
    requires r'.state == (if ch == SLASH then AfterSlashInUri else if ch == PLUS then r.state else CheckUri)
    ensures Watched(r', seen + [ch])
  {
    PathGrows(r.at, r.flags.plusInUri, seen, ch, r'.at);
    var start := r.at.uriStart.value;
    assert (seen + [ch])[start..] == seen[start..] + [ch] && seen[start..|seen|] == seen[start..];
    assert (seen + [ch])[start..|seen| + 1] == (seen + [ch])[start..];
  }

  lemma WatchedAfterSlash(r: Line, seen: seq<byte>, ch: byte)
    requires r.state.AfterSlashInUri? && Skips(r) && Watched(r, seen)
    ensures TurnWatched(StepUri(r, |seen|, ch), seen + [ch])
  {
    if ch == SPACE || ch == CR || ch == LF {
      WatchedEnd(r, seen, ch, CheckUriHttp09);
    } else if ch == QUESTION {
      WatchedArguments(r, seen);
    } else if ch == PLUS {
      WatchedPath(r, seen, ch, MarkPlus(r));
    } else if Unreserved(ch) {
      WatchedPath(r, seen, ch, r.To(CheckUri));
    }
  }

  lemma WatchedArguments(r: Line, seen: seq<byte>)
    requires (r.state.AfterSlashInUri? || r.state.CheckUri?) && Watched(r, seen)
    ensures Watched(StartOfArgs(r, |seen|), seen + [QUESTION])
  {
    var start, seen' := r.at.uriStart.value, seen + [QUESTION];
    ArgumentsStart(r.at, r.flags.plusInUri, seen, QUESTION);
    assert seen'[start..|seen| + 1] == seen[start..|seen|] + [QUESTION];
  }

  lemma WatchedCheckUri(r: Line, seen: seq<byte>, ch: byte)
    requires r.state.CheckUri? && Skips(r) && Watched(r, seen)
    ensures TurnWatched(StepUri(r, |seen|, ch), seen + [ch])
  {
    if ch == SPACE || ch == CR || ch == LF {
      WatchedEnd(r, seen, ch, CheckUriHttp09);
    } else if ch == QUESTION {
      WatchedArguments(r, seen);
    } else if ch == PLUS {
      WatchedPath(r, seen, ch, MarkPlus(r));
    } else if ch == SLASH {
      WatchedPath(r, seen, ch, r.(at := r.at.(uriExt := None), state := AfterSlashInUri));
    } else if ch == DOT {
      WatchedPath(r, seen, ch, r.(at := r.at.(uriExt := Some(|seen| + 1))));
    } else if Unreserved(ch) {
      WatchedPath(r, seen, ch, r);
    }
  }

  lemma WatchedMoreArguments(r: Line, seen: seq<byte>, ch: byte)
    requires r.state.InUri? && Watched(r, seen) && ch != HASH && ch != SPACE
    ensures Watched(r, seen + [ch])
  {
    var start := r.at.uriStart.value;
    ArgumentsGrow(r.at, r.flags.plusInUri, seen, ch);
    assert (seen + [ch])[start..|seen| + 1] == seen[start..|seen|] + [ch];
  }

  lemma WatchedInUri(r: Line, seen: seq<byte>, ch: byte)
    requires r.state.InUri? && Skips(r) && Watched(r, seen)
    ensures TurnWatched(StepUri(r, |seen|, ch), seen + [ch])
  {
    if ch == SPACE || ch == CR || ch == LF {
      WatchedEnd(r, seen, ch, Http09);
    } else if ch != HASH {
      WatchedMoreArguments(r, seen, ch);
    }
  }

  /** Another space after the URI. */
  lemma WatchedSpace(r: Line, seen: seq<byte>)
    requires AfterUri(r.state) && Watched(r, seen)
    ensures Watched(r, seen + [SPACE])
  {
    NotedLater(r.at, r.flags.plusInUri, seen, SPACE, r.at.uriEnd.value);
    FlaggedLater(r, seen, SPACE, r.at.uriEnd.value);
    if r.state.CheckUriHttp09? {
      PathGrows(r.at, r.flags.plusInUri, seen, SPACE, r.at);
    } else if r.state.Http09? {
      ArgumentsGrow(r.at, r.flags.plusInUri, seen, SPACE);
    }
  }

  /** The octet that resumes the URI. */
  lemma WatchedResume(r: Line, seen: seq<byte>, ch: byte)
    requires (r.state.CheckUriHttp09? || r.state.Http09?) && Watched(r, seen) && ch != SPACE
    ensures Watched(r.(flags := r.flags.(spaceInUri := true), state := if r.state.Http09? then InUri else CheckUri), seen + [ch])
  {
    if r.state.CheckUriHttp09? {
      PathResumes(r.at, r.flags.plusInUri, seen, ch);
    } else {
      ArgumentsGrow(r.at, r.flags.plusInUri, seen, ch);
    }
  }

  lemma WatchedAfterUri(r: Line, seen: seq<byte>, ch: byte)
    requires AfterUri(r.state) && Skips(r) && Watched(r, seen)
    ensures TurnWatched(StepAfterUri(r, |seen|, ch), seen + [ch])
  {
    NotedLater(r.at, r.flags.plusInUri, seen, ch, r.at.uriEnd.value);
    FlaggedLater(r, seen, ch, r.at.uriEnd.value);
    if ch == SPACE {
      WatchedSpace(r, seen);
    } else if ch != CR && ch != LF && ch != UPPER_H && !r.state.HostHttp09? {
      WatchedResume(r, seen, ch);
    }
  }

  lemma WatchedVersion(r: Line, seen: seq<byte>, ch: byte)
    requires (InVersion(r.state) || r.state.AlmostDone?) && Skips(r) && Watched(r, seen)
    ensures TurnWatched(StepState(r, seen, ch), seen + [ch])
  {
    NotedLater(r.at, r.flags.plusInUri, seen, ch, r.at.uriEnd.value);
    FlaggedLater(r, seen, ch, r.at.uriEnd.value);
    if InVersion(r.state) {
      VersionKeepsOffsets(r, ch);
    }
  }

  lemma WatchedTurn(r: Line, seen: seq<byte>, ch: byte)
    requires Skips(r) && Watched(r, seen)
    ensures TurnWatched(StepState(r, seen, ch), seen + [ch])
  {
    if BeforeUri(r.state) {
      WatchedBeforeUri(r, seen, ch);
    } else if r.state.AfterSlashInUri? {
      WatchedAfterSlash(r, seen, ch);
    } else if r.state.CheckUri? {
      WatchedCheckUri(r, seen, ch);
    } else if r.state.InUri? {
      WatchedInUri(r, seen, ch);
    } else if AfterUri(r.state) {
      WatchedAfterUri(r, seen, ch);
    } else {
      WatchedVersion(r, seen, ch);
    }
  }

  /** A raised flag is never lowered. */
  lemma FlagsStay(r: Line, seen: seq<byte>, ch: byte)
    ensures var t := StepState(r, seen, ch); !t.Reject? && Skips(t.state) ==> Skips(r)
  {
    if InVersion(r.state) {
      VersionKeepsOffsets(r, ch);
    }
  }

  /** Label `done` records the end of the line and nothing about the URI. */
  lemma ConcludedStays(r: Line, p: nat, seen: seq<byte>)
    requires Skips(r) ==> Concluded(r, seen)
    ensures var t := Conclude(r, p); t.Done? && Skips(t.state) ==> Concluded(t.state, seen)
  {
  }

  lemma StepWatched(r: Line, seen: seq<byte>, ch: byte)
    requires Skips(r) ==> Watched(r, seen)
    ensures var t := StepLine(r, seen, ch);
      && (t.Go? && Skips(t.state) ==> Watched(t.state, seen + [ch]))
      && (t.Done? && Skips(t.state) ==> Concluded(t.state, seen + [ch]))
  {
    FlagsStay(r, seen, ch);
    if Skips(r) {
      WatchedTurn(r, seen, ch);
      if StepState(r, seen, ch).Done? {
        ConcludedStays(StepState(r, seen, ch).state, |seen|, seen + [ch]);
      }
    }
  }

  /** For every request line that parses with complex_uri and quoted_uri clear, the recorded extension
    * and the plus flag are those of the octets looked at, and no such octet would have raised a flag. */
  lemma ParsedUriIsNoted(buf: seq<byte>)
    ensures var r := Run(StepLine, BLANK, buf, 0);
      r.Complete? && Skips(r.state) ==> Concluded(r.state, buf[..r.pos])
  {
    forall r: Line, seen: seq<byte>, ch: byte | Skips(r) ==> Watched(r, seen)
      ensures var t := StepLine(r, seen, ch);
        && (t.Go? && Skips(t.state) ==> Watched(t.state, seen + [ch]))
        && (t.Done? && Skips(t.state) ==> Concluded(t.state, seen + [ch]))
    {
      StepWatched(r, seen, ch);
    }
    RunKeeps(StepLine, (r: Line, seen: seq<byte>) => Skips(r) ==> Watched(r, seen),
             (r: Line, seen: seq<byte>) => Skips(r) ==> Concluded(r, seen), BLANK, buf, 0);
  }

  // ---------------------------------------------------------------- when skipping normalisation is right

  /** A slow-path result that is the raw path, with the same extension and the same arguments. */
  ghost predicate SameAs(slow: Option<Uri.Parsed>, path: seq<byte>, ext: Option<int>, argsStart: Option<int>, plus: bool) {
    && slow.Some?
    && slow.value.path == path
    && slow.value.extension == ext
    && slow.value.argsStart == argsStart && slow.value.args == None
    && slow.value.plusInUri == plus
  }

  /** Normalising the recorded URI would change nothing. */
  ghost predicate SlowPathAgrees(o: Offsets, plus: bool, buf: seq<byte>, merge: bool) {
    && o.uriStart.Some? && o.uriEnd.Some? && o.uriStart.value < o.uriEnd.value <= |buf|
    && var start, end := o.uriStart.value, o.uriEnd.value;
    && start < PathEnd(o, end) <= end
    && SameAs(Uri.Reference(buf[start..end], merge), buf[start..PathEnd(o, end)],
              Relative(o.uriExt, start), Relative(o.argsStart, start), plus)
  }

  /** A URI whose path has k octets needs no normalisation: nothing in the path is encoded, every
    * directory stays, the octets looked at show the extension and the plus, and there is no fragment. */
  ghost predicate Harmless(uri: seq<byte>, k: nat, merge: bool)
    requires k <= |uri|
  {
    && Plain(uri[..k]) && Tidy(uri[..k], merge)
    && SeenExtension(uri[..k]) == SlowExtension(uri[..k])
    && (PLUS in uri[..k] ==> SeenPlus(uri[..k]))
    && HASH !in uri[k..]
  }

  ghost predicate HarmlessUri(o: Offsets, buf: seq<byte>, merge: bool) {
    && o.uriStart.Some? && o.uriEnd.Some? && o.uriStart.value < PathEnd(o, o.uriEnd.value) <= o.uriEnd.value <= |buf|
    && Harmless(buf[o.uriStart.value..o.uriEnd.value], PathEnd(o, o.uriEnd.value) - o.uriStart.value, merge)
  }

  /** The recorded URI, as a string of its own. */
  lemma NotedUri(o: Offsets, plus: bool, buf: seq<byte>, pos: nat, uri: seq<byte>)
    requires pos <= |buf| && o.uriEnd.Some? && Noted(o, plus, buf[..pos], o.uriEnd.value)
    requires uri == buf[o.uriStart.value..o.uriEnd.value]
    ensures var k := PathEnd(o, o.uriEnd.value) - o.uriStart.value;
      && 0 < k <= |uri| && uri[..k] == buf[o.uriStart.value..PathEnd(o, o.uriEnd.value)]
      && PathNoted(uri[..k], Relative(o.uriExt, o.uriStart.value), plus)
      && (o.argsStart.None? <==> k == |uri|)
      && (k < |uri| ==> uri[k] == QUESTION && Relative(o.argsStart, o.uriStart.value) == Some(k + 1))
  {
    var start, end, seen := o.uriStart.value, o.uriEnd.value, buf[..pos];
    var stop := PathEnd(o, end);
    assert seen[start..stop] == buf[start..stop] == uri[..stop - start];
  }

  lemma SeenPlusIsPlus(path: seq<byte>)
    requires SeenPlus(path)
    ensures PLUS in path
  {
  }

  /** What is noted about a plain and tidy path is right if and only if nothing of it was swallowed. */
  lemma PlainAgreesIff(uri: seq<byte>, k: nat, ext: Option<int>, argsStart: Option<int>, plus: bool, merge: bool)
    requires 0 < k <= |uri| && (k < |uri| ==> uri[k] == QUESTION)
    requires ext == SeenExtension(uri[..k]) && plus == SeenPlus(uri[..k])
    requires argsStart == if k < |uri| then Some(k + 1) else None
    requires Plain(uri[..k]) && Tidy(uri[..k], merge)
    ensures SameAs(Uri.Reference(uri, merge), uri[..k], ext, argsStart, plus) <==> Harmless(uri, k, merge)
  {
    PlainFields(uri, k, merge);
    if SeenPlus(uri[..k]) {
      SeenPlusIsPlus(uri[..k]);
    }
    if k < |uri| {
      WholeArgumentsIff(uri, k);
      assert uri[k..] == [QUESTION] + uri[k + 1..];
    } else {
      assert uri[k..] == [];
    }
  }

  lemma UriAgreesIff(uri: seq<byte>, k: nat, ext: Option<int>, argsStart: Option<int>, plus: bool, merge: bool)
    requires 0 < k <= |uri| && (k < |uri| ==> uri[k] == QUESTION)
    requires ext == SeenExtension(uri[..k]) && plus == SeenPlus(uri[..k])
    requires argsStart == if k < |uri| then Some(k + 1) else None
    ensures SameAs(Uri.Reference(uri, merge), uri[..k], ext, argsStart, plus) <==> Harmless(uri, k, merge)
  {
    if Plain(uri[..k]) && Tidy(uri[..k], merge) {
      PlainAgreesIff(uri, k, ext, argsStart, plus, merge);
    } else {
      UnchangedIff(uri, k, merge);
    }
  }

  lemma NotedAgreesIff(o: Offsets, plus: bool, buf: seq<byte>, pos: nat, merge: bool)
    requires pos <= |buf| && o.uriEnd.Some? && Noted(o, plus, buf[..pos], o.uriEnd.value)
    ensures SlowPathAgrees(o, plus, buf, merge) <==> HarmlessUri(o, buf, merge)
  {
    var start := o.uriStart.value;
    var uri, k := buf[start..o.uriEnd.value], PathEnd(o, o.uriEnd.value) - start;
    NotedUri(o, plus, buf, pos, uri);
    UriAgreesIff(uri, k, Relative(o.uriExt, start), Relative(o.argsStart, start), plus, merge);
  }

  /** For every request line whose URI the caller uses as it is, normalising it would have given the same
    * path, extension, arguments and plus flag if and only if the URI is harmless. */
  lemma FastPathAgreesIff(buf: seq<byte>, merge: bool)
    ensures var r := Run(StepLine, BLANK, buf, 0);
      r.Complete? && Skips(r.state) ==>
        (SlowPathAgrees(r.state.at, r.state.flags.plusInUri, buf, merge) <==> HarmlessUri(r.state.at, buf, merge))
  {
    var r := Run(StepLine, BLANK, buf, 0);
    ParsedUriIsNoted(buf);
    if r.Complete? && Skips(r.state) {
      NotedAgreesIff(r.state.at, r.state.flags.plusInUri, buf, r.pos, merge);
    }
  }

  // ---------------------------------------------------------------- without spaces it always is

  /** In a path without spaces every octet was looked at, so no segment starts with a dot or is empty. */
  ghost predicate Clean(path: seq<byte>) {
    && path != [] && path[0] == SLASH && SPACE !in path
    && forall i: nat | 0 < i < |path| && path[i - 1] == SLASH :: path[i] != SLASH && path[i] != DOT
  }

  lemma VettedIsClean(path: seq<byte>)
    requires path != [] && path[0] == SLASH && Vetted(path) && SPACE !in path
    ensures Clean(path) && Plain(path)
  {
    forall i: nat | i < |path| ensures !Swallowed(path, i) {
    }
  }

  lemma CleanPrefix(path: seq<byte>)
    requires Clean(path) && |path| > 1
    ensures Clean(path[..|path| - 1])
  {
    var init := path[..|path| - 1];
    assert forall i | 0 <= i < |init| :: init[i] == path[i];
  }

  lemma {:induction false} CleanSplit(path: seq<byte>)
    requires Clean(path)
    ensures var parts, n := Uri.Split(path), |Uri.Split(path)| - 1;
      && n >= 1 && (forall i | 0 < i < n :: parts[i] != [] && parts[i][0] != DOT)
      && (parts[n] == [] <==> path[|path| - 1] == SLASH) && (parts[n] != [] ==> parts[n][0] != DOT)
    decreases |path|
  {
    var init, b := path[..|path| - 1], path[|path| - 1];
    if |path| == 1 {
      assert Uri.Split(init) == [[]];
    } else {
      CleanPrefix(path);
      CleanSplit(init);
      assert init[|init| - 1] == path[|path| - 2];
    }
  }

  /** Then both ways of looking for an extension find the same dot. */
  lemma {:induction false} CleanExtension(path: seq<byte>)
    requires Clean(path)
    ensures SeenExtension(path) == SlowExtension(path)
    decreases |path|
  {
    var init, b := path[..|path| - 1], path[|path| - 1];
    if |path| == 1 {
      assert Uri.Split(init) == [[]];
    } else {
      CleanPrefix(path);
      CleanSplit(init);
      CleanExtension(init);
      var parts := Uri.Split(init);
      var last := parts[|parts| - 1];
      assert init + [b] == path && init[|init| - 1] == path[|path| - 2];
      SeenExtensionGrows(init, b);
      if b == SLASH {
        SlowExtensionSlash(init);
      } else {
        SlowExtensionOctet(init, b, last);
      }
    }
  }

  lemma SlowExtensionSlash(init: seq<byte>)
    ensures SlowExtension(init + [SLASH]) == None
  {
    UriLaws.SplitOverSlash(init);
  }

  lemma ExtensionAtGrows(n: nat, last: seq<byte>, b: byte)
    requires |last| <= n
    ensures ExtensionAt(n + 1, last + [b], false) == if b == DOT && !Uri.OnlyDots(last) then Some(n + 1) else ExtensionAt(n, last, false)
  {
    assert (last + [b])[..|last|] == last;
  }

  lemma SlowExtensionOctet(init: seq<byte>, b: byte, last: seq<byte>)
    requires b != SLASH && |Uri.Split(init)| > 1 && last == Uri.Split(init)[|Uri.Split(init)| - 1]
    ensures SlowExtension(init + [b]) == if b == DOT && !Uri.OnlyDots(last) then Some(|init| + 1) else SlowExtension(init)
  {
    LastPieceFits(init);
    UriLaws.SplitOverSegment(init, [b]);
    ExtensionAtGrows(|init|, last, b);
  }

  lemma SeenExtensionGrows(init: seq<byte>, b: byte)
    requires init != [] && init[|init| - 1] != SPACE
    ensures SeenExtension(init + [b]) == if b == SLASH then None else if b == DOT then Some(|init| + 1) else SeenExtension(init)
  {
    assert (init + [b])[..|init|] == init && (init + [b])[|init| - 1] == init[|init| - 1];
  }

  lemma CleanIsHarmless(uri: seq<byte>, k: nat, ext: Option<nat>, plus: bool, merge: bool)
    requires 0 < k <= |uri| && PathNoted(uri[..k], ext, plus) && SPACE !in uri && HASH !in uri[k..]
    ensures Harmless(uri, k, merge)
  {
    var path := uri[..k];
    VettedIsClean(path);
    CleanSplit(path);
    CleanExtension(path);
    if PLUS in path {
      var i: nat :| i < |path| && path[i] == PLUS;
      assert i > 0 ==> path[i - 1] != SPACE;
    }
  }

  /** Skipping normalisation is right on every request line that parses with all three flags clear. */
  lemma FastPathAgrees(buf: seq<byte>, merge: bool)
    ensures var r := Run(StepLine, BLANK, buf, 0);
      r.Complete? && Skips(r.state) && !r.state.flags.spaceInUri ==>
        SlowPathAgrees(r.state.at, r.state.flags.plusInUri, buf, merge)
  {
    var r := Run(StepLine, BLANK, buf, 0);
    ParsedUriIsNoted(buf);
    if r.Complete? && Skips(r.state) && !r.state.flags.spaceInUri {
      ConcludedAgrees(r.state, buf, r.pos, merge);
    }
  }

  lemma ConcludedAgrees(r: Line, buf: seq<byte>, pos: nat, merge: bool)
    requires pos <= |buf| && Concluded(r, buf[..pos]) && !r.flags.spaceInUri
    ensures SlowPathAgrees(r.at, r.flags.plusInUri, buf, merge)
  {
    var o, plus := r.at, r.flags.plusInUri;
    var start, end := o.uriStart.value, o.uriEnd.value;
    var uri, k := buf[start..end], PathEnd(o, end) - start;
    NotedUri(o, plus, buf, pos, uri);
    assert buf[..pos][start..end] == uri;
    NoFragment(o, buf, pos, uri, k);
    CleanIsHarmless(uri, k, Relative(o.uriExt, start), plus, merge);
    NotedAgreesIff(o, plus, buf, pos, merge);
  }

  lemma NoFragment(o: Offsets, buf: seq<byte>, pos: nat, uri: seq<byte>, k: nat)
    requires pos <= |buf| && o.uriStart.Some? && o.uriEnd.Some? && o.uriStart.value < o.uriEnd.value <= pos
    requires uri == buf[o.uriStart.value..o.uriEnd.value] && SPACE !in uri
    requires k == PathEnd(o, o.uriEnd.value) - o.uriStart.value && 0 < k <= |uri|
    requires o.argsStart.Some? ==> ArgumentsNoted(o, buf[..pos], PathEnd(o, o.uriEnd.value), o.uriEnd.value)
    ensures HASH !in uri[k..]
  {
    var start := o.uriStart.value;
    forall i | k <= i < |uri| ensures uri[i] != HASH {
      assert uri[i] == buf[..pos][start + i] && uri[i - 1] == buf[..pos][start + i - 1];
    }
  }

  // ---------------------------------------------------------------- with a space it need not be

  /** One turn that goes on. */
  lemma RunGoes(r: Line, buf: seq<byte>, p: nat, r': Line)
    requires p < |buf| && StepLine(r, buf[..p], buf[p]) == Go(r')
    ensures Run(StepLine, r, buf, p) == Run(StepLine, r', buf, p + 1)
  {
  }

  /** "GET / /../x" */
  const SPACED: seq<byte> := [71, 69, 84, SPACE, SLASH, SPACE, SLASH, DOT, DOT, SLASH, 120, LF]

  /** The request after "GET ". */
  const AFTER_GET: Line := Line(
    SpacesBeforeUri, Get, Offsets(Some(0), Some(2), None, None, None, None, None, None), Marks(None, None, None, None, None),
    Flags(false, false, false, false), Version(0, 0))

  lemma MethodIsRead(buf: seq<byte>)
    requires |buf| > 4 && buf[..4] == [71, 69, 84, SPACE]
    ensures Run(StepLine, BLANK, buf, 0) == Run(StepLine, AFTER_GET, buf, 4)
  {
    var r1 := BLANK.(at := BLANK.at.(requestStart := Some(0)), state := Method);
    assert buf[0] == buf[..4][0] && buf[1] == buf[..4][1] && buf[2] == buf[..4][2] && buf[3] == buf[..4][3];
    RunGoes(BLANK, buf, 0, r1);
    RunGoes(r1, buf, 1, r1);
    RunGoes(r1, buf, 2, r1);
    assert buf[..3] == buf[..4][..3] == [71, 69, 84];
    assert buf[..3][0..] == [71, 69, 84];
    RunGoes(r1, buf, 3, AFTER_GET);
  }

  /** ... after "GET / /", and then after "GET / /..". */
  const RESUMED: Line := Line(
    CheckUri, Get, Offsets(Some(0), Some(2), None, Some(4), Some(5), None, None, None), Marks(None, None, None, None, None),
    Flags(false, false, false, true), Version(0, 0))

  const AFTER_DOTS: Line := RESUMED.(at := RESUMED.at.(uriExt := Some(9)))

  lemma SpacedStarts()
    ensures Run(StepLine, BLANK, SPACED, 0) == Run(StepLine, RESUMED, SPACED, 7)
  {
    MethodIsRead(SPACED);
    var r5 := StartOfUri(AFTER_GET, 4);
    RunGoes(AFTER_GET, SPACED, 4, r5);
    var r6 := r5.(at := r5.at.(uriEnd := Some(5)), state := CheckUriHttp09);
    RunGoes(r5, SPACED, 5, r6);
    RunGoes(r6, SPACED, 6, RESUMED);
  }

  lemma SpacedGoesOn()
    ensures Run(StepLine, RESUMED, SPACED, 7) == Run(StepLine, AFTER_DOTS, SPACED, 9)
  {
    RunGoes(RESUMED, SPACED, 7, RESUMED.(at := RESUMED.at.(uriExt := Some(8))));
    RunGoes(RESUMED.(at := RESUMED.at.(uriExt := Some(8))), SPACED, 8, AFTER_DOTS);
  }

  lemma SpacedEnds()
    ensures var r := Run(StepLine, AFTER_DOTS, SPACED, 9);
      && r.Complete? && Skips(r.state) && r.state.flags.spaceInUri
      && r.state.at.uriStart == Some(4) && r.state.at.uriEnd == Some(11) && r.state.at.argsStart == None
  {
    RunGoes(AFTER_DOTS, SPACED, 9, RESUMED.To(AfterSlashInUri));
    RunGoes(RESUMED.To(AfterSlashInUri), SPACED, 10, RESUMED);
  }

  lemma SpacedIsParsed()
    ensures var r := Run(StepLine, BLANK, SPACED, 0);
      && r.Complete? && Skips(r.state) && r.state.flags.spaceInUri
      && r.state.at.uriStart == Some(4) && r.state.at.uriEnd == Some(11) && r.state.at.argsStart == None
  {
    SpacedStarts();
    SpacedGoesOn();
    SpacedEnds();
  }

  lemma SpacedJoins()
    ensures Uri.Join([[SPACE], [DOT, DOT]]) == [SPACE, SLASH, DOT, DOT, SLASH]
  {
    Uri.JoinSnoc([], [SPACE]);
    Uri.JoinSnoc([[SPACE]], [DOT, DOT]);
    assert [[SPACE]] + [[DOT, DOT]] == [[SPACE], [DOT, DOT]] && [] + [[SPACE]] == [[SPACE]];
  }

  lemma SpacedSplits(path: seq<byte>)
    requires path == [SLASH, SPACE, SLASH, DOT, DOT, SLASH, 120]
    ensures Uri.Split(path) == [[], [SPACE], [DOT, DOT], [120]]
  {
    var segments: seq<seq<byte>> := [[SPACE], [DOT, DOT]];
    SpacedJoins();
    var dir := [] + [SLASH] + Uri.Join(segments);
    UriLaws.SplitUndoesJoin([], segments);
    assert [[]] + segments + [[]] == [[], [SPACE], [DOT, DOT]] + [[]];
    LastSegment(dir, [[], [SPACE], [DOT, DOT]]);
    assert dir + [120] == path;
  }

  lemma LastSegment(dir: seq<byte>, segments: seq<seq<byte>>)
    requires Uri.Split(dir) == segments + [[]]
    ensures Uri.Split(dir + [120]) == segments + [[120]]
  {
    UriLaws.SplitOverSegment(dir, [120]);
    assert (segments + [[]])[..|segments|] == segments && [] + [120] == [120 as byte];
  }

  lemma SpacedResolves()
    ensures Uri.Resolve([[SPACE], [DOT, DOT]], true) == Some([])
  {
    Uri.ResolveSnoc([], [SPACE], true);
    Uri.ResolveSnoc([[SPACE]], [DOT, DOT], true);
    assert [] + [[SPACE]] == [[SPACE]] && [[SPACE]] + [[DOT, DOT]] == [[SPACE], [DOT, DOT]];
    assert [[SPACE]][..0] == [];
  }

  lemma NormaliseResolved(path: seq<byte>, merge: bool, stack: seq<seq<byte>>)
    requires var parts := Uri.Split(path); |parts| > 1 && Uri.Resolve(parts[1..|parts| - 1], merge) == Some(stack)
    ensures var parts := Uri.Split(path);
      Uri.Normalise(path, merge) == Some(parts[0] + [SLASH] + Uri.Join(stack) + parts[|parts| - 1])
  {
  }

  lemma SpacedNormalises(path: seq<byte>)
    requires path == [SLASH, SPACE, SLASH, DOT, DOT, SLASH, 120]
    ensures Uri.Normalise(path, true) == Some([SLASH, 120])
  {
    SpacedSplits(path);
    SpacedResolves();
    var parts := Uri.Split(path);
    assert parts[1..3] == [[SPACE], [DOT, DOT]];
    NormaliseResolved(path, true, []);
    assert [] + [SLASH] + Uri.Join([]) + [120] == [SLASH, 120];
  }

  /** The short cut lets dot segments through: "GET / /../x" raises neither flag, so the caller uses
    * "/ /../x" as it is, where normalisation gives "/x". */
  lemma DotSegmentsSurvive()
    ensures var r := Run(StepLine, BLANK, SPACED, 0);
      && r.Complete? && Skips(r.state) && r.state.flags.spaceInUri
      && r.state.at.uriStart == Some(4) && r.state.at.uriEnd == Some(11) && r.state.at.argsStart == None
    ensures SPACED[4..11] == [SLASH, SPACE, SLASH, DOT, DOT, SLASH, 120]
    ensures var slow := Uri.Reference(SPACED[4..11], true); slow.Some? && slow.value.path == [SLASH, 120]
  {
    SpacedIsParsed();
    var s := SPACED[4..11];
    assert s == [SLASH, SPACE, SLASH, DOT, DOT, SLASH, 120] == s[0..7] == s[0..];
    PlainDecode(s, 0, 7);
    SpacedNormalises(s);
  }
}
