/** Laws of URI normalisation: what a normalised path looks like, and that normalising again changes nothing. */
module UriLaws {
  import opened Bytes
  import opened Uri

  /** A directory that survives resolution: never a dot segment, and never empty if slashes merge. */
  ghost predicate Settled(seg: seq<byte>, merge: bool) {
    && SLASH !in seg && seg != DOT_SEGMENT && seg != DOT_DOT_SEGMENT
    && (merge ==> seg != [])
  }

  lemma {:induction false} PiecesHaveNoSlash(d: seq<byte>)
    ensures forall p | p in Split(d) :: SLASH !in p
  {
    if d != [] {
      PiecesHaveNoSlash(d[..|d| - 1]);
      var parts, b := Split(d[..|d| - 1]), d[|d| - 1];
      assert SLASH !in parts[|parts| - 1];
      if b != SLASH {
        assert SLASH !in parts[|parts| - 1] + [b];
      }
    }
  }

  lemma {:induction false} ResolvedDirectoriesAreSettled(segments: seq<seq<byte>>, merge: bool)
    requires forall p | p in segments :: SLASH !in p
    ensures Resolve(segments, merge).Some? ==> forall p | p in Resolve(segments, merge).value :: Settled(p, merge)
  {
    if segments != [] {
      ResolvedDirectoriesAreSettled(segments[..|segments| - 1], merge);
    }
  }

  lemma {:induction false} SettledDirectoriesResolveToThemselves(stack: seq<seq<byte>>, merge: bool)
    requires forall p | p in stack :: Settled(p, merge)
    ensures Resolve(stack, merge) == Some(stack)
  {
    if stack != [] {
      var init, seg := stack[..|stack| - 1], stack[|stack| - 1];
      SettledDirectoriesResolveToThemselves(init, merge);
      assert seg in stack && init + [seg] == stack;
      assert Settled(seg, merge);
    }
  }

  lemma {:induction false} SplitOverSegment(d: seq<byte>, seg: seq<byte>)
    requires SLASH !in seg
    ensures var parts, n := Split(d), |Split(d)| - 1; Split(d + seg) == parts[..n] + [parts[n] + seg]
    decreases |seg|
  {
    var parts, n := Split(d), |Split(d)| - 1;
    if seg == [] {
      assert d + seg == d && parts[n] + seg == parts[n];
    } else {
      var init, b := seg[..|seg| - 1], seg[|seg| - 1];
      SplitOverSegment(d, init);
      assert (d + seg)[..|d + seg| - 1] == d + init;
      assert parts[n] + init + [b] == parts[n] + seg;
    }
  }

  lemma SplitOverSlash(d: seq<byte>)
    ensures Split(d + [SLASH]) == Split(d) + [[]]
  {
    assert (d + [SLASH])[..|d|] == d;
  }

  lemma SplitOverDirectory(d: seq<byte>, front: seq<seq<byte>>, seg: seq<byte>)
    requires Split(d) == front + [[]] && SLASH !in seg
    ensures Split(d + seg + [SLASH]) == front + [seg] + [[]]
  {
    SplitOverSegment(d, seg);
    SplitOverSlash(d + seg);
    assert (front + [[]])[..|front|] == front && [] + seg == seg;
  }

  /** Splitting undoes joining. */
  lemma {:induction false} SplitUndoesJoin(root: seq<byte>, stack: seq<seq<byte>>)
    requires SLASH !in root && forall p | p in stack :: SLASH !in p
    ensures Split(root + [SLASH] + Join(stack)) == [root] + stack + [[]]
    decreases |stack|
  {
    if stack == [] {
      SplitOverSegment([], root);
      assert [] + root == root;
      SplitOverSlash(root);
      assert root + [SLASH] + [] == root + [SLASH];
    } else {
      var init, seg := stack[..|stack| - 1], stack[|stack| - 1];
      var d := root + [SLASH] + Join(init);
      SplitUndoesJoin(root, init);
      SplitOverDirectory(d, [root] + init, seg);
      assert root + [SLASH] + Join(stack) == d + seg + [SLASH];
      assert [root] + stack == [root] + init + [seg];
    }
  }

  /** A normalised path that contains a slash is its root, settled directories and a last segment. */
  lemma NormalisedShape(d: seq<byte>, merge: bool) returns (stack: seq<seq<byte>>)
    requires Normalise(d, merge).Some? && |Split(d)| > 1
    ensures forall p | p in stack :: Settled(p, merge)
    ensures var parts := Split(d);
      && Resolve(parts[1..|parts| - 1], merge) == Some(stack)
      && Normalise(d, merge).value == parts[0] + [SLASH] + Join(stack) + parts[|parts| - 1]
      && Split(Normalise(d, merge).value) == [parts[0]] + stack + [parts[|parts| - 1]]
  {
    var parts := Split(d);
    var root, last, segments := parts[0], parts[|parts| - 1], parts[1..|parts| - 1];
    PiecesHaveNoSlash(d);
    ResolvedDirectoriesAreSettled(segments, merge);
    stack := Resolve(segments, merge).value;
    SplitUndoesJoin(root, stack);
    SplitOverSegment(root + [SLASH] + Join(stack), last);
    var whole := [root] + stack + [[]];
    assert whole[..|whole| - 1] == [root] + stack;
    assert [] + last == last;
  }

  lemma {:induction false} NoSlashNoSplit(d: seq<byte>)
    requires |Split(d)| == 1
    ensures Split(d) == [d]
  {
    if d != [] {
      NoSlashNoSplit(d[..|d| - 1]);
      assert d[..|d| - 1] + [d[|d| - 1]] == d;
    }
  }

  /** Normalising is idempotent, in both slash modes: a path handed back in comes out unchanged. */
  lemma NormaliseIsIdempotent(d: seq<byte>, merge: bool)
    requires Normalise(d, merge).Some?
    ensures Normalise(Normalise(d, merge).value, merge) == Normalise(d, merge)
  {
    var parts := Split(d);
    if |parts| == 1 {
      NoSlashNoSplit(d);
      assert [] + parts[0] == d;
    } else {
      var stack := NormalisedShape(d, merge);
      var again := [parts[0]] + stack + [parts[|parts| - 1]];
      assert again[1..|again| - 1] == stack;
      SettledDirectoriesResolveToThemselves(stack, merge);
    }
  }

  /** No directory of a normalised path is a dot segment, so no prefix of it climbs above the root. */
  lemma NormalisedHasNoDotDirectories(d: seq<byte>, merge: bool)
    requires Normalise(d, merge).Some?
    ensures var parts := Split(Normalise(d, merge).value);
      forall i | 0 < i < |parts| - 1 :: Settled(parts[i], merge)
  {
    var parts := Split(d);
    if |parts| == 1 {
      NoSlashNoSplit(d);
      assert [] + parts[0] == d;
    } else {
      var stack := NormalisedShape(d, merge);
      var again := [parts[0]] + stack + [parts[|parts| - 1]];
      forall i | 0 < i < |again| - 1 ensures Settled(again[i], merge) {
        assert again[i] == stack[i - 1];
      }
    }
  }

  // ---------------------------------------------------------------- escapes

  /** A hexadecimal digit as it is written, in upper or in lower case. */
  function HexDigit(d: nat, upper: bool): byte
    requires d < 16
  {
    if d < 10 then ZERO + d else if upper then UPPER_A + d - 10 else LOWER_A + d - 10
  }

  lemma HexDigitsAreRead(ch: byte)
    ensures forall d: nat, upper: bool | d < 16 && HexDigit(d, upper) == ch :: Uri.HexValue(ch) == Some(d)
    ensures Uri.HexValue(ch).Some? ==> exists upper :: HexDigit(Uri.HexValue(ch).value, upper) == ch
  {
    if Uri.HexValue(ch).Some? {
      assert HexDigit(Uri.HexValue(ch).value, true) == ch || HexDigit(Uri.HexValue(ch).value, false) == ch;
    }
  }

  /** "%" and two digits, each in either case. */
  function Escape(b: byte, upper1: bool, upper2: bool): seq<byte> {
    [PERCENT, HexDigit(b / 16, upper1), HexDigit(b % 16, upper2)]
  }

  /** The escape of every octet but zero is that octet, and that of zero is refused. */
  lemma EscapeIsDecoded(b: byte, upper1: bool, upper2: bool, rest: seq<byte>)
    ensures Uri.Decode(Escape(b, upper1, upper2) + rest) ==
      if b == NUL then None else Uri.Prepend(b, 3, Uri.Decode(rest), true)
  {
    var s := Escape(b, upper1, upper2) + rest;
    assert s[3..] == rest;
    HexDigitsAreRead(s[1]);
    HexDigitsAreRead(s[2]);
    assert b == (b / 16) * 16 + b % 16;
  }

  /** A path of which every octet is escaped, in any mixture of cases. */
  function Escaped(path: seq<byte>, cases: seq<(bool, bool)>): seq<byte>
    requires |cases| == |path|
  {
    if path == [] then [] else Escape(path[0], cases[0].0, cases[0].1) + Escaped(path[1..], cases[1..])
  }

  /** Decoding gives back what was escaped, whatever the octets are. */
  lemma {:induction false} EscapedIsDecoded(path: seq<byte>, cases: seq<(bool, bool)>)
    requires |cases| == |path| && NUL !in path
    ensures Uri.Decode(Escaped(path, cases)).Some? && Uri.Decode(Escaped(path, cases)).value.path == path
    decreases |path|
  {
    if path != [] {
      EscapedIsDecoded(path[1..], cases[1..]);
      EscapeIsDecoded(path[0], cases[0].0, cases[0].1, Escaped(path[1..], cases[1..]));
      assert path == [path[0]] + path[1..];
    }
  }
}
