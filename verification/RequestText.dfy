/** Well-formed request lines are accepted, with the method, the URI and the version that they spell
  * (src/http/ngx_http_parse.c, ngx_http_parse_request_line). */
module RequestText {
  import opened Bytes
  import opened Automaton
  import opened RequestLine

  // ---------------------------------------------------------------- names of methods

  predicate Ascii(s: string) {
    forall i | 0 <= i < |s| :: s[i] as int < 256
  }

  function Octets(s: string): (r: seq<byte>)
    requires Ascii(s)
    ensures |r| == |s| && forall i | 0 <= i < |s| :: r[i] == s[i] as int
  {
    seq(|s|, i requires 0 <= i < |s| => s[i] as int)
  }

  function NameOf(v: Verb): (s: string)
    ensures Ascii(s) && (v != Unknown <==> s != "")
  {
    match v
    case Get => "GET"
    case Head => "HEAD"
    case Post => "POST"
    case Put => "PUT"
    case Delete => "DELETE"
    case Mkcol => "MKCOL"
    case Copy => "COPY"
    case Move => "MOVE"
    case Options => "OPTIONS"
    case Propfind => "PROPFIND"
    case Proppatch => "PROPPATCH"
    case Lock => "LOCK"
    case Unlock => "UNLOCK"
    case Patch => "PATCH"
    case Trace => "TRACE"
    case Unknown => ""
  }

  /** Every method is known by its name, and by no other. */
  lemma VerbIsNamed(m: seq<byte>, v: Verb)
    requires v != Unknown
    ensures VerbOf(m) == v <==> m == Octets(NameOf(v))
  {
    NameIsRead(v);
    if VerbOf(m) == v {
      KnownNames(m, Octets(NameOf(v)));
    }
  }

  lemma NameIsRead(v: Verb)
    requires v != Unknown
    ensures VerbOf(Octets(NameOf(v))) == v
  {
    if |NameOf(v)| <= 4 {
      ShortNameIsRead(v);
    } else {
      LongNameIsRead(v);
    }
  }

  lemma ShortNameIsRead(v: Verb)
    requires 0 < |NameOf(v)| <= 4
    ensures VerbOf(Octets(NameOf(v))) == v
  {
    match v
    case Get => assert Octets("GET") == [71, 69, 84];
    case Head => assert Octets("HEAD") == [72, 69, 65, 68];
    case Post => assert Octets("POST") == [80, 79, 83, 84];
    case Put => assert Octets("PUT") == [80, 85, 84];
    case Copy => assert Octets("COPY") == [67, 79, 80, 89];
    case Move => assert Octets("MOVE") == [77, 79, 86, 69];
    case Lock => assert Octets("LOCK") == [76, 79, 67, 75];
    case _ =>
  }

  lemma LongNameIsRead(v: Verb)
    requires |NameOf(v)| > 4
    ensures VerbOf(Octets(NameOf(v))) == v
  {
    match v
    case Delete => assert Octets("DELETE") == [68, 69, 76, 69, 84, 69];
    case Mkcol => assert Octets("MKCOL") == [77, 75, 67, 79, 76];
    case Options => assert Octets("OPTIONS") == [79, 80, 84, 73, 79, 78, 83];
    case Propfind => assert Octets("PROPFIND") == [80, 82, 79, 80, 70, 73, 78, 68];
    case Proppatch => assert Octets("PROPPATCH") == [80, 82, 79, 80, 80, 65, 84, 67, 72];
    case Unlock => assert Octets("UNLOCK") == [85, 78, 76, 79, 67, 75];
    case Patch => assert Octets("PATCH") == [80, 65, 84, 67, 72];
    case Trace => assert Octets("TRACE") == [84, 82, 65, 67, 69];
    case _ =>
  }

  lemma KnownNames(m: seq<byte>, n: seq<byte>)
    requires VerbOf(m) == VerbOf(n) != Unknown
    ensures m == n
  {
  }

  // ---------------------------------------------------------------- running over parts of the line

  lemma RunGo(r: Line, buf: seq<byte>, p: nat, r': Line)
    requires p < |buf| && StepLine(r, buf[..p], buf[p]) == Go(r')
    ensures Run(StepLine, r, buf, p) == Run(StepLine, r', buf, p + 1)
  {
  }

  predicate MethodName(m: seq<byte>) {
    m != [] && forall i | 0 <= i < |m| :: IsMethodOctet(m[i])
  }

  lemma {:induction false} MethodGoes(r: Line, buf: seq<byte>, p: nat, q: nat)
    requires r.state == Method && p <= q <= |buf| && forall i | p <= i < q :: IsMethodOctet(buf[i])
    ensures Run(StepLine, r, buf, p) == Run(StepLine, r, buf, q)
    decreases q - p
  {
    if p < q {
      RunGo(r, buf, p, r);
      MethodGoes(r, buf, p + 1, q);
    }
  }

  /** The octets of a URI: all but those that end it or are refused. */
  predicate UriOctet(ch: byte) {
    ch != SPACE && ch != CR && ch != LF && ch != NUL
  }

  /** In the URI, with everything recorded before it as in r. */
  ghost predicate SameBefore(r: Line, r': Line) {
    && WithinUri(r'.state) && r'.verb == r.verb && r'.version == r.version && r'.at.requestStart == r.at.requestStart
    && r'.at.methodEnd == r.at.methodEnd && r'.at.uriStart == r.at.uriStart && r'.at.requestEnd == r.at.requestEnd
  }

  lemma UriOctetGoes(r: Line, seen: seq<byte>, ch: byte)
    requires WithinUri(r.state) && UriOctet(ch)
    ensures var t := StepLine(r, seen, ch); t.Go? && SameBefore(r, t.state)
  {
  }

  lemma {:induction false} UriGoes(r: Line, buf: seq<byte>, p: nat, q: nat) returns (r': Line)
    requires WithinUri(r.state) && p <= q <= |buf| && forall i | p <= i < q :: UriOctet(buf[i])
    ensures Run(StepLine, r, buf, p) == Run(StepLine, r', buf, q) && SameBefore(r, r')
    decreases q - p
  {
    r' := r;
    if p < q {
      var t := StepLine(r, buf[..p], buf[p]);
      UriOctetGoes(r, buf[..p], buf[p]);
      RunGo(r, buf, p, t.state);
      r' := UriGoes(t.state, buf, p + 1, q);
    }
  }

  // ---------------------------------------------------------------- the whole line

  /** "<method> SP <path> SP HTTP/<d>.<d> CR LF" */
  function LineText(m: seq<byte>, path: seq<byte>, major: nat, minor: nat): (r: seq<byte>)
    requires major < 10 && minor < 10
    ensures |r| == |m| + |path| + 12
  {
    m + [SPACE] + path + [SPACE] + VersionText(major, minor)
  }

  function VersionText(major: nat, minor: nat): (r: seq<byte>)
    requires major < 10 && minor < 10
    ensures |r| == 10
  {
    Octets("HTTP/") + [ZERO + major, DOT, ZERO + minor, CR, LF]
  }

  lemma VersionOctets(buf: seq<byte>, p: nat, major: nat, minor: nat)
    requires major < 10 && minor < 10 && p + 10 == |buf| && buf[p..] == VersionText(major, minor)
    ensures buf[p] == UPPER_H && buf[p + 1] == UPPER_T && buf[p + 2] == UPPER_T && buf[p + 3] == UPPER_P
    ensures buf[p + 4] == SLASH && buf[p + 5] == ZERO + major && buf[p + 6] == DOT && buf[p + 7] == ZERO + minor
    ensures buf[p + 8] == CR && buf[p + 9] == LF
  {
    var t := VersionText(major, minor);
    assert Octets("HTTP/") == [72, 84, 84, 80, 47];
    assert forall i | 0 <= i < 10 :: buf[p + i] == buf[p..][i] == t[i];
  }

  lemma VersionIsRead(r: Line, buf: seq<byte>, p: nat, major: nat, minor: nat)
    requires AfterUri(r.state) && r.at.requestEnd.None? && 0 < major < 10 && minor < 10 && 0 < p
    requires p + 10 == |buf| && buf[p..] == VersionText(major, minor)
    ensures var end := Run(StepLine, r, buf, p);
      && end.Complete? && end.pos == |buf| && end.state.version == Version(major, minor)
      && end.state.verb == r.verb && end.state.at == r.at.(requestEnd := Some(|buf| - 2))
  {
    VersionOctets(buf, p, major, minor);
    var r1 := r.(marks := r.marks.(httpProtocol := Some(p)), state := HttpH);
    RunGo(r, buf, p, r1);
    ProtocolIsRead(r1, buf, p + 1);
    NumbersAreRead(r1.To(FirstMajorDigit), buf, p + 5, major, minor);
  }

  lemma VersionGo(r: Line, buf: seq<byte>, p: nat, r': Line)
    requires p < |buf| && InVersion(r.state) && StepVersion(r, buf[p]) == Go(r')
    ensures Run(StepLine, r, buf, p) == Run(StepLine, r', buf, p + 1)
  {
    RunGo(r, buf, p, r');
  }

  /** "TTP/" */
  lemma ProtocolIsRead(r: Line, buf: seq<byte>, p: nat)
    requires r.state == HttpH && p + 4 <= |buf|
    requires buf[p] == UPPER_T && buf[p + 1] == UPPER_T && buf[p + 2] == UPPER_P && buf[p + 3] == SLASH
    ensures Run(StepLine, r, buf, p) == Run(StepLine, r.To(FirstMajorDigit), buf, p + 4)
  {
    VersionGo(r, buf, p, r.To(HttpHT));
    VersionGo(r.To(HttpHT), buf, p + 1, r.To(HttpHTT));
    VersionGo(r.To(HttpHTT), buf, p + 2, r.To(HttpHTTP));
    VersionGo(r.To(HttpHTTP), buf, p + 3, r.To(FirstMajorDigit));
  }

  lemma NumbersAreRead(r: Line, buf: seq<byte>, p: nat, major: nat, minor: nat)
    requires r.state == FirstMajorDigit && r.at.requestEnd.None? && 0 < major < 10 && minor < 10 && 0 < p
    requires p + 5 == |buf| && buf[p] == ZERO + major && buf[p + 1] == DOT && buf[p + 2] == ZERO + minor
    requires buf[p + 3] == CR && buf[p + 4] == LF
    ensures var end := Run(StepLine, r, buf, p);
      && end.Complete? && end.pos == |buf| && end.state.version == Version(major, minor)
      && end.state.verb == r.verb && end.state.at == r.at.(requestEnd := Some(|buf| - 2))
  {
    var r1 := WithVersion(r, major, r.version.minor, MajorDigit);
    VersionGo(r, buf, p, r1);
    VersionGo(r1, buf, p + 1, r1.To(FirstMinorDigit));
    var r2 := WithVersion(r, major, minor, MinorDigit);
    VersionGo(r1.To(FirstMinorDigit), buf, p + 2, r2);
    VersionGo(r2, buf, p + 3, r2.To(AlmostDone));
  }

  lemma BeforeGo(r: Line, buf: seq<byte>, p: nat, r': Line)
    requires p < |buf| && BeforeUri(r.state) && StepBeforeUri(r, buf[..p], buf[p]) == Go(r')
    ensures Run(StepLine, r, buf, p) == Run(StepLine, r', buf, p + 1)
  {
    RunGo(r, buf, p, r');
  }

  /** What is recorded when the URI starts behind a method of n octets. */
  ghost predicate BehindMethod(r: Line, verb: Verb, n: nat) {
    && WithinUri(r.state) && r.verb == verb && r.at.requestStart == Some(0) && n > 0 && r.at.methodEnd == Some(n - 1)
    && r.at.uriStart == Some(n + 1) && r.at.requestEnd.None?
  }

  lemma MethodEnds(r: Line, m: seq<byte>)
    requires m != [] && r == BLANK.(at := BLANK.at.(requestStart := Some(0)), state := Method)
    ensures var r' := EndOfMethod(r, m); r'.state == SpacesBeforeUri && BehindMethod(StartOfUri(r', |m| + 1), VerbOf(m), |m|)
  {
    assert m[0..] == m;
  }

  /** The line up to the URI. */
  lemma MethodIsRead(m: seq<byte>, buf: seq<byte>) returns (r: Line)
    requires MethodName(m) && |buf| > |m| + 1 && buf[..|m|] == m && buf[|m|] == SPACE && buf[|m| + 1] == SLASH
    ensures BehindMethod(r, VerbOf(m), |m|) && Run(StepLine, BLANK, buf, 0) == Run(StepLine, r, buf, |m| + 2)
  {
    var r0 := BLANK.(at := BLANK.at.(requestStart := Some(0)), state := Method);
    MethodOctets(m, buf);
    BeforeGo(BLANK, buf, 0, r0);
    MethodGoes(r0, buf, 1, |m|);
    var r1 := EndOfMethod(r0, m);
    BeforeGo(r0, buf, |m|, r1);
    MethodEnds(r0, m);
    r := StartOfUri(r1, |m| + 1);
    SlashStarts(r1, buf, |m| + 1);
  }

  lemma MethodOctets(m: seq<byte>, buf: seq<byte>)
    requires MethodName(m) && |m| <= |buf| && buf[..|m|] == m
    ensures forall i | 0 <= i < |m| :: IsMethodOctet(buf[i])
  {
    assert forall i | 0 <= i < |m| :: buf[i] == buf[..|m|][i] == m[i];
  }

  lemma SlashStarts(r: Line, buf: seq<byte>, p: nat)
    requires r.state == SpacesBeforeUri && p < |buf| && buf[p] == SLASH
    ensures Run(StepLine, r, buf, p) == Run(StepLine, StartOfUri(r, p), buf, p + 1)
  {
    BeforeGo(r, buf, p, StartOfUri(r, p));
  }

  /** The space behind the URI. */
  lemma UriEnds(r: Line, buf: seq<byte>, p: nat) returns (r': Line)
    requires WithinUri(r.state) && p < |buf| && buf[p] == SPACE
    ensures Run(StepLine, r, buf, p) == Run(StepLine, r', buf, p + 1)
    ensures AfterUri(r'.state) && r'.verb == r.verb && r'.at == r.at.(uriEnd := Some(p))
  {
    r' := StepLine(r, buf[..p], buf[p]).state;
    RunGo(r, buf, p, r');
  }

  lemma PartsOfLine(m: seq<byte>, path: seq<byte>, major: nat, minor: nat)
    requires major < 10 && minor < 10
    ensures var buf, q := LineText(m, path, major, minor), |m| + 1 + |path|;
      && buf[..|m|] == m && buf[|m|] == SPACE && buf[|m| + 1..q] == path && buf[q] == SPACE
      && buf[q + 1..] == VersionText(major, minor)
  {
  }

  /** The line up to the version. */
  lemma UriIsRead(m: seq<byte>, path: seq<byte>, buf: seq<byte>) returns (r: Line)
    requires MethodName(m) && path != [] && path[0] == SLASH && (forall i | 0 <= i < |path| :: UriOctet(path[i]))
    requires |m| + 1 + |path| < |buf| && buf[..|m|] == m && buf[|m|] == SPACE
    requires buf[|m| + 1..|m| + 1 + |path|] == path && buf[|m| + 1 + |path|] == SPACE
    ensures Run(StepLine, BLANK, buf, 0) == Run(StepLine, r, buf, |m| + |path| + 2)
    ensures AfterUri(r.state) && r.verb == VerbOf(m) && r.at.requestStart == Some(0) && r.at.methodEnd == Some(|m| - 1)
    ensures r.at.uriStart == Some(|m| + 1) && r.at.uriEnd == Some(|m| + 1 + |path|) && r.at.requestEnd.None?
  {
    PathOctets(path, buf, |m| + 1);
    var r0 := MethodIsRead(m, buf);
    var r1 := UriGoes(r0, buf, |m| + 2, |m| + 1 + |path|);
    r := UriEnds(r1, buf, |m| + 1 + |path|);
  }

  lemma PathOctets(path: seq<byte>, buf: seq<byte>, p: nat)
    requires path != [] && path[0] == SLASH && (forall i | 0 <= i < |path| :: UriOctet(path[i]))
    requires p + |path| <= |buf| && buf[p..p + |path|] == path
    ensures buf[p] == SLASH && forall i | p <= i < p + |path| :: UriOctet(buf[i])
  {
    forall i | p <= i < p + |path|
      ensures buf[i] == path[i - p]
    {
      assert buf[i] == buf[p..p + |path|][i - p];
    }
  }

  /** Every such line is accepted as a whole: the method is the one its name is of, if any; the URI is the path; and the
    * version is the one spelled. */
  lemma LineIsAccepted(m: seq<byte>, path: seq<byte>, major: nat, minor: nat)
    requires MethodName(m) && path != [] && path[0] == SLASH && (forall i | 0 <= i < |path| :: UriOctet(path[i]))
    requires 0 < major < 10 && minor < 10
    ensures var buf := LineText(m, path, major, minor);
      var end := Run(StepLine, BLANK, buf, 0);
      && end.Complete? && end.pos == |buf| && end.state.version == Version(major, minor) && end.state.verb == VerbOf(m)
      && end.state.at.requestStart == Some(0) && end.state.at.methodEnd == Some(|m| - 1)
      && end.state.at.uriStart == Some(|m| + 1) && end.state.at.uriEnd == Some(|m| + 1 + |path|)
      && end.state.at.requestEnd == Some(|buf| - 2)
  {
    var buf := LineText(m, path, major, minor);
    PartsOfLine(m, path, major, minor);
    var r := UriIsRead(m, path, buf);
    VersionIsRead(r, buf, |m| + |path| + 2, major, minor);
  }
}
