/** The schema, the host and the port of an absolute URI in a request line are recorded where they stand
  * (src/http/ngx_http_parse.c, ngx_http_parse_request_line). */
module RequestOrigin {
  import opened Bytes
  import opened Automaton
  import opened RequestLine
  import opened RequestText

  predicate HostOctet(ch: byte) {
    IsLetter(ch) || IsDigit(ch) || ch == DOT || ch == MINUS
  }

  /** "<schema>://" lies from p to h: the colon is at e. */
  predicate SchemaAt(buf: seq<byte>, p: nat, e: nat) {
    && p < e && e + 3 <= |buf| && (forall i | p <= i < e :: IsLetter(buf[i]))
    && buf[e] == COLON && buf[e + 1] == SLASH && buf[e + 2] == SLASH
  }

  /** The host lies from h to f, and the path starts at q: behind the host, or behind ":<port>". */
  predicate HostAt(buf: seq<byte>, h: nat, f: nat, q: nat) {
    && h <= f <= q < |buf| && (forall i | h <= i < f :: HostOctet(buf[i])) && buf[q] == SLASH
    && (f == q || (buf[f] == COLON && forall i | f < i < q :: IsDigit(buf[i])))
  }

  /** In this state these octets change nothing. */
  lemma {:induction false} StaysFor(r: Line, buf: seq<byte>, p: nat, q: nat)
    requires BeforeUri(r.state) && p <= q <= |buf|
    requires forall i | p <= i < q :: StepBeforeUri(r, buf[..i], buf[i]) == Go(r)
    ensures Run(StepLine, r, buf, p) == Run(StepLine, r, buf, q)
    decreases q - p
  {
    if p < q {
      BeforeGo(r, buf, p, r);
      StaysFor(r, buf, p + 1, q);
    }
  }

  lemma SchemaIsRead(r: Line, buf: seq<byte>, p: nat, e: nat) returns (r': Line)
    requires r.state == SpacesBeforeUri && SchemaAt(buf, p, e)
    ensures Run(StepLine, r, buf, p) == Run(StepLine, r', buf, e + 3)
    ensures r' == r.(at := r.at.(schemaEnd := Some(e)), state := Host,
                     marks := r.marks.(schemaStart := Some(p), hostStart := Some(e + 3)))
  {
    var r1 := r.(marks := r.marks.(schemaStart := Some(p)), state := Schema);
    BeforeGo(r, buf, p, r1);
    var r2 := SchemaEnds(r1, buf, p + 1, e);
    r' := SlashesAreRead(r2, buf, e + 1);
  }

  lemma SchemaEnds(r: Line, buf: seq<byte>, p: nat, e: nat) returns (r': Line)
    requires r.state == Schema && p <= e < |buf| && (forall i | p <= i < e :: IsLetter(buf[i])) && buf[e] == COLON
    ensures Run(StepLine, r, buf, p) == Run(StepLine, r', buf, e + 1)
    ensures r' == r.(at := r.at.(schemaEnd := Some(e)), state := SchemaSlash)
  {
    StaysFor(r, buf, p, e);
    r' := r.(at := r.at.(schemaEnd := Some(e)), state := SchemaSlash);
    BeforeGo(r, buf, e, r');
  }

  lemma SlashesAreRead(r: Line, buf: seq<byte>, p: nat) returns (r': Line)
    requires r.state == SchemaSlash && p + 2 <= |buf| && buf[p] == SLASH && buf[p + 1] == SLASH
    ensures Run(StepLine, r, buf, p) == Run(StepLine, r', buf, p + 2)
    ensures r' == r.(marks := r.marks.(hostStart := Some(p + 2)), state := Host)
  {
    BeforeGo(r, buf, p, r.To(SchemaSlashSlash));
    r' := r.(marks := r.marks.(hostStart := Some(p + 2)), state := Host);
    BeforeGo(r.To(SchemaSlashSlash), buf, p + 1, r');
  }

  lemma HostIsRead(r: Line, buf: seq<byte>, h: nat, f: nat, q: nat) returns (r': Line)
    requires r.state == Host && HostAt(buf, h, f, q)
    ensures Run(StepLine, r, buf, h) == Run(StepLine, r', buf, q + 1)
    ensures r' == r.(at := r.at.(uriStart := Some(q)), state := AfterSlashInUri,
                     marks := r.marks.(hostEnd := Some(f), portEnd := if f < q then Some(q) else r.marks.portEnd))
  {
    StaysFor(r, buf, h, f);
    r' := HostEnds(r, buf, f, q);
  }

  lemma HostEnds(r: Line, buf: seq<byte>, f: nat, q: nat) returns (r': Line)
    requires r.state == Host && HostAt(buf, f, f, q)
    ensures Run(StepLine, r, buf, f) == Run(StepLine, r', buf, q + 1)
    ensures r' == r.(at := r.at.(uriStart := Some(q)), state := AfterSlashInUri,
                     marks := r.marks.(hostEnd := Some(f), portEnd := if f < q then Some(q) else r.marks.portEnd))
  {
    var r1 := r.(marks := r.marks.(hostEnd := Some(f)));
    if f == q {
      r' := StartOfUri(r1, q);
      BeforeGo(r, buf, q, r');
    } else {
      BeforeGo(r, buf, f, r1.To(Port));
      r' := PortIsRead(r1.To(Port), buf, f + 1, q);
    }
  }

  lemma PortIsRead(r: Line, buf: seq<byte>, p: nat, q: nat) returns (r': Line)
    requires r.state == Port && p <= q < |buf| && (forall i | p <= i < q :: IsDigit(buf[i])) && buf[q] == SLASH
    ensures Run(StepLine, r, buf, p) == Run(StepLine, r', buf, q + 1)
    ensures r' == StartOfUri(r.(marks := r.marks.(portEnd := Some(q))), q)
  {
    StaysFor(r, buf, p, q);
    r' := StartOfUri(r.(marks := r.marks.(portEnd := Some(q))), q);
    BeforeGo(r, buf, q, r');
  }

  /** The origin of an absolute URI is recorded part by part, and the URI that is kept starts with its path. */
  lemma OriginIsRead(r: Line, buf: seq<byte>, p: nat, e: nat, f: nat, q: nat) returns (r': Line)
    requires r.state == SpacesBeforeUri && SchemaAt(buf, p, e) && HostAt(buf, e + 3, f, q)
    ensures Run(StepLine, r, buf, p) == Run(StepLine, r', buf, q + 1) && r'.state == AfterSlashInUri && r'.verb == r.verb
    ensures r'.at == r.at.(schemaEnd := Some(e), uriStart := Some(q))
    ensures r'.marks.schemaStart == Some(p) && r'.marks.hostStart == Some(e + 3) && r'.marks.hostEnd == Some(f)
    ensures r'.marks.portEnd == if f < q then Some(q) else r.marks.portEnd
  {
    var r1 := SchemaIsRead(r, buf, p, e);
    r' := HostIsRead(r1, buf, e + 3, f, q);
  }
}
