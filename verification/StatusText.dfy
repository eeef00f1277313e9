/** Well-formed status lines are accepted, with the code and the text that they spell (src/http/ngx_http_parse.c,
  * ngx_http_parse_status_line). */
module StatusText {
  import opened Bytes
  import opened Automaton
  import opened StatusLine

  predicate DigitsAt(buf: seq<byte>, a: nat, b: nat) {
    a < b <= |buf| && forall i | a <= i < b :: IsDigit(buf[i])
  }

  /** "HTTP/<major>.<minor>" up to b; the dot is at a. */
  predicate VersionAt(buf: seq<byte>, a: nat, b: nat) {
    && 5 < a < b <= |buf| && buf[0] == 72 && buf[1] == 84 && buf[2] == 84 && buf[3] == 80 && buf[4] == SLASH
    && DigitsAt(buf, 5, a) && buf[5] != ZERO && buf[a] == DOT && DigitsAt(buf, a + 1, b)
  }

  /** Spaces and the three digits of the code, up to c. */
  predicate CodeAt(buf: seq<byte>, b: nat, c: nat) {
    b + 4 <= c <= |buf| && (forall i | b <= i < c - 3 :: buf[i] == SPACE) && DigitsAt(buf, c - 3, c)
  }

  /** Nothing, or a text behind a space or a dot; and the end of the line, from e on. */
  predicate TextAt(buf: seq<byte>, c: nat, e: nat) {
    && c <= e < |buf| && (c < e ==> buf[c] == SPACE || buf[c] == DOT)
    && (forall i | c <= i < e :: buf[i] != CR && buf[i] != LF)
    && (buf[e..] == [LF] || buf[e..] == [CR, LF])
  }

  lemma RunGo(r: Status, buf: seq<byte>, p: nat, r': Status)
    requires p < |buf| && StepStatus(r, buf[..p], buf[p]) == Go(r')
    ensures Run(StepStatus, r, buf, p) == Run(StepStatus, r', buf, p + 1)
  {
  }

  /** In this state these octets change nothing. */
  lemma {:induction false} StaysFor(r: Status, buf: seq<byte>, p: nat, q: nat)
    requires p <= q <= |buf| && forall i | p <= i < q :: StepStatus(r, buf[..i], buf[i]) == Go(r)
    ensures Run(StepStatus, r, buf, p) == Run(StepStatus, r, buf, q)
    decreases q - p
  {
    if p < q {
      RunGo(r, buf, p, r);
      StaysFor(r, buf, p + 1, q);
    }
  }

  lemma ProtocolIsRead(buf: seq<byte>)
    requires |buf| >= 5 && buf[0] == 72 && buf[1] == 84 && buf[2] == 84 && buf[3] == 80 && buf[4] == SLASH
    ensures Run(StepStatus, BLANK, buf, 0) == Run(StepStatus, BLANK.To(FirstMajorDigit), buf, 5)
  {
    RunGo(BLANK, buf, 0, BLANK.To(H));
    RunGo(BLANK.To(H), buf, 1, BLANK.To(HT));
    RunGo(BLANK.To(HT), buf, 2, BLANK.To(HTT));
    RunGo(BLANK.To(HTT), buf, 3, BLANK.To(HTTP));
    RunGo(BLANK.To(HTTP), buf, 4, BLANK.To(FirstMajorDigit));
  }

  lemma NumbersAreRead(buf: seq<byte>, a: nat, b: nat)
    requires VersionAt(buf, a, b) && b < |buf| && buf[b] == SPACE
    ensures Run(StepStatus, BLANK.To(FirstMajorDigit), buf, 5) == Run(StepStatus, BLANK.To(Code), buf, b + 1)
  {
    RunGo(BLANK.To(FirstMajorDigit), buf, 5, BLANK.To(MajorDigit));
    StaysFor(BLANK.To(MajorDigit), buf, 6, a);
    RunGo(BLANK.To(MajorDigit), buf, a, BLANK.To(FirstMinorDigit));
    RunGo(BLANK.To(FirstMinorDigit), buf, a + 1, BLANK.To(MinorDigit));
    StaysFor(BLANK.To(MinorDigit), buf, a + 2, b);
    RunGo(BLANK.To(MinorDigit), buf, b, BLANK.To(Code));
  }

  /** The number that the three digits before c spell. */
  function CodeBefore(buf: seq<byte>, c: nat): nat
    requires 3 <= c <= |buf| && DigitsAt(buf, c - 3, c)
  {
    (buf[c - 3] - ZERO) * 100 + (buf[c - 2] - ZERO) * 10 + (buf[c - 1] - ZERO)
  }

  lemma CodeIsRead(buf: seq<byte>, b: nat, c: nat)
    requires CodeAt(buf, b, c)
    ensures Run(StepStatus, BLANK.To(Code), buf, b + 1) ==
      Run(StepStatus, Status(SpaceAfterStatus, CodeBefore(buf, c), 3, Some(c - 3), None), buf, c)
  {
    var r, p := BLANK.To(Code), c - 3;
    StaysFor(r, buf, b + 1, p);
    var r1 := r.(code := buf[p] - ZERO, count := 1);
    RunGo(r, buf, p, r1);
    var r2 := r1.(code := r1.code * 10 + (buf[p + 1] - ZERO), count := 2);
    RunGo(r1, buf, p + 1, r2);
    RunGo(r2, buf, p + 2, Status(SpaceAfterStatus, CodeBefore(buf, c), 3, Some(c - 3), None));
  }

  lemma EndIsRead(r: Status, buf: seq<byte>, e: nat)
    requires (r.state.SpaceAfterStatus? || r.state.StatusText?) && r.end.None? && e < |buf|
    requires buf[e..] == [LF] || buf[e..] == [CR, LF]
    ensures Run(StepStatus, r, buf, e) == Complete(r.(end := Some(e), state := Start), |buf|)
  {
    assert buf[e] == buf[e..][0];
    if buf[e] == CR {
      assert buf[e + 1] == buf[e..][1];
      RunGo(r, buf, e, r.To(AlmostDone));
    }
  }

  lemma TextIsRead(r: Status, buf: seq<byte>, c: nat, e: nat)
    requires r.state.SpaceAfterStatus? && r.end.None? && TextAt(buf, c, e)
    ensures Run(StepStatus, r, buf, c) == Complete(r.(end := Some(e), state := Start), |buf|)
  {
    if c < e {
      var r1 := r.To(StatusLine.StatusText);
      RunGo(r, buf, c, r1);
      StaysFor(r1, buf, c + 1, e);
      EndIsRead(r1, buf, e);
    } else {
      EndIsRead(r, buf, e);
    }
  }

  /** Every such line is accepted as a whole, with its code, and with its text from the code to the end of the line. */
  lemma StatusLineIsAccepted(buf: seq<byte>, a: nat, b: nat, c: nat, e: nat)
    requires VersionAt(buf, a, b) && CodeAt(buf, b, c) && TextAt(buf, c, e)
    ensures Run(StepStatus, BLANK, buf, 0) == Complete(Status(Start, CodeBefore(buf, c), 3, Some(c - 3), Some(e)), |buf|)
  {
    assert Run(StepStatus, BLANK, buf, 0) == Run(StepStatus, BLANK.To(Code), buf, b + 1) by {
      ProtocolIsRead(buf);
      NumbersAreRead(buf, a, b);
    }
    CodeIsRead(buf, b, c);
    TextIsRead(Status(SpaceAfterStatus, CodeBefore(buf, c), 3, Some(c - 3), None), buf, c, e);
  }
}
