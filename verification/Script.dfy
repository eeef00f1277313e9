/** Templates with variables (src/http/ngx_http_script.c, src/http/ngx_http_variables.c): a source such as
  * `text$var${var}$1` is compiled into a length program and a value program, which are run one after
  * the other for every request.
  */
module Script {
  import opened Bytes

  const LOWER_BRACE: byte := 123
  const CLOSING_BRACE: byte := 125
  const ONE: byte := 49

  // ---------------------------------------------------------------- what a template means

  /** A template is literal octets, variables and captures; nothing here knows about programs. */
  datatype Piece = Octet(b: byte) | Variable(index: nat) | Capture(n: nat)

  predicate IsNameOctet(ch: byte) {
    UPPER_A <= ch <= UPPER_Z || LOWER_A <= ch <= LOWER_Z || IsDigit(ch) || ch == UNDERSCORE
  }

  /** Number of name octets at the front of s. */
  function NameLength(s: seq<byte>): (n: nat)
    ensures n <= |s|
    ensures forall i | 0 <= i < n :: IsNameOctet(s[i])
    ensures n < |s| ==> !IsNameOctet(s[n])
  {
    if s == [] || !IsNameOctet(s[0]) then 0 else 1 + NameLength(s[1..])
  }

  /** What follows a '$': a capture, a bare name or a braced name, and how many octets it takes. */
  datatype Reference = Reference(piece: Piece, width: nat)

  function ReadReference(s: seq<byte>, index: seq<byte> -> nat): (r: Option<Reference>)
    ensures r.Some? ==> 0 < r.value.width <= |s|
  {
    if s == [] then None
    else if ONE <= s[0] <= NINE then Some(Reference(Capture(s[0] - ZERO), 1))
    else if s[0] == LOWER_BRACE then
      var n := NameLength(s[1..]);
      if n > 0 && 1 + n < |s| && s[1 + n] == CLOSING_BRACE then Some(Reference(Variable(index(s[1..1 + n])), n + 2))
      else None
    else
      var n := NameLength(s);
      if n > 0 then Some(Reference(Variable(index(s[..n])), n)) else None
  }

  /** The pieces of a source, octet by octet; None for a malformed reference. */
  function Parse(s: seq<byte>, index: seq<byte> -> nat): Option<seq<Piece>>
    decreases |s|
  {
    if s == [] then Some([])
    else if s[0] != DOLLAR then Prepend(Octet(s[0]), Parse(s[1..], index))
    else
      match ReadReference(s[1..], index)
      case None => None
      case Some(r) => Prepend(r.piece, Parse(s[1 + r.width..], index))
  }

  function Prepend(p: Piece, rest: Option<seq<Piece>>): Option<seq<Piece>> {
    match rest
    case None => None
    case Some(pieces) => Some([p] + pieces)
  }

  // ---------------------------------------------------------------- variables of a request

  /** r->variables[index]. */
  datatype Slot = Slot(valid: bool, notFound: bool, noCacheable: bool, data: seq<byte>) {
    predicate Settled() {
      valid || notFound
    }
  }

  /** What a get_handler does when it is called: whether it returns NGX_OK, and the slot it leaves. */
  datatype Answer = Answer(ok: bool, slot: Slot)

  /** A handler may answer differently every time; `tick` numbers the calls of a request. */
  type Handlers = (nat, nat) -> Answer

  datatype Env = Env(handlers: Handlers, noCacheable: nat -> bool, spans: seq<(nat, nat)>, captured: seq<byte>)

  datatype Req = Req(slots: seq<Slot>, tick: nat)

  /** Handlers that return NGX_OK have decided: the slot is valid or not found. */
  ghost predicate Decided(env: Env) {
    forall i: nat, tick: nat :: env.handlers(i, tick).ok ==> env.handlers(i, tick).slot.Settled()
  }

  /** ngx_http_get_indexed_variable: the cached slot if it is settled, else the handler's answer. */
  function GetIndexed(env: Env, r: Req, i: nat): (Req, Option<Slot>) {
    if i >= |r.slots| then (r, None)
    else if r.slots[i].Settled() then (r, Some(r.slots[i]))
    else
      var a := env.handlers(i, r.tick);
      if a.ok then
        var slot := if env.noCacheable(i) then a.slot.(noCacheable := true) else a.slot;
        (Req(r.slots[i := slot], r.tick + 1), Some(slot))
      else
        (Req(r.slots[i := a.slot.(valid := false, notFound := true)], r.tick + 1), None)
  }

  /** The octets a variable contributes. */
  function ValueOf(v: Option<Slot>): seq<byte> {
    if v.Some? && !v.value.notFound then v.value.data else []
  }

  /** The octets of $n. */
  function CaptureOf(env: Env, n: nat): seq<byte> {
    if 2 * n < 2 * |env.spans| && env.spans[n].0 <= env.spans[n].1 <= |env.captured|
    then env.captured[env.spans[n].0..env.spans[n].1] else []
  }

  /** ngx_http_script_flush_complex_value */
  function Flush(r: Req, flushes: seq<nat>): Req
    decreases |flushes|
  {
    if flushes == [] then r
    else
      var i := flushes[0];
      Flush(if i < |r.slots| && r.slots[i].noCacheable
            then r.(slots := r.slots[i := r.slots[i].(valid := false, notFound := false)]) else r,
            flushes[1..])
  }

  /** Interpolating the pieces directly, from left to right. */
  function Interpolate(env: Env, r: Req, pieces: seq<Piece>): (Req, seq<byte>)
    decreases |pieces|
  {
    if pieces == [] then (r, [])
    else
      var (r', text) := Expand(env, r, pieces[0]);
      var (r'', rest) := Interpolate(env, r', pieces[1..]);
      (r'', text + rest)
  }

  function Expand(env: Env, r: Req, p: Piece): (Req, seq<byte>) {
    match p
    case Octet(b) => (r, [b])
    case Variable(i) => var (r', v) := GetIndexed(env, r, i); (r', ValueOf(v))
    case Capture(n) => (r, CaptureOf(env, n))
  }

  // ---------------------------------------------------------------- the two programs

  /** Value opcodes; the copied text follows its opcode in the code array. */
  datatype ValueCode = CopyText(text: seq<byte>) | CopyVar(index: nat) | CopyCapture(n: nat)

  /** Length opcodes. */
  datatype LengthCode = TextLen(len: nat) | VarLen(index: nat) | CaptureLen(n: nat)

  function LengthOf(c: ValueCode): LengthCode {
    match c
    case CopyText(text) => TextLen(|text|)
    case CopyVar(i) => VarLen(i)
    case CopyCapture(n) => CaptureLen(n)
  }

  datatype Program = Program(lengths: seq<LengthCode>, values: seq<ValueCode>, flushes: seq<nat>)

  /** One length opcode. */
  function RunLength(env: Env, r: Req, c: LengthCode): (Req, nat) {
    match c
    case TextLen(len) => (r, len)
    case VarLen(i) => var (r', v) := GetIndexed(env, r, i); (r', |ValueOf(v)|)
    case CaptureLen(n) =>
      (r, if 2 * n < 2 * |env.spans| && env.spans[n].0 <= env.spans[n].1 <= |env.captured|
          then env.spans[n].1 - env.spans[n].0 else 0)
  }

  /** One value opcode. */
  function RunValue(env: Env, r: Req, c: ValueCode): (Req, seq<byte>) {
    match c
    case CopyText(text) => (r, text)
    case CopyVar(i) => var (r', v) := GetIndexed(env, r, i); (r', ValueOf(v))
    case CopyCapture(n) => (r, CaptureOf(env, n))
  }

  function RunLengths(env: Env, r: Req, codes: seq<LengthCode>): (Req, nat)
    decreases |codes|
  {
    if codes == [] then (r, 0)
    else
      var (r', n) := RunLength(env, r, codes[0]);
      var (r'', rest) := RunLengths(env, r', codes[1..]);
      (r'', n + rest)
  }

  function RunValues(env: Env, r: Req, codes: seq<ValueCode>): (Req, seq<byte>)
    decreases |codes|
  {
    if codes == [] then (r, [])
    else
      var (r', text) := RunValue(env, r, codes[0]);
      var (r'', rest) := RunValues(env, r', codes[1..]);
      (r'', text + rest)
  }

  /** sizeof(ngx_http_script_copy_code_t) and sizeof(uintptr_t) on a 64-bit platform. */
  const COPY_CODE_SIZE := 16
  const WORD_SIZE := 8

  /** Round up to a multiple of the word size: `(n + 7) & ~7`. */
  function Aligned(n: nat): nat {
    (n + WORD_SIZE - 1) / WORD_SIZE * WORD_SIZE
  }

  /** The compiler reserves exactly the octets over which the engine advances its instruction pointer. */
  lemma CopyCodeIsSkippedExactly(len: nat)
    ensures Aligned(COPY_CODE_SIZE + len) == COPY_CODE_SIZE + Aligned(len)
    ensures Aligned(len) >= len
  {
  }

  // ---------------------------------------------------------------- both passes agree with interpolation

  /** The pieces an opcode stands for. */
  function PiecesOf(c: ValueCode): seq<Piece> {
    match c
    case CopyText(text) => Octets(text)
    case CopyVar(i) => [Variable(i)]
    case CopyCapture(n) => [Capture(n)]
  }

  function Octets(text: seq<byte>): seq<Piece> {
    if text == [] then [] else [Octet(text[0])] + Octets(text[1..])
  }

  function Pieces(codes: seq<ValueCode>): seq<Piece> {
    if codes == [] then [] else PiecesOf(codes[0]) + Pieces(codes[1..])
  }

  lemma {:induction false} InterpolateConcat(env: Env, r: Req, a: seq<Piece>, b: seq<Piece>)
    ensures Interpolate(env, r, a + b) ==
      (Interpolate(env, Interpolate(env, r, a).0, b).0, Interpolate(env, r, a).1 + Interpolate(env, Interpolate(env, r, a).0, b).1)
    decreases |a|
  {
    if a == [] {
      assert [] + b == b;
      assert [] + Interpolate(env, r, b).1 == Interpolate(env, r, b).1;
    } else {
      assert (a + b)[1..] == a[1..] + b;
      var (r', text) := Expand(env, r, a[0]);
      InterpolateConcat(env, r', a[1..], b);
      var (m, x) := Interpolate(env, r', a[1..]);
      var (_, y) := Interpolate(env, m, b);
      assert text + (x + y) == (text + x) + y;
    }
  }

  lemma {:induction false} OctetsAreText(env: Env, r: Req, text: seq<byte>)
    ensures Interpolate(env, r, Octets(text)) == (r, text)
    decreases |text|
  {
    if text != [] {
      assert ([Octet(text[0])] + Octets(text[1..]))[1..] == Octets(text[1..]);
      OctetsAreText(env, r, text[1..]);
      assert [text[0]] + text[1..] == text;
    }
  }

  /** Running the value program is interpolating its pieces. */
  lemma {:induction false} ValuesInterpolate(env: Env, r: Req, codes: seq<ValueCode>)
    ensures RunValues(env, r, codes) == Interpolate(env, r, Pieces(codes))
    decreases |codes|
  {
    if codes != [] {
      var c := codes[0];
      var (r', text) := RunValue(env, r, c);
      ValuesInterpolate(env, r', codes[1..]);
      InterpolateConcat(env, r, PiecesOf(c), Pieces(codes[1..]));
      match c {
        case CopyText(t) => OctetsAreText(env, r, t);
        case CopyVar(i) =>
          assert [Variable(i)][1..] == [];
          assert text + [] == text;
        case CopyCapture(n) =>
          assert [Capture(n)][1..] == [];
          assert text + [] == text;
      }
    }
  }

  function Lengths(codes: seq<ValueCode>): seq<LengthCode> {
    if codes == [] then [] else [LengthOf(codes[0])] + Lengths(codes[1..])
  }

  /** The length program calls the same handlers as the value program would and adds up the lengths. */
  lemma {:induction false} LengthsMeasure(env: Env, r: Req, codes: seq<ValueCode>)
    ensures RunLengths(env, r, Lengths(codes)) == (RunValues(env, r, codes).0, |RunValues(env, r, codes).1|)
    decreases |codes|
  {
    if codes != [] {
      assert ([LengthOf(codes[0])] + Lengths(codes[1..]))[1..] == Lengths(codes[1..]);
      var (r', text) := RunValue(env, r, codes[0]);
      LengthsMeasure(env, r', codes[1..]);
    }
  }

  /** Settled slots of r keep their value in r'. */
  ghost predicate Extends(r: Req, r': Req) {
    && |r'.slots| == |r.slots|
    && forall i | 0 <= i < |r.slots| :: r.slots[i].Settled() ==> r'.slots[i] == r.slots[i]
  }

  lemma {:induction false} RunExtends(env: Env, r: Req, codes: seq<ValueCode>)
    ensures Extends(r, RunValues(env, r, codes).0)
    decreases |codes|
  {
    if codes != [] {
      RunExtends(env, RunValue(env, r, codes[0]).0, codes[1..]);
    }
  }

  /** The slot an opcode fetches, if it fetches one, is settled. */
  ghost predicate SettledFor(r: Req, c: ValueCode) {
    c.CopyVar? && c.index < |r.slots| ==> r.slots[c.index].Settled()
  }

  /** In this run every handler that is asked decides its slot. */
  ghost predicate DecidedAlong(env: Env, r: Req, codes: seq<ValueCode>)
    decreases |codes|
  {
    codes == [] || var r' := RunValue(env, r, codes[0]).0; SettledFor(r', codes[0]) && DecidedAlong(env, r', codes[1..])
  }

  /** Handlers that always decide do so in every run. */
  lemma {:induction false} DecidedEverywhere(env: Env, r: Req, codes: seq<ValueCode>)
    requires Decided(env)
    ensures DecidedAlong(env, r, codes)
    decreases |codes|
  {
    if codes != [] {
      var c := codes[0];
      if c.CopyVar? && c.index < |r.slots| && !r.slots[c.index].Settled() {
        assert env.handlers(c.index, r.tick).ok ==> env.handlers(c.index, r.tick).slot.Settled();
      }
      DecidedEverywhere(env, RunValue(env, r, c).0, codes[1..]);
    }
  }

  /** After a first fetch that decided, any later state that keeps settled slots answers the same without a call. */
  lemma ValueTwice(env: Env, r: Req, c: ValueCode, later: Req)
    requires SettledFor(RunValue(env, r, c).0, c) && Extends(RunValue(env, r, c).0, later)
    ensures RunValue(env, later, c) == (later, RunValue(env, r, c).1)
  {
  }

  /** The second pass repeats the first: it calls no handler, changes no slot and yields the same octets,
    * however the handlers would answer now. */
  lemma {:induction false} SecondPassRepeats(env: Env, r: Req, codes: seq<ValueCode>, later: Req)
    requires DecidedAlong(env, r, codes) && Extends(RunValues(env, r, codes).0, later)
    ensures RunValues(env, later, codes) == (later, RunValues(env, r, codes).1)
    decreases |codes|
  {
    if codes != [] {
      var (r', text) := RunValue(env, r, codes[0]);
      RunExtends(env, r', codes[1..]);
      ValueTwice(env, r, codes[0], later);
      SecondPassRepeats(env, r', codes[1..], later);
    }
  }

  /** Calling a handler advances the tick, and nothing sets it back. */
  lemma {:induction false} TicksAdvance(env: Env, r: Req, codes: seq<ValueCode>)
    ensures r.tick <= RunValues(env, r, codes).0.tick
    decreases |codes|
  {
    if codes != [] {
      TicksAdvance(env, RunValue(env, r, codes[0]).0, codes[1..]);
    }
  }

  /** A run asks no handler and changes nothing if and only if every slot it fetches is settled. */
  lemma {:induction false} RunIsSilentIff(env: Env, r: Req, codes: seq<ValueCode>)
    ensures RunValues(env, r, codes).0 == r <==> forall c | c in codes :: SettledFor(r, c)
    decreases |codes|
  {
    if codes != [] {
      var r' := RunValue(env, r, codes[0]).0;
      TicksAdvance(env, r', codes[1..]);
      assert codes == [codes[0]] + codes[1..];
      if SettledFor(r, codes[0]) {
        RunIsSilentIff(env, r, codes[1..]);
      } else {
        assert codes[0] in codes && r'.tick == r.tick + 1;
      }
    }
  }

  // ---------------------------------------------------------------- the compiler

  /** Both programs are in step. */
  ghost predicate InStep(p: Program) {
    p.lengths == Lengths(p.values)
  }

  lemma {:induction false} LengthsSnoc(codes: seq<ValueCode>, c: ValueCode)
    ensures Lengths(codes + [c]) == Lengths(codes) + [LengthOf(c)]
    decreases |codes|
  {
    if codes == [] {
      assert [] + [c] == [c];
    } else {
      assert (codes + [c])[1..] == codes[1..] + [c];
      LengthsSnoc(codes[1..], c);
    }
  }

  lemma {:induction false} PiecesSnoc(codes: seq<ValueCode>, c: ValueCode)
    ensures Pieces(codes + [c]) == Pieces(codes) + PiecesOf(c)
    decreases |codes|
  {
    if codes == [] {
      assert [] + [c] == [c];
      assert PiecesOf(c) + [] == PiecesOf(c);
    } else {
      assert (codes + [c])[1..] == codes[1..] + [c];
      PiecesSnoc(codes[1..], c);
    }
  }

  lemma {:induction false} OctetsSnoc(text: seq<byte>, b: byte)
    ensures Octets(text + [b]) == Octets(text) + [Octet(b)]
    decreases |text|
  {
    if text == [] {
      assert [] + [b] == [b];
    } else {
      assert (text + [b])[1..] == text[1..] + [b];
      OctetsSnoc(text[1..], b);
    }
  }

  /** ngx_http_script_add_copy_code, _add_var_code and _add_capture_code append to both arrays. */
  function Append(p: Program, c: ValueCode): Program {
    Program(p.lengths + [LengthOf(c)], p.values + [c], if c.CopyVar? then p.flushes + [c.index] else p.flushes)
  }

  lemma AppendKeepsStep(p: Program, c: ValueCode)
    requires InStep(p)
    ensures InStep(Append(p, c)) && Pieces(Append(p, c).values) == Pieces(p.values) + PiecesOf(c)
  {
    LengthsSnoc(p.values, c);
    PiecesSnoc(p.values, c);
  }

  /** The pieces of the whole source, given those of the part already compiled. */
  function After(done: seq<Piece>, rest: Option<seq<Piece>>): Option<seq<Piece>> {
    match rest
    case None => None
    case Some(pieces) => Some(done + pieces)
  }

  lemma AfterPrepend(done: seq<Piece>, p: Piece, rest: Option<seq<Piece>>)
    ensures After(done, Prepend(p, rest)) == After(done + [p], rest)
  {
    if rest.Some? {
      assert done + ([p] + rest.value) == done + [p] + rest.value;
    }
  }

  /** The name loop: stops at the first octet that is not part of a name. */
  method ScanName(source: seq<byte>, start: nat) returns (i: nat)
    requires start <= |source|
    ensures start <= i <= |source| && i - start == NameLength(source[start..])
  {
    i := start;
    while i < |source| && IsNameOctet(source[i])
      invariant start <= i <= |source|
      invariant NameLength(source[start..]) == i - start + NameLength(source[i..])
    {
      assert source[i..][1..] == source[i + 1..];
      i := i + 1;
    }
  }

  /** The literal loop: everything up to the next '$'. */
  method ScanLiteral(source: seq<byte>, start: nat, index: seq<byte> -> nat) returns (i: nat)
    requires start < |source| && source[start] != DOLLAR
    ensures start < i <= |source|
    ensures Parse(source[start..], index) == After(Octets(source[start..i]), Parse(source[i..], index))
  {
    i := start;
    assert source[start..start] == [];
    AfterNothing(Parse(source[start..], index));
    while i < |source| && source[i] != DOLLAR
      invariant start <= i <= |source|
      invariant i == start ==> i < |source| && source[i] != DOLLAR
      invariant Parse(source[start..], index) == After(Octets(source[start..i]), Parse(source[i..], index))
    {
      DropOne(source, i);
      AfterPrepend(Octets(source[start..i]), Octet(source[i]), Parse(source[i + 1..], index));
      OctetsSnoc(source[start..i], source[i]);
      assert source[start..i] + [source[i]] == source[start..i + 1];
      i := i + 1;
    }
  }

  lemma DropOne(s: seq<byte>, i: nat)
    requires i < |s|
    ensures s[i..] != [] && s[i..][0] == s[i] && s[i..][1..] == s[i + 1..]
  {
  }

  lemma AfterNothing(rest: Option<seq<Piece>>)
    ensures After(Octets([]), rest) == rest
  {
    if rest.Some? {
      assert [] + rest.value == rest.value;
    }
  }

  /** The part of the compiler after a '$' at offset i - 1. */
  method CompileReference(source: seq<byte>, i: nat, index: seq<byte> -> nat) returns (c: Option<ValueCode>, next: nat)
    requires i <= |source|
    ensures match ReadReference(source[i..], index)
      case None => c.None?
      case Some(r) => c.Some? && PiecesOf(c.value) == [r.piece] && next == i + r.width && !c.value.CopyText?
  {
    c, next := None, i;
    ghost var s := source[i..];
    if i == |source| {
      return;
    }
    if ONE <= source[i] <= NINE {
      return Some(CopyCapture(source[i] - ZERO)), i + 1;
    }
    if source[i] == LOWER_BRACE {
      if i + 1 == |source| {
        return;
      }
      var end := ScanName(source, i + 1);
      assert s[1..] == source[i + 1..];
      if end == |source| || source[end] != CLOSING_BRACE || end == i + 1 {
        return;
      }
      assert source[i + 1..end] == s[1..end - i];
      return Some(CopyVar(index(source[i + 1..end]))), end + 1;
    }
    var end := ScanName(source, i);
    if end == i {
      return;
    }
    assert source[i..end] == s[..end - i];
    return Some(CopyVar(index(source[i..end]))), end;
  }

  /** Text followed by the pending zero if the text ends the source. */
  function Terminated(text: seq<byte>, zero: bool): seq<byte> {
    if zero then text + [NUL] else text
  }

  lemma {:induction false} OctetsConcat(a: seq<byte>, b: seq<byte>)
    ensures Octets(a + b) == Octets(a) + Octets(b)
    decreases |a|
  {
    if a == [] {
      assert [] + b == b;
    } else {
      assert (a + b)[1..] == a[1..] + b;
      OctetsConcat(a[1..], b);
    }
  }

  /** What the code arrays hold when the source up to offset i, which spells `pieces`, has been compiled.
    * The terminating zero has been emitted if it is no longer pending; only the final literal does that. */
  ghost predicate Compiled(source: seq<byte>, i: nat, index: seq<byte> -> nat, p: Program,
                           zero: bool, pending: bool, pieces: seq<Piece>) {
    && i <= |source| && InStep(p)
    && (pending ==> zero) && (zero && !pending ==> i == |source|)
    && Parse(source, index) == After(pieces, Parse(source[i..], index))
    && Pieces(p.values) == pieces + Zero(zero && !pending)
    && p.flushes == VariablesOf(pieces)
  }

  function Zero(zero: bool): seq<Piece> {
    if zero then [Octet(NUL)] else []
  }

  /** Indices of the variables, in order of appearance. */
  function VariablesOf(pieces: seq<Piece>): seq<nat> {
    if pieces == [] then []
    else
      var p := pieces[|pieces| - 1];
      VariablesOf(pieces[..|pieces| - 1]) + if p.Variable? then [p.index] else []
  }

  lemma VariablesSnoc(pieces: seq<Piece>, p: Piece)
    ensures VariablesOf(pieces + [p]) == VariablesOf(pieces) + if p.Variable? then [p.index] else []
  {
    assert (pieces + [p])[..|pieces|] == pieces;
  }

  lemma {:induction false} VariablesOfText(pieces: seq<Piece>, text: seq<byte>)
    ensures VariablesOf(pieces + Octets(text)) == VariablesOf(pieces)
    decreases |text|
  {
    if text == [] {
      assert pieces + [] == pieces;
    } else {
      var init, b := text[..|text| - 1], text[|text| - 1];
      assert init + [b] == text;
      OctetsSnoc(init, b);
      assert pieces + (Octets(init) + [Octet(b)]) == (pieces + Octets(init)) + [Octet(b)];
      VariablesSnoc(pieces + Octets(init), Octet(b));
      VariablesOfText(pieces, init);
    }
  }

  lemma TerminatedPieces(pieces: seq<Piece>, text: seq<byte>, last: bool)
    ensures pieces + Octets(Terminated(text, last)) == (pieces + Octets(text)) + Zero(last)
  {
    OctetsConcat(text, [NUL]);
    assert Octets([NUL]) == [Octet(NUL)];
    assert pieces + (Octets(text) + Zero(last)) == (pieces + Octets(text)) + Zero(last);
    assert Octets(text) + [] == Octets(text);
  }

  lemma CompiledLiteral(source: seq<byte>, i: nat, next: nat, index: seq<byte> -> nat, p: Program, zero: bool,
                        pieces: seq<Piece>)
    requires i < next <= |source| && Compiled(source, i, index, p, zero, zero, pieces)
    requires Parse(source[i..], index) == After(Octets(source[i..next]), Parse(source[next..], index))
    ensures var last := zero && next == |source|;
      Compiled(source, next, index, Append(p, CopyText(Terminated(source[i..next], last))), zero, zero && !last,
               pieces + Octets(source[i..next]))
  {
    var last, text := zero && next == |source|, source[i..next];
    AppendKeepsStep(p, CopyText(Terminated(text, last)));
    TerminatedPieces(pieces, text, last);
    VariablesOfText(pieces, text);
    AfterAfter(pieces, Octets(text), Parse(source[next..], index));
    assert pieces + Zero(false) == pieces;
  }

  lemma AfterAfter(a: seq<Piece>, b: seq<Piece>, rest: Option<seq<Piece>>)
    ensures After(a, After(b, rest)) == After(a + b, rest)
  {
    if rest.Some? {
      assert a + (b + rest.value) == a + b + rest.value;
    }
  }

  lemma CompiledReference(source: seq<byte>, i: nat, index: seq<byte> -> nat, p: Program, zero: bool, pieces: seq<Piece>,
                          c: ValueCode, r: Reference)
    requires i < |source| && source[i] == DOLLAR && Compiled(source, i, index, p, zero, zero, pieces)
    requires ReadReference(source[i + 1..], index) == Some(r) && PiecesOf(c) == [r.piece] && !c.CopyText?
    ensures Compiled(source, i + 1 + r.width, index, Append(p, c), zero, zero, pieces + [r.piece])
  {
    DropOne(source, i);
    assert source[i..][1 + r.width..] == source[i + 1 + r.width..];
    AppendKeepsStep(p, c);
    AfterPrepend(pieces, r.piece, Parse(source[i + 1 + r.width..], index));
    VariablesSnoc(pieces, r.piece);
    assert pieces + Zero(false) == pieces && (pieces + [r.piece]) + Zero(false) == pieces + [r.piece];
  }

  lemma RejectedReference(source: seq<byte>, i: nat, index: seq<byte> -> nat, p: Program, zero: bool, pieces: seq<Piece>)
    requires i < |source| && source[i] == DOLLAR && Compiled(source, i, index, p, zero, zero, pieces)
    requires ReadReference(source[i + 1..], index) == None
    ensures Parse(source, index) == None
  {
    DropOne(source, i);
  }

  method CompileDollar(source: seq<byte>, i: nat, index: seq<byte> -> nat, p: Program, ghost zero: bool, ghost pieces: seq<Piece>)
    returns (ok: bool, p': Program, i': nat, ghost pieces': seq<Piece>)
    requires i < |source| && source[i] == DOLLAR && Compiled(source, i, index, p, zero, zero, pieces)
    ensures !ok ==> Parse(source, index) == None
    ensures ok ==> i < i' && Compiled(source, i', index, p', zero, zero, pieces')
  {
    p', i', pieces' := p, i, pieces;
    var c, next := CompileReference(source, i + 1, index);
    ok := c.Some?;
    if !ok {
      RejectedReference(source, i, index, p, zero, pieces);
      return;
    }
    ghost var ref := ReadReference(source[i + 1..], index).value;
    CompiledReference(source, i, index, p, zero, pieces, c.value, ref);
    p', i', pieces' := Append(p, c.value), next, pieces + [ref.piece];
  }

  method CompileText(source: seq<byte>, i: nat, index: seq<byte> -> nat, p: Program, zero: bool, ghost pieces: seq<Piece>)
    returns (p': Program, i': nat, pending: bool, ghost pieces': seq<Piece>)
    requires i < |source| && source[i] != DOLLAR && Compiled(source, i, index, p, zero, zero, pieces)
    ensures i < i' && Compiled(source, i', index, p', zero, pending, pieces')
  {
    i' := ScanLiteral(source, i, index);
    var last := zero && i' == |source|;
    CompiledLiteral(source, i, i', index, p, zero, pieces);
    p' := Append(p, CopyText(Terminated(source[i..i'], last)));
    pieces', pending := pieces + Octets(source[i..i']), zero && !last;
  }

  /** ngx_http_script_compile and _done with compile_args and the prefix flags off: it accepts exactly the
    * well-formed sources, and the programs stand for the source's pieces plus a zero if one was asked for. */
  method Compile(source: seq<byte>, index: seq<byte> -> nat, zero: bool) returns (r: Option<Program>)
    ensures r.Some? <==> Parse(source, index).Some?
    ensures r.Some? ==> InStep(r.value)
    ensures r.Some? ==> Pieces(r.value.values) == Parse(source, index).value + Zero(zero)
    ensures r.Some? ==> r.value.flushes == VariablesOf(Parse(source, index).value)
  {
    var p, pending := Program([], [], []), zero;
    var i := 0;
    ghost var pieces: seq<Piece> := [];
    CompiledNothing(source, index, zero);
    while i < |source|
      invariant Compiled(source, i, index, p, zero, pending, pieces)
      decreases |source| - i
    {
      if source[i] == DOLLAR {
        var ok;
        ok, p, i, pieces := CompileDollar(source, i, index, p, zero, pieces);
        if !ok {
          return None;
        }
      } else {
        p, i, pending, pieces := CompileText(source, i, index, p, zero, pieces);
      }
    }
    CompiledEnd(source, index, p, zero, pending, pieces);
    if pending {
      AppendKeepsStep(p, CopyText([NUL]));
      p := Append(p, CopyText([NUL]));
    }
    r := Some(p);
  }

  lemma CompiledNothing(source: seq<byte>, index: seq<byte> -> nat, zero: bool)
    ensures Compiled(source, 0, index, Program([], [], []), zero, zero, [])
  {
    assert source[0..] == source;
    AfterNothing(Parse(source, index));
  }

  lemma CompiledEnd(source: seq<byte>, index: seq<byte> -> nat, p: Program, zero: bool, pending: bool, pieces: seq<Piece>)
    requires Compiled(source, |source|, index, p, zero, pending, pieces)
    ensures Parse(source, index) == Some(pieces)
    ensures PiecesOf(CopyText([NUL])) == Zero(true) && pieces + Zero(false) == pieces
  {
    assert source[|source|..] == [];
    assert pieces + [] == pieces;
    assert Octets([NUL]) == [Octet(NUL)];
  }

  // ---------------------------------------------------------------- evaluation

  class Request {
    const env: Env
    var req: Req

    constructor (env: Env, slots: seq<Slot>)
      ensures this.env == env && req == Req(slots, 0)
    {
      this.env := env;
      req := Req(slots, 0);
    }

    /** ngx_http_get_indexed_variable */
    method GetIndexedVariable(i: nat) returns (v: Option<Slot>)
      modifies this
      ensures (req, v) == GetIndexed(env, old(req), i)
    {
      if i >= |req.slots| {
        return None;
      }
      if req.slots[i].Settled() {
        return Some(req.slots[i]);
      }
      var a := env.handlers(i, req.tick);
      if a.ok {
        var slot := a.slot;
        if env.noCacheable(i) {
          slot := slot.(noCacheable := true);
        }
        req := Req(req.slots[i := slot], req.tick + 1);
        return Some(slot);
      }
      req := Req(req.slots[i := a.slot.(valid := false, notFound := true)], req.tick + 1);
      return None;
    }

    /** ngx_http_script_flush_complex_value */
    method FlushVariables(flushes: seq<nat>)
      modifies this
      ensures req == Flush(old(req), flushes)
    {
      var k := 0;
      assert flushes[0..] == flushes;
      while k < |flushes|
        invariant 0 <= k <= |flushes|
        invariant Flush(req, flushes[k..]) == Flush(old(req), flushes)
      {
        var i := flushes[k];
        assert flushes[k..][1..] == flushes[k + 1..];
        if i < |req.slots| && req.slots[i].noCacheable {
          req := req.(slots := req.slots[i := req.slots[i].(valid := false, notFound := false)]);
        }
        k := k + 1;
      }
    }

    /** The length pass of ngx_http_complex_value. */
    method Measure(codes: seq<LengthCode>) returns (len: nat)
      modifies this
      ensures (req, len) == RunLengths(env, old(req), codes)
    {
      len := 0;
      var ip := 0;
      assert codes[0..] == codes;
      while ip < |codes|
        invariant 0 <= ip <= |codes|
        invariant RunLengths(env, old(req), codes) ==
          (RunLengths(env, req, codes[ip..]).0, len + RunLengths(env, req, codes[ip..]).1)
      {
        assert codes[ip..][1..] == codes[ip + 1..];
        match codes[ip] {
          case TextLen(n) => len := len + n;
          case VarLen(i) =>
            var v := GetIndexedVariable(i);
            len := len + |ValueOf(v)|;
          case CaptureLen(n) =>
            len := len + RunLength(env, req, CaptureLen(n)).1;
        }
        ip := ip + 1;
      }
    }

    /** One value opcode, up to the copy. */
    method Fetch(c: ValueCode) returns (text: seq<byte>)
      modifies this
      ensures (req, text) == RunValue(env, old(req), c)
    {
      match c {
        case CopyText(t) => text := t;
        case CopyVar(i) =>
          var v := GetIndexedVariable(i);
          text := ValueOf(v);
        case CopyCapture(n) => text := CaptureOf(env, n);
      }
    }

    /** The value pass: every opcode writes at e->pos, and the code checks no bound. */
    method Write(codes: seq<ValueCode>, buf: array<byte>) returns (pos: nat)
      requires |RunValues(env, req, codes).1| <= buf.Length
      modifies this, buf
      ensures req == RunValues(env, old(req), codes).0
      ensures pos <= buf.Length && buf[..pos] == RunValues(env, old(req), codes).1
    {
      pos := 0;
      var ip := 0;
      ghost var end, out := RunValues(env, req, codes).0, RunValues(env, req, codes).1;
      assert codes[0..] == codes && buf[..0] + out == out;
      while ip < |codes|
        invariant 0 <= ip <= |codes| && pos <= buf.Length && |out| <= buf.Length
        invariant RunValues(env, req, codes[ip..]).0 == end
        invariant buf[..pos] + RunValues(env, req, codes[ip..]).1 == out
      {
        RunOneMore(env, req, codes, ip, buf[..pos]);
        var text := Fetch(codes[ip]);
        pos := Copy(buf, pos, text);
        ip := ip + 1;
      }
    }
  }

  lemma RunOneMore(env: Env, r: Req, codes: seq<ValueCode>, ip: nat, written: seq<byte>)
    requires ip < |codes|
    ensures var (r', text) := RunValue(env, r, codes[ip]);
      && RunValues(env, r, codes[ip..]).0 == RunValues(env, r', codes[ip + 1..]).0
      && RunValues(env, r, codes[ip..]).1 == text + RunValues(env, r', codes[ip + 1..]).1
      && written + RunValues(env, r, codes[ip..]).1 == (written + text) + RunValues(env, r', codes[ip + 1..]).1
  {
    assert codes[ip..][1..] == codes[ip + 1..];
    var (r', text) := RunValue(env, r, codes[ip]);
    assert written + (text + RunValues(env, r', codes[ip + 1..]).1) == (written + text) + RunValues(env, r', codes[ip + 1..]).1;
  }

  /** ngx_copy at e->pos. */
  method Copy(buf: array<byte>, pos: nat, text: seq<byte>) returns (pos': nat)
    requires pos + |text| <= buf.Length
    modifies buf
    ensures pos' == pos + |text| && buf[..pos'] == old(buf[..pos]) + text
  {
    var k := 0;
    while k < |text|
      invariant 0 <= k <= |text|
      invariant buf[..pos + k] == old(buf[..pos]) + text[..k]
    {
      buf[pos + k] := text[k];
      k := k + 1;
      assert buf[..pos + k] == old(buf[..pos]) + text[..k];
    }
    pos' := pos + |text|;
    assert text[..|text|] == text;
  }

  /** The value of a template for a request: what direct interpolation of its source yields. */
  function Meaning(env: Env, r: Req, pieces: seq<Piece>, zero: bool): (Req, seq<byte>) {
    Interpolate(env, Flush(r, VariablesOf(pieces)), pieces + Zero(zero))
  }

  /** For every program and request, the second pass asks no handler and leaves the request alone if and only
    * if the length pass left every slot of the program's variables settled. */
  lemma SecondPassIsSilentIff(env: Env, r: Req, p: Program)
    requires InStep(p)
    ensures var r' := RunLengths(env, r, p.lengths).0;
      RunValues(env, r', p.values).0 == r' <==>
      forall i: nat | CopyVar(i) in p.values && i < |r'.slots| :: r'.slots[i].Settled()
  {
    var r' := RunLengths(env, r, p.lengths).0;
    RunIsSilentIff(env, r', p.values);
    if forall i: nat | CopyVar(i) in p.values && i < |r'.slots| :: r'.slots[i].Settled() {
      forall c | c in p.values
        ensures SettledFor(r', c)
      {
        if c.CopyVar? {
          assert CopyVar(c.index) in p.values;
        }
      }
    } else {
      var i: nat :| CopyVar(i) in p.values && i < |r'.slots| && !r'.slots[i].Settled();
      assert !SettledFor(r', CopyVar(i));
    }
  }

  /** The theorem behind the two passes: the first returns exactly the number of octets the second writes,
    * and both agree with direct interpolation. */
  lemma PassesAgree(env: Env, r: Req, p: Program, pieces: seq<Piece>)
    requires DecidedAlong(env, r, p.values) && InStep(p) && Pieces(p.values) == pieces
    ensures var (r', len) := RunLengths(env, r, p.lengths);
      && (r', len) == (Interpolate(env, r, pieces).0, |Interpolate(env, r, pieces).1|)
      && RunValues(env, r', p.values) == (r', Interpolate(env, r, pieces).1)
  {
    LengthsMeasure(env, r, p.values);
    ValuesInterpolate(env, r, p.values);
    SecondPassRepeats(env, r, p.values, RunValues(env, r, p.values).0);
  }

  /** ngx_http_complex_value on a compiled template: flush, measure, allocate exactly that much, write. */
  method ComplexValue(r: Request, p: Program, ghost source: seq<byte>, ghost index: seq<byte> -> nat, ghost zero: bool)
    returns (buf: array<byte>)
    requires DecidedAlong(r.env, Flush(r.req, p.flushes), p.values) && InStep(p) && Parse(source, index).Some?
    requires Pieces(p.values) == Parse(source, index).value + Zero(zero)
    requires p.flushes == VariablesOf(Parse(source, index).value)
    modifies r
    ensures fresh(buf)
    ensures (r.req, buf[..]) == Meaning(r.env, old(r.req), Parse(source, index).value, zero)
  {
    r.FlushVariables(p.flushes);
    PassesAgree(r.env, r.req, p, Pieces(p.values));
    var len := r.Measure(p.lengths);
    buf := new byte[len];
    var pos := r.Write(p.values, buf);
    assert buf[..pos] == buf[..];
  }

  /** The assumption on handlers is needed: one that returns NGX_OK without deciding is asked again in the
    * second pass, and then more octets are written than were measured. */
  lemma UndecidedHandlerDisagrees(env: Env, r: Req)
    requires |r.slots| == 1 && !r.slots[0].Settled()
    requires !env.noCacheable(0)
    requires env.handlers(0, r.tick) == Answer(true, Slot(false, false, false, []))
    requires env.handlers(0, r.tick + 1) == Answer(true, Slot(true, false, false, [ONE]))
    ensures var (r', len) := RunLengths(env, r, [VarLen(0)]);
      len == 0 && RunValues(env, r', [CopyVar(0)]).1 == [ONE]
  {
    assert [VarLen(0)][1..] == [] && [CopyVar(0)][1..] == [];
    var (r', _) := RunLengths(env, r, [VarLen(0)]);
    assert r' == Req(r.slots[0 := Slot(false, false, false, [])], r.tick + 1);
    assert [ONE] + [] == [ONE];
  }

  // ---------------------------------------------------------------- what captures and a flush are

  /** $n is the n-th captured span, octet by octet, and empty if there is none. */
  lemma CaptureIsItsSpan(env: Env, n: nat)
    ensures n >= |env.spans| ==> CaptureOf(env, n) == []
    ensures n < |env.spans| && env.spans[n].0 <= env.spans[n].1 <= |env.captured| ==>
      && |CaptureOf(env, n)| == env.spans[n].1 - env.spans[n].0
      && forall k | 0 <= k < |CaptureOf(env, n)| :: CaptureOf(env, n)[k] == env.captured[env.spans[n].0 + k]
  {
  }

  /** A flush takes both flags from exactly the listed slots that are not cacheable. */
  lemma {:induction false} FlushUnsettles(r: Req, flushes: seq<nat>)
    ensures var t := Flush(r, flushes);
      && t.tick == r.tick && |t.slots| == |r.slots|
      && forall i: nat | i < |r.slots| :: t.slots[i] ==
           if i in flushes && r.slots[i].noCacheable then r.slots[i].(valid := false, notFound := false) else r.slots[i]
    decreases |flushes|
  {
    if flushes != [] {
      var i := flushes[0];
      var r' := if i < |r.slots| && r.slots[i].noCacheable
        then r.(slots := r.slots[i := r.slots[i].(valid := false, notFound := false)]) else r;
      FlushUnsettles(r', flushes[1..]);
      assert flushes == [i] + flushes[1..];
    }
  }
}
