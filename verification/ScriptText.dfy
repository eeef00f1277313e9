/** Which sources are templates, and of what (src/http/ngx_http_script.c): a grammar of tokens beside the parser of
  * module Script. */
module ScriptText {
  import opened Bytes
  import opened Script

  /** A literal octet, $name, ${name} or $1..$9. */
  datatype Token = Plain(b: byte) | Bare(name: seq<byte>) | Braced(name: seq<byte>) | Numbered(n: nat)

  predicate IsName(s: seq<byte>) {
    s != [] && forall i | 0 <= i < |s| :: IsNameOctet(s[i])
  }

  /** A bare name does not start with a digit that would be a capture. */
  predicate TokenOk(t: Token) {
    match t
    case Plain(b) => b != DOLLAR
    case Bare(name) => IsName(name) && !(ONE <= name[0] <= NINE)
    case Braced(name) => IsName(name)
    case Numbered(n) => 1 <= n <= 9
  }

  function Spelling(t: Token): (s: seq<byte>)
    requires TokenOk(t)
    ensures s != []
  {
    match t
    case Plain(b) => [b]
    case Bare(name) => [DOLLAR] + name
    case Braced(name) => [DOLLAR, LOWER_BRACE] + name + [CLOSING_BRACE]
    case Numbered(n) => [DOLLAR, ZERO + n]
  }

  /** Nothing that follows a bare name could belong to it. */
  predicate Separate(t: Token, rest: seq<byte>) {
    t.Bare? && rest != [] ==> !IsNameOctet(rest[0])
  }

  predicate AllOk(ts: seq<Token>) {
    if ts == [] then true
    else TokenOk(ts[0]) && AllOk(ts[1..]) && Separate(ts[0], Text(ts[1..]))
  }

  function Text(ts: seq<Token>): seq<byte> {
    if ts == [] then [] else (if TokenOk(ts[0]) then Spelling(ts[0]) else []) + Text(ts[1..])
  }

  function Meaning(t: Token, index: seq<byte> -> nat): Piece {
    match t
    case Plain(b) => Octet(b)
    case Bare(name) => Variable(index(name))
    case Braced(name) => Variable(index(name))
    case Numbered(n) => Capture(n)
  }

  function Meanings(ts: seq<Token>, index: seq<byte> -> nat): (r: seq<Piece>)
    ensures |r| == |ts| && forall i | 0 <= i < |ts| :: r[i] == Meaning(ts[i], index)
  {
    seq(|ts|, i requires 0 <= i < |ts| => Meaning(ts[i], index))
  }

  lemma {:induction false} NameEnds(name: seq<byte>, rest: seq<byte>)
    requires forall i | 0 <= i < |name| :: IsNameOctet(name[i])
    requires rest != [] ==> !IsNameOctet(rest[0])
    ensures NameLength(name + rest) == |name|
    decreases |name|
  {
    if name != [] {
      assert (name + rest)[1..] == name[1..] + rest;
      NameEnds(name[1..], rest);
    } else {
      assert name + rest == rest;
    }
  }

  lemma BareIsRead(name: seq<byte>, rest: seq<byte>, index: seq<byte> -> nat)
    requires TokenOk(Bare(name)) && Separate(Bare(name), rest)
    ensures ReadReference(name + rest, index) == Some(Reference(Variable(index(name)), |name|))
  {
    NameEnds(name, rest);
    assert (name + rest)[..|name|] == name && (name + rest)[0] == name[0];
  }

  lemma BracedIsRead(name: seq<byte>, rest: seq<byte>, index: seq<byte> -> nat)
    requires IsName(name)
    ensures ReadReference([LOWER_BRACE] + name + [CLOSING_BRACE] + rest, index) ==
      Some(Reference(Variable(index(name)), |name| + 2))
  {
    var more := [CLOSING_BRACE] + rest;
    var s := [LOWER_BRACE] + name + [CLOSING_BRACE] + rest;
    NameEnds(name, more);
    assert s[1..] == name + more && s[1..1 + |name|] == name;
  }

  /** What follows the dollar sign of a token. */
  lemma TailIsRead(t: Token, rest: seq<byte>, index: seq<byte> -> nat)
    requires TokenOk(t) && Separate(t, rest) && !t.Plain?
    ensures ReadReference(Spelling(t)[1..] + rest, index) == Some(Reference(Meaning(t, index), |Spelling(t)| - 1))
  {
    match t
    case Numbered(n) =>
    case Bare(name) =>
      BareIsRead(name, rest, index);
      assert Spelling(t)[1..] == name;
    case Braced(name) =>
      BracedIsRead(name, rest, index);
      assert Spelling(t)[1..] == [LOWER_BRACE] + name + [CLOSING_BRACE];
  }

  /** One token in front of a source. */
  lemma TokenIsRead(t: Token, rest: seq<byte>, index: seq<byte> -> nat)
    requires TokenOk(t) && Separate(t, rest)
    ensures Parse(Spelling(t) + rest, index) == Prepend(Meaning(t, index), Parse(rest, index))
  {
    var s := Spelling(t) + rest;
    if t.Plain? {
      assert s[1..] == rest;
    } else {
      assert s[1..] == Spelling(t)[1..] + rest;
      TailIsRead(t, rest, index);
      ReferenceGoes(s, index, Reference(Meaning(t, index), |Spelling(t)| - 1));
      assert s[|Spelling(t)|..] == rest;
    }
  }

  lemma ReferenceGoes(s: seq<byte>, index: seq<byte> -> nat, r: Reference)
    requires s != [] && s[0] == DOLLAR && ReadReference(s[1..], index) == Some(r)
    ensures 1 + r.width <= |s| && Parse(s, index) == Prepend(r.piece, Parse(s[1 + r.width..], index))
  {
  }

  /** What well-formed tokens spell is parsed into what they mean. */
  lemma {:induction false} SpeltIsParsed(ts: seq<Token>, index: seq<byte> -> nat)
    requires AllOk(ts)
    ensures Parse(Text(ts), index) == Some(Meanings(ts, index))
    decreases |ts|
  {
    if ts != [] {
      SpeltIsParsed(ts[1..], index);
      TokenIsRead(ts[0], Text(ts[1..]), index);
      assert [Meaning(ts[0], index)] + Meanings(ts[1..], index) == Meanings(ts, index);
    }
  }

  /** The token behind a dollar sign that the parser accepts. */
  lemma ReferenceIsToken(s: seq<byte>, index: seq<byte> -> nat) returns (t: Token)
    requires s != [] && s[0] == DOLLAR && ReadReference(s[1..], index).Some?
    ensures var w := 1 + ReadReference(s[1..], index).value.width;
      TokenOk(t) && w <= |s| && Spelling(t) == s[..w] && Separate(t, s[w..])
  {
    var r := s[1..];
    if ONE <= r[0] <= NINE {
      t := Numbered(r[0] - ZERO);
    } else if r[0] == LOWER_BRACE {
      var n := NameLength(r[1..]);
      t := Braced(r[1..1 + n]);
      assert r[1..1 + n] == r[1..][..n];
      assert s[..1 + (n + 2)] == [DOLLAR, LOWER_BRACE] + r[1..1 + n] + [CLOSING_BRACE];
    } else {
      var n := NameLength(r);
      t := Bare(r[..n]);
      assert s[..1 + n] == [DOLLAR] + r[..n];
      if 1 + n < |s| {
        assert s[1 + n..][0] == r[n];
      }
    }
  }

  lemma OneMore(t: Token, more: seq<Token>)
    requires TokenOk(t) && AllOk(more) && Separate(t, Text(more))
    ensures AllOk([t] + more) && Text([t] + more) == Spelling(t) + Text(more)
  {
    assert ([t] + more)[1..] == more;
  }

  /** The first token of what is parsed. */
  lemma FirstToken(s: seq<byte>, index: seq<byte> -> nat) returns (t: Token, w: nat)
    requires s != [] && Parse(s, index).Some?
    ensures TokenOk(t) && 0 < w <= |s| && Spelling(t) == s[..w] && Separate(t, s[w..]) && Parse(s[w..], index).Some?
  {
    if s[0] != DOLLAR {
      t, w := Plain(s[0]), 1;
    } else {
      t := ReferenceIsToken(s, index);
      w := 1 + ReadReference(s[1..], index).value.width;
    }
  }

  /** Whatever is parsed, well-formed tokens spell it. */
  lemma {:induction false} ParsedIsSpelt(s: seq<byte>, index: seq<byte> -> nat) returns (ts: seq<Token>)
    requires Parse(s, index).Some?
    ensures AllOk(ts) && Text(ts) == s
    decreases |s|
  {
    ts := [];
    if s != [] {
      var t, w := FirstToken(s, index);
      var more := ParsedIsSpelt(s[w..], index);
      OneMore(t, more);
      ts := [t] + more;
      assert s == s[..w] + s[w..];
    }
  }

  /** A source is a template if and only if well-formed tokens spell it. */
  lemma TemplatesAreSpelt(s: seq<byte>, index: seq<byte> -> nat)
    ensures Parse(s, index).Some? <==> exists ts :: AllOk(ts) && Text(ts) == s
  {
    if Parse(s, index).Some? {
      var ts := ParsedIsSpelt(s, index);
    } else if ts :| AllOk(ts) && Text(ts) == s {
      SpeltIsParsed(ts, index);
    }
  }
}
