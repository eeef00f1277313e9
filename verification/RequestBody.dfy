/** Reading a client request body (src/http/ngx_http_request_body.c) into memory buffers and a temporary file.
  *
  * A buffer in memory is the bytes between pos and last, and the room between last and end; the buffer being
  * filled is always the last of the chain.  What recv() answers and how much the disk takes are given from outside;
  * a write is complete or fails, as ngx_write_chain_to_file makes sure.
  */
module RequestBody {
  import opened Bytes

  type Text = seq<byte>

  datatype Buf = Mem(data: Text, room: nat) | InFile(last: nat)

  /** What is fixed when reading starts: the length announced, the bytes that came with the header and the room
    * behind them, client_body_buffer_size and the two request flags. */
  datatype Config = Config(
    length: int, preread: Text, headerRoom: nat, bufferSize: nat, fileOnly: bool, singleBuf: bool)

  /** ngx_http_request_body_t; `file` is what the temporary file holds, if there is one. */
  datatype Body = Body(bufs: seq<Buf>, toWrite: nat, rest: nat, file: Option<Text>)

  // ---------------------------------------------------------------- what a state holds

  function Data(b: Buf): Text {
    if b.Mem? then b.data else []
  }

  /** The bytes of a chain of memory buffers. */
  function Joined(bufs: seq<Buf>): Text {
    if bufs == [] then [] else Data(bufs[0]) + Joined(bufs[1..])
  }

  function Filed(b: Body): Text {
    if b.file.Some? then b.file.value else []
  }

  /** What the caller finds in the chain, file parts included. */
  function Delivered(bufs: seq<Buf>, file: Text): Text {
    if bufs == [] then []
    else (if bufs[0].Mem? then bufs[0].data else if bufs[0].last <= |file| then file[..bufs[0].last] else file)
         + Delivered(bufs[1..], file)
  }

  /** Without the two flags the preread part stays in memory and out of the file. */
  predicate Split(c: Config) {
    !c.fileOnly && !c.singleBuf
  }

  /** Everything taken so far, in order. */
  function Held(c: Config, b: Body): Text
    requires b.toWrite <= |b.bufs|
  {
    (if Split(c) then Joined(b.bufs[..b.toWrite]) else []) + Filed(b) + Joined(b.bufs[b.toWrite..])
  }

  /** How much the body lacks after the preread part. */
  function Missing(c: Config): nat {
    if |c.preread| >= c.length then 0 else c.length - |c.preread|
  }

  /** A second buffer follows the preread one. */
  predicate TwoBuffers(c: Config) {
    && c.preread != [] && Missing(c) > c.headerRoom
    && !(c.singleBuf && Missing(c) < c.bufferSize + c.bufferSize / 4)
  }

  /** The preread part gets lost: a single buffer is asked for, the rest of the body fills the second buffer exactly
    * and so nothing was ever written to a file. */
  predicate Loses(c: Config) {
    && c.singleBuf && !c.fileOnly && c.preread != [] && |c.preread| < c.length
    && Missing(c) > c.headerRoom && Missing(c) == c.bufferSize && c.bufferSize < 4
  }

  /** The buffers, while part of the body is missing. */
  ghost predicate Arranged(c: Config, b: Body) {
    && |b.bufs| == (if TwoBuffers(c) then 2 else 1)
    && (forall i | 0 <= i < |b.bufs| :: b.bufs[i].Mem?)
    && (TwoBuffers(c) ==> b.bufs[0].data == c.preread)
    && (TwoBuffers(c) && Missing(c) >= c.bufferSize + c.bufferSize / 4 ==>
          |b.bufs[1].data| + b.bufs[1].room == c.bufferSize)
    && b.toWrite == (if Split(c) || b.file.Some? then |b.bufs| - 1 else 0)
    && (Loses(c) ==> b.file.None?)
  }

  /** Reading goes on: what is held is what was taken from the stream. */
  ghost predicate Reading(c: Config, b: Body, taken: Text) {
    && Arranged(c, b) && Held(c, b) == taken && |taken| + b.rest == c.length
    && c.length > |c.preread| && c.preread <= taken
  }

  // ---------------------------------------------------------------- steps

  lemma {:induction false} JoinedAppend(bufs: seq<Buf>, b: Buf)
    ensures Joined(bufs + [b]) == Joined(bufs) + Data(b)
    decreases |bufs|
  {
    if bufs != [] {
      assert (bufs + [b])[1..] == bufs[1..] + [b];
      JoinedAppend(bufs[1..], b);
    } else {
      assert (bufs + [b])[1..] == [];
    }
  }

  lemma JoinedOne(bufs: seq<Buf>)
    requires |bufs| == 1
    ensures Joined(bufs) == Data(bufs[0])
  {
    assert Joined(bufs[1..]) == [];
  }

  lemma JoinedTwo(bufs: seq<Buf>)
    requires |bufs| == 2
    ensures Joined(bufs) == Data(bufs[0]) + Data(bufs[1])
  {
    JoinedAppend([bufs[0]], bufs[1]);
    assert bufs == [bufs[0]] + [bufs[1]];
    assert Joined([bufs[0]]) == Data(bufs[0]) + Joined([bufs[0]][1..]);
  }

  function Last(b: Body): Buf
    requires b.bufs != []
  {
    b.bufs[|b.bufs| - 1]
  }

  function WithLast(b: Body, buf: Buf): Body
    requires b.bufs != []
  {
    b.(bufs := b.bufs[..|b.bufs| - 1] + [buf])
  }

  /** The held bytes end with those of the last buffer. */
  lemma HeldSplit(c: Config, b: Body)
    requires b.bufs != [] && b.toWrite < |b.bufs|
    ensures var n := |b.bufs| - 1;
      Held(c, b) == (if Split(c) then Joined(b.bufs[..b.toWrite]) else []) + Filed(b)
                    + Joined(b.bufs[b.toWrite..n]) + Data(Last(b))
  {
    var n := |b.bufs| - 1;
    assert b.bufs[b.toWrite..] == b.bufs[b.toWrite..n] + [Last(b)];
    JoinedAppend(b.bufs[b.toWrite..n], Last(b));
  }

  /** New bytes enter the last buffer. */
  function Receive(b: Body, bytes: Text): Body
    requires b.bufs != [] && Last(b).Mem? && |bytes| <= Last(b).room && |bytes| <= b.rest
  {
    WithLast(b, Mem(Last(b).data + bytes, Last(b).room - |bytes|)).(rest := b.rest - |bytes|)
  }

  lemma ReceiveKeeps(c: Config, b: Body, taken: Text, bytes: Text)
    requires Reading(c, b, taken) && |bytes| <= Last(b).room && |bytes| <= b.rest
    ensures Reading(c, Receive(b, bytes), taken + bytes)
  {
    ReceiveHeld(c, b, bytes);
    ReceiveArranged(c, b, bytes);
    assert c.preread <= taken + bytes;
  }

  lemma ReceiveArranged(c: Config, b: Body, bytes: Text)
    requires Arranged(c, b) && |bytes| <= Last(b).room && |bytes| <= b.rest
    ensures Arranged(c, Receive(b, bytes))
  {
  }

  lemma ReceiveHeld(c: Config, b: Body, bytes: Text)
    requires b.bufs != [] && b.toWrite < |b.bufs| && Last(b).Mem? && |bytes| <= Last(b).room && |bytes| <= b.rest
    ensures Held(c, Receive(b, bytes)) == Held(c, b) + bytes
  {
    var b' := Receive(b, bytes);
    var n := |b.bufs| - 1;
    HeldSplit(c, b);
    HeldSplit(c, b');
    assert b'.bufs[..b.toWrite] == b.bufs[..b.toWrite];
    assert b'.bufs[b.toWrite..n] == b.bufs[b.toWrite..n];
    Assoc((if Split(c) then Joined(b.bufs[..b.toWrite]) else []) + Filed(b) + Joined(b.bufs[b.toWrite..n]),
          Data(Last(b)), bytes);
  }

  lemma Assoc(x: Text, y: Text, z: Text)
    ensures x + (y + z) == (x + y) + z
  {
  }

  /** The chain from to_write on is appended to the file. */
  function Written(b: Body): Text
    requires b.toWrite <= |b.bufs|
  {
    Filed(b) + Joined(b.bufs[b.toWrite..])
  }

  /** A full buffer is written and reused. */
  function Spill(b: Body): Body
    requires b.bufs != [] && b.toWrite <= |b.bufs| && Last(b).Mem?
  {
    WithLast(b, Mem([], |Last(b).data| + Last(b).room)).(file := Some(Written(b)), toWrite := |b.bufs| - 1)
  }

  lemma SpillKeeps(c: Config, b: Body, taken: Text)
    requires Reading(c, b, taken) && Last(b).room == 0 && b.rest > 0
    ensures Reading(c, Spill(b), taken)
  {
    FullIsNotLost(c, b, taken);
    SpillHeld(c, b);
  }

  /** If the preread part is to be lost, the second buffer is not full before the end. */
  lemma FullIsNotLost(c: Config, b: Body, taken: Text)
    requires Reading(c, b, taken) && Last(b).room == 0 && b.rest > 0
    ensures !Loses(c)
  {
    if Loses(c) {
      assert b.bufs[0..] == b.bufs;
      JoinedTwo(b.bufs);
    }
  }

  /** After a spill only the file and what precedes it hold anything. */
  lemma SpiltHeld(c: Config, b: Body)
    requires b.bufs != [] && b.toWrite <= |b.bufs| && Last(b).Mem?
    ensures var n := |b.bufs| - 1;
      Held(c, Spill(b)) == (if Split(c) then Joined(b.bufs[..n]) else []) + Written(b)
  {
    var b', n, empty := Spill(b), |b.bufs| - 1, Mem([], |Last(b).data| + Last(b).room);
    assert b'.bufs[n..] == [empty] && b'.bufs[..n] == b.bufs[..n];
    JoinedOne([empty]);
    var held := (if Split(c) then Joined(b.bufs[..n]) else []) + Written(b);
    assert held + [] == held;
  }

  lemma SpillHeld(c: Config, b: Body)
    requires Arranged(c, b)
    ensures Held(c, Spill(b)) == Held(c, b)
  {
    var n := |b.bufs| - 1;
    SpiltHeld(c, b);
    if Split(c) {
      Assoc(Joined(b.bufs[..n]), Filed(b), Joined(b.bufs[n..]));
    }
  }

  /** The chain handed to the post handler. */
  function Complete(c: Config, b: Body): Body
    requires b.bufs != [] && b.toWrite <= |b.bufs|
  {
    var saved := if b.file.Some? || c.fileOnly
      then WithLast(b, InFile(|Written(b)|)).(file := Some(Written(b)))
      else b;
    if |saved.bufs| > 1 && (c.fileOnly || c.singleBuf) then saved.(bufs := saved.bufs[1..]) else saved
  }

  lemma {:induction false} DeliveredMemory(bufs: seq<Buf>, file: Text)
    requires forall i | 0 <= i < |bufs| :: bufs[i].Mem?
    ensures Delivered(bufs, file) == Joined(bufs)
    decreases |bufs|
  {
    if bufs != [] {
      DeliveredMemory(bufs[1..], file);
    }
  }

  lemma DeliveredFile(bufs: seq<Buf>, file: Text)
    requires |bufs| == 1 && bufs[0] == InFile(|file|)
    ensures Delivered(bufs, file) == file
  {
    assert Delivered(bufs[1..], file) == [];
    assert file[..|file|] == file;
  }

  lemma DeliveredBoth(bufs: seq<Buf>, file: Text)
    requires |bufs| == 2 && bufs[0].Mem? && bufs[1] == InFile(|file|)
    ensures Delivered(bufs, file) == bufs[0].data + file
  {
    DeliveredFile(bufs[1..], file);
  }

  /** Nothing went to a file, and with a single buffer asked for there are two: then the second was just large
    * enough for the rest of the body. */
  lemma LosesWhen(c: Config, b: Body, taken: Text)
    requires Reading(c, b, taken) && b.rest == 0 && b.file.None? && !c.fileOnly
    ensures Loses(c) <==> c.singleBuf && |b.bufs| == 2
  {
    if c.singleBuf && |b.bufs| == 2 {
      assert b.bufs[0..] == b.bufs;
      JoinedTwo(b.bufs);
      assert |b.bufs[1].data| == Missing(c);
    }
  }

  /** All of it has arrived: what the post handler finds is the body, except when the preread part is lost. */
  lemma CompleteDelivers(c: Config, b: Body, taken: Text)
    requires Reading(c, b, taken) && b.rest == 0
    ensures var done := Complete(c, b);
      Delivered(done.bufs, Filed(done)) == if Loses(c) then taken[|c.preread|..] else taken
  {
    if b.file.Some? || c.fileOnly {
      CompleteInFile(c, b);
    } else {
      CompleteInMemory(c, b, taken);
    }
  }

  lemma CompleteInFile(c: Config, b: Body)
    requires Arranged(c, b) && (b.file.Some? || c.fileOnly)
    ensures !Loses(c) && Delivered(Complete(c, b).bufs, Filed(Complete(c, b))) == Held(c, b)
  {
    if |b.bufs| == 2 && Split(c) {
      CompleteWithPreread(c, b);
    } else {
      CompleteAllInFile(c, b);
    }
  }

  /** The preread part in memory, the rest in the file. */
  lemma CompleteWithPreread(c: Config, b: Body)
    requires Arranged(c, b) && b.file.Some? && |b.bufs| == 2 && Split(c)
    ensures Delivered(Complete(c, b).bufs, Filed(Complete(c, b))) == Held(c, b)
  {
    var bufs, w := Complete(c, b).bufs, Written(b);
    assert bufs == [b.bufs[0], InFile(|w|)];
    DeliveredBoth(bufs, w);
    JoinedOne(b.bufs[..1]);
    Assoc(b.bufs[0].data, Filed(b), Joined(b.bufs[1..]));
  }

  lemma CompleteAllInFile(c: Config, b: Body)
    requires Arranged(c, b) && (b.file.Some? || c.fileOnly) && (|b.bufs| == 1 || !Split(c))
    ensures Delivered(Complete(c, b).bufs, Filed(Complete(c, b))) == Held(c, b)
  {
    var bufs, w := Complete(c, b).bufs, Written(b);
    assert bufs == [InFile(|w|)];
    DeliveredFile(bufs, w);
    assert Held(c, b) == w by {
      assert Split(c) ==> b.bufs[..0] == [];
    }
  }

  lemma CompleteInMemory(c: Config, b: Body, taken: Text)
    requires Reading(c, b, taken) && b.rest == 0 && b.file.None? && !c.fileOnly
    ensures Delivered(Complete(c, b).bufs, []) == if Loses(c) then taken[|c.preread|..] else taken
  {
    LosesWhen(c, b, taken);
    var done := Complete(c, b);
    DeliveredMemory(done.bufs, []);
    if |b.bufs| == 2 {
      JoinedTwo(b.bufs);
      JoinedOne(b.bufs[..1]);
      JoinedOne(b.bufs[1..]);
      assert b.bufs[0..] == b.bufs;
      assert taken == b.bufs[0].data + b.bufs[1].data;
      assert taken[|b.bufs[0].data|..] == b.bufs[1].data;
    } else {
      assert b.bufs[..0] == [] && b.bufs[0..] == b.bufs;
    }
  }

  /** What was taken and what is still to come make up the stream. */
  ghost predicate OnTrack(c: Config, b: Body, taken: Text, wire: Text, stream: Text) {
    Reading(c, b, taken) && taken + wire == stream
  }

  /** Taking bytes from the stream and filling the buffer with them is the same amount. */
  lemma TakeKeeps(c: Config, b: Body, taken: Text, wire: Text, stream: Text, got: nat)
    requires OnTrack(c, b, taken, wire, stream) && got <= |wire| && got <= b.rest && got <= Last(b).room
    ensures OnTrack(c, Receive(b, wire[..got]), taken + wire[..got], wire[got..], stream)
  {
    ReceiveKeeps(c, b, taken, wire[..got]);
    Advance(taken, wire, got);
  }

  lemma Advance(taken: Text, wire: Text, got: nat)
    requires got <= |wire|
    ensures (taken + wire[..got]) + wire[got..] == taken + wire
  {
  }

  lemma Cut(preread: Text, wire: Text, n: nat)
    requires n <= |preread|
    ensures (preread + wire)[..n] == preread[..n] && preread[n..] + wire == (preread + wire)[n..]
  {
  }

  // ---------------------------------------------------------------- the start

  /** What is arranged before the first recv(), when the preread part is not the whole body. */
  function Prepared(c: Config): Body
    requires |c.preread| < c.length
  {
    var rest := c.length - |c.preread|;
    if c.preread != [] && rest <= c.headerRoom then Body([Mem(c.preread, c.headerRoom)], 0, rest, None)
    else
      var small := rest < c.bufferSize + c.bufferSize / 4;
      var size := if small then rest else c.bufferSize;
      if c.preread == [] then Body([Mem([], size)], 0, rest, None)
      else if small && c.singleBuf then Body([Mem(c.preread, size)], 0, rest, None)
      else Body([Mem(c.preread, c.headerRoom), Mem([], size)], if Split(c) then 1 else 0, rest, None)
  }

  lemma PreparedReads(c: Config)
    requires |c.preread| < c.length
    ensures Reading(c, Prepared(c), c.preread)
  {
    var b := Prepared(c);
    if |b.bufs| == 2 {
      JoinedTwo(b.bufs);
      assert b.bufs[..1] == [b.bufs[0]] && b.bufs[1..] == [b.bufs[1]] && b.bufs[0..] == b.bufs;
      JoinedAppend([], b.bufs[0]);
      JoinedAppend([], b.bufs[1]);
    } else {
      assert b.bufs[..0] == [] && b.bufs[0..] == b.bufs == [] + [b.bufs[0]];
      JoinedAppend([], b.bufs[0]);
    }
  }

  // ---------------------------------------------------------------- the code

  /** What one recv() does; `ready` is the flag of the read event after it. */
  datatype Recv = Bytes(n: nat, ready: bool) | Blocked(ready: bool) | Failed

  datatype Rc = Ok | Again | BadRequest | InternalError

  // ---------------------------------------------------------------- what arrives, and when that ends

  /** Where a call starts: the room in the buffer being filled, its size, what the body lacks and what is to come. */
  datatype Start = Start(room: nat, size: nat, rest: nat, left: nat)

  function Min(x: nat, y: nat): nat {
    if x < y then x else y
  }

  /** How many bytes one recv() yields. */
  function Yield(e: Recv, room: nat, rest: nat, left: nat): nat {
    if e.Bytes? then Min(Min(e.n, room), Min(rest, left)) else 0
  }

  function Sum(parts: seq<nat>): nat {
    if parts == [] then 0 else Sum(parts[..|parts| - 1]) + parts[|parts| - 1]
  }

  /** A buffer without room is written and empty again. */
  function RoomAfter(f: Start, parts: seq<nat>): nat {
    if parts == [] then f.room
    else
      var room, n := RoomAfter(f, parts[..|parts| - 1]), parts[|parts| - 1];
      if room <= n then f.size else room - n
  }

  /** The i-th recv() yields what it can: as many bytes as it has, there is room for, the body lacks and are to come. */
  ghost predicate YieldedAt(f: Start, script: seq<Recv>, parts: seq<nat>, i: nat)
    requires i < |parts| <= |script|
  {
    var before := parts[..i];
    && Sum(before) <= f.rest && Sum(before) <= f.left
    && parts[i] == Yield(script[i], RoomAfter(f, before), f.rest - Sum(before), f.left - Sum(before))
  }

  /** The i-th recv() ends neither the body nor the call: it does not fail, yields something unless it would block, and
    * the connection is ready for more, or the buffer has just been filled. */
  ghost predicate GoesOn(f: Start, script: seq<Recv>, parts: seq<nat>, i: nat)
    requires i < |parts| <= |script|
  {
    match script[i]
    case Failed => false
    case Blocked(ready) => ready
    case Bytes(_, ready) =>
      0 < parts[i] < f.rest - Sum(parts[..i]) && (ready || parts[i] == RoomAfter(f, parts[..i]))
  }

  /** One recv() after the other, each of which but the last goes on. */
  ghost predicate Fed(f: Start, script: seq<Recv>, parts: seq<nat>) {
    && |parts| <= |script|
    && (forall i: nat | i < |parts| :: YieldedAt(f, script, parts, i))
    && (forall i: nat | i < |parts| - 1 :: GoesOn(f, script, parts, i))
  }

  /** All of them go on. */
  ghost predicate Open(f: Start, script: seq<Recv>, parts: seq<nat>) {
    Fed(f, script, parts) && (parts != [] ==> GoesOn(f, script, parts, |parts| - 1))
  }

  /** The last recv() broke the connection off: it failed, or it yielded nothing. */
  ghost predicate BreaksOff(f: Start, script: seq<Recv>, parts: seq<nat>) {
    && Fed(f, script, parts) && parts != []
    && (script[|parts| - 1].Failed? || (script[|parts| - 1].Bytes? && parts[|parts| - 1] == 0))
  }

  /** More is to come, but not now: the script is used up, or the connection is not ready. */
  ghost predicate Waits(f: Start, script: seq<Recv>, parts: seq<nat>) {
    && Fed(f, script, parts) && Sum(parts) < f.rest
    && ((|parts| == |script| && Open(f, script, parts))
        || (parts != [] && !Open(f, script, parts) && !BreaksOff(f, script, parts)))
  }

  /** The last recv() completed the body. */
  ghost predicate Completes(f: Start, script: seq<Recv>, parts: seq<nat>) {
    Fed(f, script, parts) && Sum(parts) == f.rest
  }

  /** An answer without bytes. */
  lemma NothingFed(f: Start, script: seq<Recv>, parts: seq<nat>)
    requires Open(f, script, parts) && |parts| < |script| && Sum(parts) < f.rest && Sum(parts) <= f.left
    requires !script[|parts|].Bytes? && f.room <= f.size && (f.room == 0 ==> f.size == 0)
    ensures var parts' := parts + [0];
      && Fed(f, script, parts') && Sum(parts') == Sum(parts) && RoomAfter(f, parts') == RoomAfter(f, parts)
      && if script[|parts|].Failed? then BreaksOff(f, script, parts')
         else if script[|parts|].ready then Open(f, script, parts') else Waits(f, script, parts')
  {
    FedMore(f, script, parts, 0);
    RoomIsBounded(f, parts);
  }

  ghost predicate Ends(f: Start, script: seq<Recv>, parts: seq<nat>) {
    Completes(f, script, parts) || Waits(f, script, parts) || BreaksOff(f, script, parts)
  }

  lemma SumSplits(parts: seq<nat>)
    requires parts != []
    ensures Sum(parts) == Sum(parts[..|parts| - 1]) + parts[|parts| - 1]
  {
  }

  /** A body is complete, or the connection broke off, or more is awaited, and never two of these; the last answer goes
    * on only if the script is used up. */
  lemma EndsExclude(f: Start, script: seq<Recv>, parts: seq<nat>)
    requires Ends(f, script, parts) && f.rest > 0
    ensures !(Completes(f, script, parts) && BreaksOff(f, script, parts))
    ensures !(Waits(f, script, parts) && (Completes(f, script, parts) || BreaksOff(f, script, parts)))
    ensures Open(f, script, parts) ==> |parts| == |script| && Waits(f, script, parts)
  {
    if parts != [] {
      var last := |parts| - 1;
      SumSplits(parts);
      assert YieldedAt(f, script, parts, last);
      if last > 0 {
        assert YieldedAt(f, script, parts, last - 1) && GoesOn(f, script, parts, last - 1);
        SumSplits(parts[..last]);
        assert parts[..last][..last - 1] == parts[..last - 1];
        assert Completes(f, script, parts) ==> parts[last] > 0 || Sum(parts[..last]) == f.rest;
        StillLacks(f, script, parts, last);
      }
    }
  }

  /** Whatever goes on leaves part of the body to come. */
  lemma {:induction false} StillLacks(f: Start, script: seq<Recv>, parts: seq<nat>, i: nat)
    requires Fed(f, script, parts) && i < |parts| && f.rest > 0
    ensures Sum(parts[..i]) < f.rest
    decreases i
  {
    if i > 0 {
      assert GoesOn(f, script, parts, i - 1) && YieldedAt(f, script, parts, i - 1);
      assert parts[..i][..i - 1] == parts[..i - 1];
      SumSplits(parts[..i]);
      StillLacks(f, script, parts, i - 1);
    }
  }

  lemma {:induction false} SameSoFar(f: Start, script: seq<Recv>, p: seq<nat>, q: seq<nat>, i: nat)
    requires Fed(f, script, p) && Fed(f, script, q) && i <= |p| && i <= |q|
    ensures p[..i] == q[..i]
    decreases i
  {
    if i > 0 {
      SameSoFar(f, script, p, q, i - 1);
      assert YieldedAt(f, script, p, i - 1) && YieldedAt(f, script, q, i - 1);
      assert p[..i] == p[..i - 1] + [p[i - 1]] && q[..i] == q[..i - 1] + [q[i - 1]];
    }
  }

  /** What arrives, and how it ends, is determined by the answers: there is one end only. */
  lemma EndIsUnique(f: Start, script: seq<Recv>, p: seq<nat>, q: seq<nat>)
    requires Ends(f, script, p) && Ends(f, script, q) && f.rest > 0
    ensures p == q
  {
    if |p| < |q| {
      LongerGoesOn(f, script, p, q);
    } else if |q| < |p| {
      LongerGoesOn(f, script, q, p);
    } else {
      SameSoFar(f, script, p, q, |p|);
      assert p[..|p|] == p && q[..|q|] == q;
    }
  }

  lemma LongerGoesOn(f: Start, script: seq<Recv>, p: seq<nat>, q: seq<nat>)
    requires Ends(f, script, p) && Ends(f, script, q) && f.rest > 0
    ensures |p| >= |q|
  {
    if |p| < |q| {
      SameSoFar(f, script, p, q, |p|);
      assert p == q[..|p|] by {
        assert p[..|p|] == p;
      }
      if p != [] {
        var last := |p| - 1;
        assert GoesOn(f, script, q, last) && q[..last] == p[..last];
        assert GoesOn(f, script, p, last);
      }
      EndsExclude(f, script, p);
    }
  }

  /** With memory in the buffer, the connection breaks off only if recv() fails or has nothing, or all was delivered. */
  lemma BreakIsHeard(f: Start, script: seq<Recv>, parts: seq<nat>)
    requires BreaksOff(f, script, parts) && f.rest > 0 && 0 < f.room <= f.size
    ensures var e := script[|parts| - 1]; e.Failed? || (e.Bytes? && e.n == 0) || Sum(parts) == f.left
  {
    var last := |parts| - 1;
    assert YieldedAt(f, script, parts, last);
    StillLacks(f, script, parts, last);
    RoomIsBounded(f, parts[..last]);
    SumSplits(parts);
  }

  /** The buffer has memory unless client_body_buffer_size is zero and the body does not fit behind the header. */
  lemma BufferHasMemory(c: Config, left: nat)
    requires |c.preread| < c.length
    ensures var f := StartAt(Prepared(c), left);
      && f.rest == c.length - |c.preread| && f.room <= f.size && (f.room == 0 <==> f.size == 0)
      && (f.size == 0 <==> c.bufferSize == 0 && !(c.preread != [] && c.length - |c.preread| <= c.headerRoom))
  {
  }

  /** Without any the first answer with bytes, whatever it holds, breaks the connection off. */
  lemma NoMemoryBreaksOff(c: Config, left: nat, script: seq<Recv>)
    requires |c.preread| < c.length && c.bufferSize == 0 && !(c.preread != [] && c.length - |c.preread| <= c.headerRoom)
    requires script != [] && script[0].Bytes?
    ensures BreaksOff(StartAt(Prepared(c), left), script, [0])
  {
    BufferHasMemory(c, left);
    assert [0][..0] == [];
  }

  /** Only a buffer without any memory has no room before a recv(). */
  lemma {:induction false} RoomIsBounded(f: Start, parts: seq<nat>)
    requires f.room <= f.size && (f.room == 0 ==> f.size == 0)
    ensures RoomAfter(f, parts) <= f.size && (RoomAfter(f, parts) == 0 ==> f.size == 0)
    decreases |parts|
  {
    if parts != [] {
      RoomIsBounded(f, parts[..|parts| - 1]);
    }
  }

  lemma TookMore(was: Text, ahead: Text, sum: nat, n: nat)
    requires sum + n <= |ahead|
    ensures was + ahead[..sum] + ahead[sum..][..n] == was + ahead[..sum + n] && ahead[sum..][n..] == ahead[sum + n..]
  {
  }

  /** A call on these buffers, with so much to come: the buffer being filled is emptied first if it is full. */
  function StartAt(b: Body, left: nat): Start {
    if b.bufs == [] || !Last(b).Mem? then Start(0, 0, b.rest, left)
    else
      var size := |Last(b).data| + Last(b).room;
      Start(if Last(b).room == 0 then size else Last(b).room, size, b.rest, left)
  }

  /** A call may as well start with the full buffer emptied. */
  lemma SpiltStarts(b: Body, left: nat)
    requires b.bufs != [] && b.toWrite <= |b.bufs| && Last(b).Mem? && Last(b).room == 0
    ensures StartAt(Spill(b), left) == StartAt(b, left) && Last(Spill(b)).room == StartAt(b, left).room
  {
  }

  lemma FedMore(f: Start, script: seq<Recv>, parts: seq<nat>, n: nat)
    requires Open(f, script, parts) && |parts| < |script| && Sum(parts) <= f.rest && Sum(parts) <= f.left
    requires n == Yield(script[|parts|], RoomAfter(f, parts), f.rest - Sum(parts), f.left - Sum(parts))
    ensures Fed(f, script, parts + [n]) && Sum(parts + [n]) == Sum(parts) + n
    ensures RoomAfter(f, parts + [n]) == if RoomAfter(f, parts) <= n then f.size else RoomAfter(f, parts) - n
    ensures parts == (parts + [n])[..|parts|]
  {
    var all := parts + [n];
    assert all[..|parts|] == parts;
    forall i: nat | i < |all|
      ensures YieldedAt(f, script, all, i)
    {
      if i < |parts| {
        assert YieldedAt(f, script, parts, i) && all[..i] == parts[..i];
      }
    }
    forall i: nat | i < |all| - 1
      ensures GoesOn(f, script, all, i)
    {
      assert GoesOn(f, script, parts, i) && all[..i] == parts[..i];
    }
  }

  /** The body within the stream of bytes that follow the header. */
  function BodyOf(c: Config, stream: Text): Text {
    if c.length <= 0 then [] else if c.length <= |stream| then stream[..c.length] else stream
  }

  class Reader {
    const c: Config
    ghost const stream: Text
    ghost var taken: Text
    var b: Body
    var header: Text     // what is left in the header buffer
    var wire: Text       // what the client has yet to deliver
    var space: nat       // how much the disk can take
    var called: bool     // the post handler has run

    constructor (c: Config, wire: Text, space: nat)
      ensures this.c == c && stream == c.preread + wire && Fresh()
    {
      this.c, this.wire, this.space := c, wire, space;
      stream := c.preread + wire;
      b, header, called := Body([], 0, 0, None), c.preread, false;
      taken := c.preread;
    }

    ghost predicate Fresh()
      reads this
    {
      stream == c.preread + wire && header == taken == c.preread && b == Body([], 0, 0, None) && !called
    }

    /** Between two calls: nothing of the stream is lost, and nothing past the body has been read. */
    ghost predicate InProgress()
      reads this
    {
      !called && header == [] && b.rest > 0 && OnTrack(c, b, taken, wire, stream)
    }

    /** The post handler has the body, and the bytes after the body are still where they were. */
    ghost predicate Finished()
      reads this
    {
      && called && header + wire == stream[|BodyOf(c, stream)|..] && c.length <= |stream|
      && Delivered(b.bufs, Filed(b)) == if Loses(c) then BodyOf(c, stream)[|c.preread|..] else BodyOf(c, stream)
    }

    /** ngx_http_write_request_body; the file is extended by the chain from to_write on. */
    method Write() returns (ok: bool)
      requires b.toWrite <= |b.bufs|
      modifies this`b, this`space
      ensures ok <==> |Joined(old(b).bufs[old(b).toWrite..])| <= old(space)
      ensures b == if ok then old(b).(file := Some(Written(old(b)))) else old(b)
      ensures space == if ok then old(space) - |Joined(old(b).bufs[old(b).toWrite..])| else old(space)
    {
      var bytes := Joined(b.bufs[b.toWrite..]);
      ok := |bytes| <= space;
      if ok {
        space := space - |bytes|;
        b := b.(file := Some((if b.file.Some? then b.file.value else []) + bytes));
      }
    }

    /** Where a call that starts now stands; a full buffer will have been emptied before the first recv(). */
    ghost function Begins(): Start
      reads this
    {
      StartAt(b, |wire|)
    }

    /** What is to be written is more than the disk takes. */
    ghost predicate DiskFull()
      reads this
    {
      b.toWrite <= |b.bufs| && |Joined(b.bufs[b.toWrite..])| > space
    }

    /** Make room in a full buffer. */
    method SpillIfFull() returns (ok: bool)
      requires InProgress()
      modifies this`b, this`space
      ensures ok ==> InProgress() && Begins() == old(Begins()) && Last(b).room == Begins().room
      ensures !ok ==> b == old(b) && DiskFull()
    {
      ok := true;
      if b.bufs[|b.bufs| - 1].room == 0 {
        SpillKeeps(c, b, taken);
        SpiltStarts(b, |wire|);
        ok := WriteAndReuse();
      }
    }

    /** The last buffer is written and empty again. */
    method WriteAndReuse() returns (ok: bool)
      requires 0 < |b.bufs| <= 2 && b.toWrite <= |b.bufs| && Last(b).Mem?
      modifies this`b, this`space
      ensures ok ==> b == Spill(old(b))
      ensures !ok ==> b == old(b) && DiskFull()
    {
      ok := Write();
      if ok {
        var n := |b.bufs| - 1;
        b := b.(toWrite := if n > 0 then 1 else 0);
        b := b.(bufs := b.bufs[..n] + [Mem([], |b.bufs[n].data| + b.bufs[n].room)]);
      }
    }

    /** recv() of at most n bytes into the buffer, not past the body. */
    method Take(n: nat) returns (got: nat)
      requires InProgress()
      modifies this`b, this`wire, this`taken
      ensures got == Min(Min(n, old(Last(b).room)), Min(old(b.rest), |old(wire)|))
      ensures b.rest == old(b.rest) - got && wire == old(wire)[got..] && taken == old(taken) + old(wire)[..got]
      ensures OnTrack(c, b, taken, wire, stream)
      ensures Last(b).room == old(Last(b).room) - got && |Last(b).data| == old(|Last(b).data|) + got
    {
      var buf := b.bufs[|b.bufs| - 1];
      var size := if buf.room > b.rest then b.rest else buf.room;
      got := if n < size then n else size;
      got := if |wire| < got then |wire| else got;
      TakeKeeps(c, b, taken, wire, stream, got);
      taken := taken + wire[..got];
      b, wire := Receive(b, wire[..got]), wire[got..];
    }

    ghost predicate Arrived()
      reads this
    {
      !called && header == [] && b.rest == 0 && OnTrack(c, b, taken, wire, stream)
    }

    /** Save the last part and arrange the chain. */
    method Arrange() returns (ok: bool)
      requires b.bufs != [] && b.toWrite <= |b.bufs|
      modifies this`b, this`space
      ensures ok ==> b == Complete(c, old(b))
      ensures !ok ==> b == old(b) && DiskFull()
    {
      ok := true;
      if b.file.Some? || c.fileOnly {
        ok := Write();
        if !ok {
          return;
        }
        b := b.(bufs := b.bufs[..|b.bufs| - 1] + [InFile(|b.file.value|)]);
      }
      if |b.bufs| > 1 && (c.fileOnly || c.singleBuf) {
        b := b.(bufs := b.bufs[1..]);
      }
    }

    /** The end of ngx_http_do_read_client_request_body. */
    method Finish() returns (rc: Rc)
      requires Arrived()
      modifies this`b, this`space, this`called
      ensures rc == Ok || (rc == InternalError && b == old(b) && DiskFull())
      ensures rc == Ok ==> Finished()
    {
      CompleteDelivers(c, b, taken);
      Cut(taken, wire, c.length);
      var ok := Arrange();
      if !ok {
        return InternalError;
      }
      called := true;
      assert header + wire == wire;
      return Ok;
    }

    /** What was taken since, and what the buffer has room for by now. */
    ghost predicate Took(f: Start, parts: seq<nat>, was: Text, ahead: Text)
      reads this
    {
      HasTaken(f, parts, was, ahead) && Sum(parts) <= f.rest && b.rest == f.rest - Sum(parts)
    }

    /** ... without what the buffers say, which the end of the body rearranges. */
    ghost predicate HasTaken(f: Start, parts: seq<nat>, was: Text, ahead: Text)
      reads this
    {
      Sum(parts) <= |ahead| == f.left && taken == was + ahead[..Sum(parts)] && wire == ahead[Sum(parts)..]
    }

    /** Why a call ends as it does. */
    ghost predicate EndedFor(rc: Rc, f: Start, script: seq<Recv>, parts: seq<nat>)
      reads this
    {
      match rc
      case Ok => Completes(f, script, parts)
      case Again => Waits(f, script, parts)
      case BadRequest => BreaksOff(f, script, parts)
      case InternalError => DiskFull() && (Completes(f, script, parts) || Open(f, script, parts))
    }

    /** Between two recv(): every one so far goes on. */
    ghost predicate Going(f: Start, script: seq<Recv>, parts: seq<nat>, was: Text, ahead: Text)
      reads this
    {
      && InProgress() && Open(f, script, parts) && Took(f, parts, was, ahead)
      && Begins().room == RoomAfter(f, parts) && Begins().size == f.size
      && f.room <= f.size && (f.room == 0 ==> f.size == 0)
    }

    /** One recv() that has bytes or the end of the connection. */
    method TakeNext(n: nat, ghost f: Start, ghost script: seq<Recv>, ghost parts: seq<nat>, ghost was: Text, ghost ahead: Text)
      returns (got: nat, ghost parts': seq<nat>)
      requires Going(f, script, parts, was, ahead) && Last(b).room == RoomAfter(f, parts)
      requires |parts| < |script| && script[|parts|].Bytes? && script[|parts|].n == n
      modifies this`b, this`wire, this`taken
      ensures |parts'| == |parts| + 1 && Took(f, parts', was, ahead) && OnTrack(c, b, taken, wire, stream)
      ensures if got == 0 then BreaksOff(f, script, parts') else b.rest == 0 ==> Completes(f, script, parts') && Arrived()
      ensures got > 0 && b.rest > 0 ==> InProgress() && Begins().room == RoomAfter(f, parts') && Begins().size == f.size
      ensures got > 0 && b.rest > 0 ==>
        if script[|parts|].ready || Last(b).room == 0 then Open(f, script, parts') else Waits(f, script, parts')
    {
      got := Take(n);
      FedMore(f, script, parts, got);
      TookMore(was, ahead, Sum(parts), got);
      parts' := parts + [got];
      assert Took(f, parts', was, ahead);
    }

    /** ... after which the body may be complete. */
    method TakeOrFinish(n: nat, ghost f: Start, ghost script: seq<Recv>, ghost parts: seq<nat>, ghost was: Text, ghost ahead: Text)
      returns (rc: Option<Rc>, ghost parts': seq<nat>)
      requires Going(f, script, parts, was, ahead) && Last(b).room == RoomAfter(f, parts)
      requires |parts| < |script| && script[|parts|].Bytes? && script[|parts|].n == n
      modifies this`b, this`wire, this`taken, this`space, this`called
      ensures |parts'| == |parts| + 1 && HasTaken(f, parts', was, ahead)
      ensures rc.Some? ==> EndedFor(rc.value, f, script, parts') && rc.value != Again && (rc.value == Ok ==> Finished())
      ensures rc.None? ==> InProgress()
      ensures rc.None? ==>
        if script[|parts|].ready || Last(b).room == 0 then Going(f, script, parts', was, ahead) else Waits(f, script, parts')
    {
      var got;
      got, parts' := TakeNext(n, f, script, parts, was, ahead);
      rc := None;
      if got == 0 {
        rc := Some(BadRequest);
      } else if b.rest == 0 {
        var done := Finish();
        rc := Some(done);
      }
    }

    /** One turn of the inner loop: the call ends, or the loop goes on (`again`), or it is left. */
    method Turn(script: seq<Recv>, i: nat, ghost f: Start, ghost parts: seq<nat>, ghost was: Text, ghost ahead: Text)
      returns (rc: Option<Rc>, again: bool, ready: bool, ghost parts': seq<nat>)
      requires i == |parts| <= |script| && Going(f, script, parts, was, ahead)
      modifies this`b, this`wire, this`taken, this`space, this`called
      ensures rc.Some? ==> EndedFor(rc.value, f, script, parts') && HasTaken(f, parts', was, ahead)
      ensures rc.Some? ==> (rc.value == Ok ==> Finished()) && (rc.value == Again ==> InProgress())
      ensures rc.None? ==> i < |script| && |parts'| == i + 1 && HasTaken(f, parts', was, ahead) && InProgress()
      ensures rc.None? ==> if again || ready then Going(f, script, parts', was, ahead) else Waits(f, script, parts')
    {
      rc, again, ready, parts' := None, false, false, parts;
      var ok := SpillIfFull();
      if !ok {
        rc := Some(InternalError);
      } else if i == |script| {
        rc := Some(Again);
      } else if script[i].Bytes? {
        ready := script[i].ready;
        rc, parts' := TakeOrFinish(script[i].n, f, script, parts, was, ahead);
        again := rc.None? && b.bufs[|b.bufs| - 1].room == 0;
      } else {
        NothingFed(f, script, parts);
        parts' := parts + [0];
        if script[i].Failed? {
          rc := Some(BadRequest);
        } else {
          ready := script[i].ready;
        }
      }
    }

    /** The inner loop: until the call ends, or the connection would block, or the buffer has room left. */
    method FillBuffer(script: seq<Recv>, at: nat, ghost f: Start, ghost parts: seq<nat>, ghost was: Text, ghost ahead: Text)
      returns (rc: Option<Rc>, i: nat, ready: bool, ghost parts': seq<nat>)
      requires at == |parts| <= |script| && Going(f, script, parts, was, ahead)
      modifies this`b, this`wire, this`taken, this`space, this`called
      ensures rc.Some? ==> EndedFor(rc.value, f, script, parts') && HasTaken(f, parts', was, ahead)
      ensures rc.Some? ==> (rc.value == Ok ==> Finished()) && (rc.value == Again ==> InProgress())
      ensures rc.None? ==> at < i == |parts'| <= |script| && HasTaken(f, parts', was, ahead) && InProgress()
      ensures rc.None? ==> if ready then Going(f, script, parts', was, ahead) else Waits(f, script, parts')
    {
      i, parts' := at, parts;
      while true
        invariant at <= i == |parts'| <= |script| && Going(f, script, parts', was, ahead)
        decreases |script| - i
      {
        var again;
        rc, again, ready, parts' := Turn(script, i, f, parts', was, ahead);
        if rc.Some? {
          return;
        }
        i := i + 1;
        if !again {
          return;
        }
      }
    }

    /** ngx_http_do_read_client_request_body, with what the connection does until it has nothing more to say. */
    method DoRead(script: seq<Recv>) returns (rc: Rc, ghost parts: seq<nat>)
      requires InProgress()
      modifies this`b, this`wire, this`taken, this`space, this`called
      ensures rc == Ok ==> Finished()
      ensures rc == Again ==> InProgress()
      ensures EndedFor(rc, old(Begins()), script, parts) && HasTaken(old(Begins()), parts, old(taken), old(wire))
    {
      ghost var f, was, ahead := Begins(), taken, wire;
      parts := [];
      var i: nat := 0;
      while true
        invariant i == |parts| <= |script| && Going(f, script, parts, was, ahead)
        decreases |script| - i
      {
        var end, ready;
        end, i, ready, parts := FillBuffer(script, i, f, parts, was, ahead);
        if end.Some? {
          return end.value, parts;
        }
        if !ready {
          return Again, parts;
        }
      }
    }

    /** ngx_http_read_client_request_body */
    method Read(script: seq<Recv>) returns (rc: Rc, ghost parts: seq<nat>)
      requires Fresh()
      modifies this`b, this`header, this`wire, this`taken, this`space, this`called
      ensures rc == Ok ==> if c.length < 0 then called && b.bufs == [] && header + wire == stream else Finished()
      ensures rc == Ok && c.length >= 0 ==> (Delivered(b.bufs, Filed(b)) == BodyOf(c, stream) <==> !Loses(c))
      ensures rc == Again ==> InProgress()
      ensures c.length <= |c.preread| ==>
        && parts == [] && wire == old(wire)
        && rc == if 0 < c.length && c.fileOnly && c.length > old(space) then InternalError else Ok
      ensures c.length > |c.preread| ==>
        && EndedFor(rc, StartAt(Prepared(c), |old(wire)|), script, parts)
        && HasTaken(StartAt(Prepared(c), |old(wire)|), parts, c.preread, old(wire))
    {
      parts := [];
      if c.length < 0 {
        called := true;
        return Ok, parts;
      }
      if c.length == 0 {
        if c.fileOnly {
          b := b.(file := Some([]));
        }
        called := true;
        return Ok, parts;
      }
      if |header| >= c.length {
        rc := UsePreread();
        return;
      }
      PreparedReads(c);
      Prepare();
      rc, parts := DoRead(script);
    }

    /** The whole body came with the header. */
    method UsePreread() returns (rc: Rc)
      requires Fresh() && 0 < c.length <= |header|
      modifies this`b, this`header, this`space, this`called
      ensures rc == if c.fileOnly && c.length > old(space) then InternalError else Ok
      ensures rc == Ok ==> Finished()
    {
      b := b.(bufs := [Mem(header[..c.length], c.headerRoom)]);
      header := header[c.length..];
      if c.fileOnly {
        var ok := Write();
        if !ok {
          return InternalError;
        }
      }
      called := true;
      DeliveredMemory(b.bufs, Filed(b));
      JoinedOne(b.bufs);
      Cut(c.preread, wire, c.length);
      return Ok;
    }

    /** Arrange buffers for the part of the body still missing. */
    method Prepare()
      requires header == c.preread && |header| < c.length
      modifies this`b, this`header
      ensures b == Prepared(c) && header == []
    {
      var preread := |header|;
      var rest := c.length - preread;
      var pre := Mem(header, c.headerRoom);
      if preread > 0 && rest <= c.headerRoom {
        b := Body([pre], 0, rest, None);
      } else {
        var size := c.bufferSize + c.bufferSize / 4;
        var copy := preread > 0;
        if rest < size {
          size := rest;
          if c.singleBuf {
            size := size + preread;
          }
        } else {
          size := c.bufferSize;
          copy := false;
        }
        var bufs := if preread > 0 then [pre, Mem([], size)] else [Mem([], size)];
        if copy && c.singleBuf {
          bufs := [Mem(header, size - preread)];
        }
        var toWrite := if !c.fileOnly && !c.singleBuf && |bufs| > 1 then 1 else 0;
        b := Body(bufs, toWrite, rest, None);
      }
      header := [];
    }
  }

  /** After a finished read the post handler has the body exactly if the configuration is not the losing one. */
  lemma LosesIsALoss(r: Reader)
    requires r.Finished()
    ensures Delivered(r.b.bufs, Filed(r.b)) == BodyOf(r.c, r.stream) <==> !Loses(r.c)
  {
    if Loses(r.c) {
      assert |BodyOf(r.c, r.stream)| == r.c.length;
      assert |Delivered(r.b.bufs, Filed(r.b))| == r.c.length - |r.c.preread|;
    }
  }

  /** Three bytes of buffer, three bytes missing and a full header buffer: of "abcd" the first byte is lost. */
  lemma PrereadCanBeLost()
    ensures var c := Config(4, [97], 0, 3, false, true);
      var b := Receive(Prepared(c), [98, 99, 100]);
      Loses(c) && b.rest == 0 && Delivered(Complete(c, b).bufs, Filed(Complete(c, b))) == [98, 99, 100]
  {
    var c := Config(4, [97], 0, 3, false, true);
    var b := Receive(Prepared(c), [98, 99, 100]);
    assert Prepared(c).bufs == [Mem([97], 0), Mem([], 3)];
    assert b.bufs == [Mem([97], 0), Mem([98, 99, 100], 0)] by {
      var none: Text, bytes: Text := [], [98, 99, 100];
      assert none + bytes == bytes;
    }
    assert Complete(c, b).bufs == [Mem([98, 99, 100], 0)];
    assert Delivered(Complete(c, b).bufs[1..], []) == [];
  }
}
