/** Requests of the lobby on the wire: what the Java client writes, what the C server takes off the
    stream, and the blocking reads that put a payload together from arbitrary chunks. */
module Framing {
  import opened Bytes

  const OP_BUILD := 1
  const OP_FETCH := 2
  const OP_INIT := 3
  const OP_TERMINATE := 4
  const NAME_LIMIT := 64

  datatype Request = Create(name: seq<byte>) | FetchList | Join(id: int, name: seq<byte>) | Disconnect

  /** The client's encoders. */
  function Encode(r: Request): seq<byte> {
    match r
    case Create(name) => PutInt(OP_BUILD) + PutInt(|name|) + name
    case FetchList => PutInt(OP_FETCH)
    case Join(id, name) => PutInt(OP_INIT) + PutShort(id) + PutInt(|name|) + name
    case Disconnect => PutInt(OP_TERMINATE)
  }

  function EncodeAll(rs: seq<Request>): seq<byte> {
    if rs == [] then [] else Encode(rs[0]) + EncodeAll(rs[1..])
  }

  predicate WellFormed(r: Request) {
    match r
    case Create(name) => 1 <= |name| <= NAME_LIMIT
    case Join(id, name) => IsUint16(id) && 1 <= |name| <= NAME_LIMIT
    case FetchList => true
    case Disconnect => true
  }

  // ---------------------------------------------------------------- the server's reading

  /** What one pass of the server's dispatch makes of the stream. `Starved` is a read that the bytes
      at hand do not satisfy, `ThreadExit` a handler that ends its thread, `LinkFaulted` a failed opcode
      read. */
  datatype Served =
    | Created(name: seq<byte>) | CreateRefused
    | Listed
    | Joined(id: int, name: seq<byte>) | JoinRefused | JoinNameless(id: int)
    | Left
    | Unidentified(opcode: int)
    | LinkFaulted
    | ThreadExit
    | Starved

  datatype Pass = Pass(served: Served, rest: seq<byte>)

  /** The part of a handler that consumes a length and a name, after everything before it. */
  function DiscardName(bs: seq<byte>): seq<byte> {
    if |bs| < 4 then []
    else
      var len, body := GetInt(bs), bs[4..];
      if 0 < len <= NAME_LIMIT then (if len <= |body| then body[len..] else []) else body
  }

  function ServeCreate(bound: bool, bs: seq<byte>): Pass {
    if bound then Pass(CreateRefused, DiscardName(bs))
    else if |bs| < 4 then Pass(Starved, [])
    else
      var len, body := GetInt(bs), bs[4..];
      if len > NAME_LIMIT || len <= 0 then Pass(ThreadExit, body)
      else if |body| < len then Pass(Starved, [])
      else Pass(Created(body[..len]), body[len..])
  }

  function ServeJoin(bound: bool, bs: seq<byte>): Pass {
    if |bs| < 2 then Pass(Starved, [])
    else
      var id, after := GetShort(bs), bs[2..];
      if bound then Pass(JoinRefused, DiscardName(after))
      else if |after| < 4 then Pass(Starved, [])
      else
        var len, body := GetInt(after), after[4..];
        if len < 0 then Pass(ThreadExit, body)
        else if len == 0 then Pass(JoinNameless(id), body)
        else if |body| < len then Pass(Starved, [])
        else Pass(Joined(id, body[..len]), body[len..])
  }

  function ServeOpcode(bound: bool, opcode: int, after: seq<byte>): Pass {
    if opcode == OP_INIT then ServeJoin(bound, after)
    else if opcode == OP_FETCH then Pass(Listed, after)
    else if opcode == OP_BUILD then ServeCreate(bound, after)
    else if opcode == OP_TERMINATE then Pass(Left, after)
    else Pass(Unidentified(opcode), after)
  }

  /** One pass: an opcode, whose four bytes arrive together, and its handler. */
  function ServeOne(bound: bool, bs: seq<byte>): Pass {
    if |bs| < 4 then Pass(Starved, []) else ServeOpcode(bound, GetInt(bs), bs[4..])
  }

  /** The general pass: the opcode is one read that is not repeated. If it brings only `n` bytes, the rest
      of the variable still holds what the previous pass left there. */
  function ServePiece(bound: bool, bs: seq<byte>, n: nat, stale: seq<byte>): Pass
    requires n <= 4 && n <= |bs| && |stale| == 4
  {
    ServeOpcode(bound, GetInt(bs[..n] + stale[n..]), bs[n..])
  }

  /** With all four bytes there the old contents do not matter. */
  lemma WholeOpcode(bound: bool, bs: seq<byte>, stale: seq<byte>)
    requires |bs| >= 4 && |stale| == 4
    ensures ServePiece(bound, bs, 4, stale) == ServeOne(bound, bs)
  {
    assert bs[..4] + stale[4..] == bs[..4];
  }

  /** What happens to an opcode that arrives in two pieces: the server does once more what the previous
      opcode said, and takes the second piece for the beginning of its payload. */
  lemma SplitOpcodeRepeatsPrevious(bound: bool, previous: int, opcode: int, n: nat, body: seq<byte>)
    requires OP_BUILD <= previous <= OP_TERMINATE && OP_BUILD <= opcode <= OP_TERMINATE && 0 < n < 4
    ensures ServePiece(bound, PutInt(opcode) + body, n, PutInt(previous)) ==
            ServeOpcode(bound, previous, PutInt(opcode)[n..] + body)
  {
    assert PutInt(opcode) == [0, 0, 0, opcode] && PutInt(previous) == [0, 0, 0, previous];
    var bs := PutInt(opcode) + body;
    assert bs[..n] + PutInt(previous)[n..] == PutInt(previous) + [];
    IntRoundTrip(previous, []);
    assert bs[n..] == PutInt(opcode)[n..] + body;
  }

  /** What the server should make of a request from a player who is, or is not, in a session. */
  function Meaning(r: Request, bound: bool): Served {
    match r
    case Create(name) => if bound then CreateRefused else Created(name)
    case FetchList => Listed
    case Join(id, name) => if bound then JoinRefused else Joined(id, name)
    case Disconnect => Left
  }

  lemma NameRead(name: seq<byte>, tail: seq<byte>)
    requires 1 <= |name| <= NAME_LIMIT
    ensures var bs := PutInt(|name|) + name + tail;
      && |bs| >= 4 && GetInt(bs) == |name| && bs[4..] == name + tail
      && bs[4..][..|name|] == name && bs[4..][|name|..] == tail && DiscardName(bs) == tail
  {
    IntRoundTrip(|name|, name + tail);
    assert PutInt(|name|) + name + tail == PutInt(|name|) + (name + tail);
  }

  lemma OpcodeRead(opcode: int, bound: bool, body: seq<byte>)
    requires IsInt32(opcode)
    ensures ServeOne(bound, PutInt(opcode) + body) == ServeOpcode(bound, opcode, body)
  {
    IntRoundTrip(opcode, body);
  }

  lemma CreateBody(name: seq<byte>, bound: bool, tail: seq<byte>)
    requires 1 <= |name| <= NAME_LIMIT
    ensures ServeCreate(bound, PutInt(|name|) + name + tail) == Pass(Meaning(Create(name), bound), tail)
  {
    NameRead(name, tail);
  }

  lemma JoinBody(id: int, name: seq<byte>, bound: bool, tail: seq<byte>)
    requires IsUint16(id) && 1 <= |name| <= NAME_LIMIT
    ensures ServeJoin(bound, PutShort(id) + (PutInt(|name|) + name + tail)) ==
            Pass(Meaning(Join(id, name), bound), tail)
  {
    ShortRoundTrip(id, PutInt(|name|) + name + tail);
    NameRead(name, tail);
  }

  lemma Regroup(a: seq<byte>, b: seq<byte>, c: seq<byte>, d: seq<byte>, e: seq<byte>)
    ensures a + b + c + d == a + (b + c + d)
    ensures a + b + c + d + e == a + (b + (c + d + e))
  {
  }

  lemma CreateFrame(name: seq<byte>, bound: bool, tail: seq<byte>)
    requires 1 <= |name| <= NAME_LIMIT
    ensures ServeOne(bound, Encode(Create(name)) + tail) == Pass(Meaning(Create(name), bound), tail)
  {
    var op, len := PutInt(OP_BUILD), PutInt(|name|);
    Regroup(op, len, name, tail, []);
    OpcodeRead(OP_BUILD, bound, len + name + tail);
    CreateBody(name, bound, tail);
  }

  lemma JoinFrame(id: int, name: seq<byte>, bound: bool, tail: seq<byte>)
    requires IsUint16(id) && 1 <= |name| <= NAME_LIMIT
    ensures ServeOne(bound, Encode(Join(id, name)) + tail) == Pass(Meaning(Join(id, name), bound), tail)
  {
    var op, short, len := PutInt(OP_INIT), PutShort(id), PutInt(|name|);
    Regroup(op, short, len, name, tail);
    OpcodeRead(OP_INIT, bound, short + (len + name + tail));
    JoinBody(id, name, bound, tail);
  }

  /** One frame is recovered exactly and entirely, in whatever state the player is and whatever bytes
      follow: the path that serves it and the path that refuses it consume the same frame. */
  lemma FrameRoundTrip(r: Request, bound: bool, tail: seq<byte>)
    requires WellFormed(r)
    ensures ServeOne(bound, Encode(r) + tail) == Pass(Meaning(r, bound), tail)
  {
    match r
    case Create(name) => CreateFrame(name, bound, tail);
    case FetchList => OpcodeRead(OP_FETCH, bound, tail);
    case Join(id, name) => JoinFrame(id, name, bound, tail);
    case Disconnect => OpcodeRead(OP_TERMINATE, bound, tail);
  }

  /** The server's loop on a whole stream. `bound` tells for each pass whether the player is in a
      session then; it stops at a farewell, at the end of its thread, or when bytes run out. */
  function ServeAll(bound: seq<bool>, bs: seq<byte>): (seq<Served>, seq<byte>)
    decreases |bound|
  {
    if bound == [] || bs == [] then ([], bs)
    else
      var pass := ServeOne(bound[0], bs);
      if pass.served.Left? || pass.served.ThreadExit? || pass.served.Starved? then ([pass.served], pass.rest)
      else
        var later := ServeAll(bound[1..], pass.rest);
        ([pass.served] + later.0, later.1)
  }

  /** The requests the server gets to: all of them, or those up to the first farewell. */
  function Heard(rs: seq<Request>): nat {
    if rs == [] then 0 else if rs[0].Disconnect? then 1 else 1 + Heard(rs[1..])
  }

  function Meanings(rs: seq<Request>, bound: seq<bool>, n: nat): seq<Served>
    requires n <= |rs| && n <= |bound|
  {
    seq(n, i requires 0 <= i < n => Meaning(rs[i], bound[i]))
  }

  lemma {:induction false} HeardBound(rs: seq<Request>)
    ensures Heard(rs) <= |rs|
  {
    if rs != [] { HeardBound(rs[1..]); }
  }

  lemma EncodedNonempty(r: Request)
    ensures |Encode(r)| >= 4
  {
  }

  /** The server's loop on a stream that starts with a frame. */
  lemma ServeFrame(r: Request, bound: seq<bool>, tail: seq<byte>)
    requires WellFormed(r) && bound != []
    ensures ServeAll(bound, Encode(r) + tail) ==
      if r.Disconnect? then ([Left], tail)
      else ([Meaning(r, bound[0])] + ServeAll(bound[1..], tail).0, ServeAll(bound[1..], tail).1)
  {
    FrameRoundTrip(r, bound[0], tail);
    EncodedNonempty(r);
    assert Encode(r) + tail != [];
  }

  lemma MeaningsStep(rs: seq<Request>, bound: seq<bool>, n: nat)
    requires 0 < n <= |rs| && n <= |bound|
    ensures Meanings(rs, bound, n) == [Meaning(rs[0], bound[0])] + Meanings(rs[1..], bound[1..], n - 1)
  {
  }

  /** The request stream round trip: whatever the list of requests and whatever the player's state
      when each is served, the server recovers exactly that list up to the first farewell, and what it
      leaves unread is exactly the encoding of what comes after. */
  lemma {:induction false} StreamRoundTrip(rs: seq<Request>, bound: seq<bool>)
    requires |bound| == |rs| && forall r | r in rs :: WellFormed(r)
    ensures Heard(rs) <= |rs|
    ensures ServeAll(bound, EncodeAll(rs)) == (Meanings(rs, bound, Heard(rs)), EncodeAll(rs[Heard(rs)..]))
    decreases |rs|
  {
    HeardBound(rs);
    if rs != [] {
      var n, tail := Heard(rs), EncodeAll(rs[1..]);
      ServeFrame(rs[0], bound, tail);
      MeaningsStep(rs, bound, n);
      if rs[0].Disconnect? {
        assert Meanings(rs, bound, n) == [Left];
      } else {
        StreamRoundTrip(rs[1..], bound[1..]);
        assert rs[n..] == rs[1..][n - 1..];
      }
    }
  }

  /** `k` requests have been served, and if the thread is still `active` none of them was a farewell. */
  ghost predicate Underway(
    rs: seq<Request>, bound: seq<bool>, k: nat, active: bool, served: seq<Served>, data: seq<byte>)
    requires |rs| == |bound|
  {
    && k <= |rs| && data == EncodeAll(rs[k..]) && served == Meanings(rs, bound, k)
    && Heard(rs) == if active then k + Heard(rs[k..]) else k
  }

  /** One more pass. */
  lemma OneMoreServed(
    rs: seq<Request>, bound: seq<bool>, k: nat, served: seq<Served>, data: seq<byte>, pass: Pass)
    requires |rs| == |bound| && Underway(rs, bound, k, true, served, data) && data != []
    requires forall r | r in rs :: WellFormed(r)
    ensures k < |rs| && |data| >= 4
    ensures pass == ServeOne(bound[k], data) ==>
      var goesOn := !pass.served.Left? && !pass.served.ThreadExit? && !pass.served.LinkFaulted?;
      Underway(rs, bound, k + 1, goesOn, served + [pass.served], pass.rest)
  {
    assert k < |rs|;
    ServedNext(rs, bound, k);
  }

  lemma SmallWord(v: int)
    requires 0 <= v < 256
    ensures PutInt(v) == [0, 0, 0, v]
  {
  }

  /** The four frames, byte for byte. */
  lemma FramesByteForByte(id: int, name: seq<byte>)
    requires IsUint16(id) && 1 <= |name| <= 64
    ensures Encode(Create(name)) == [0, 0, 0, 1, 0, 0, 0, |name|] + name
    ensures Encode(FetchList) == [0, 0, 0, 2]
    ensures Encode(Join(id, name)) == [0, 0, 0, 3, id / 256, id % 256, 0, 0, 0, |name|] + name
    ensures Encode(Disconnect) == [0, 0, 0, 4]
  {
    SmallWord(1);
    SmallWord(2);
    SmallWord(3);
    SmallWord(4);
    SmallWord(|name|);
    assert PutShort(id) == [id / 256, id % 256];
  }

  /** A join by a free player, for every length field: a name that is there makes it a join, the length 0
      a nameless one, a negative length ends the thread, and a name not all there starves the read. */
  lemma JoinOutcomes(bs: seq<byte>)
    requires |bs| >= 6
    ensures var len, pass := GetInt(bs[2..]), ServeJoin(false, bs);
      && (pass.served.Joined? <==> 1 <= len <= |bs| - 6) && (pass.served.JoinNameless? <==> len == 0)
      && (pass.served.ThreadExit? <==> len < 0) && (pass.served.Starved? <==> len > |bs| - 6)
      && (pass.served.Joined? ==>
            pass.served == Joined(GetShort(bs), bs[6..6 + len]) && pass.rest == bs[6 + len..])
      && (pass.served.JoinNameless? ==> pass.served.id == GetShort(bs) && pass.rest == bs[6..])
      && (pass.served.Starved? ==> pass.rest == [])
  {
    var len := GetInt(bs[2..]);
    assert bs[2..][4..] == bs[6..];
    if 0 <= len <= |bs| - 6 {
      assert bs[6..][..len] == bs[6..6 + len] && bs[6..][len..] == bs[6 + len..];
    }
  }

  /** The pass that meets the encoding of the requests from `k` on. */
  lemma ServedNext(rs: seq<Request>, bound: seq<bool>, k: nat)
    requires k < |rs| == |bound| && WellFormed(rs[k])
    ensures |EncodeAll(rs[k..])| >= 4
    ensures ServeOne(bound[k], EncodeAll(rs[k..])) == Pass(Meaning(rs[k], bound[k]), EncodeAll(rs[k + 1..]))
    ensures Meanings(rs, bound, k + 1) == Meanings(rs, bound, k) + [Meaning(rs[k], bound[k])]
    ensures Heard(rs[k..]) == if Meaning(rs[k], bound[k]).Left? then 1 else 1 + Heard(rs[k + 1..])
  {
    assert rs[k..][0] == rs[k] && rs[k..][1..] == rs[k + 1..];
    EncodedNonempty(rs[k]);
    FrameRoundTrip(rs[k], bound[k], EncodeAll(rs[k + 1..]));
  }

  /** The bytes that follow `n` bytes of a creation's opcode, read as a creation's payload: the length they
      show is out of range. */
  lemma ShiftedCreate(bound: bool, name: seq<byte>, tail: seq<byte>, n: nat)
    requires 1 <= |name| <= NAME_LIMIT && 0 < n < 4
    ensures ServeCreate(bound, (Encode(Create(name)) + tail)[n..]) != Pass(Meaning(Create(name), bound), tail)
  {
    var bs := Encode(Create(name)) + tail;
    var after := bs[n..];
    assert bs[..8] == [0, 0, 0, OP_BUILD, 0, 0, 0, |name|];
    assert after[..4] == bs[..8][n..n + 4];
    assert GetInt(after) > NAME_LIMIT;
    assert |after[4..]| > |tail|;
  }

  /** For a join the length is zero, negative or far above that of the name. */
  lemma ShiftedJoin(bound: bool, id: int, name: seq<byte>, tail: seq<byte>, n: nat)
    requires IsUint16(id) && 1 <= |name| <= NAME_LIMIT && 0 < n < 4
    ensures ServeJoin(bound, (Encode(Join(id, name)) + tail)[n..]) != Pass(Meaning(Join(id, name), bound), tail)
  {
    var bs := Encode(Join(id, name)) + tail;
    var after := bs[n..];
    assert bs[..10] == [0, 0, 0, OP_INIT, id / 256, id % 256, 0, 0, 0, |name|];
    assert after[2..][..4] == bs[..10][n + 2..n + 6];
    var len := GetInt(after[2..]);
    assert len <= 0 || len > NAME_LIMIT;
    assert |after[2..][4..]| > |tail|;
  }

  /** The same for any request: only its own kind of pass could bring its meaning. */
  lemma PieceIsAmiss(r: Request, bound: bool, tail: seq<byte>, n: nat, opcode: int)
    requires WellFormed(r) && 0 < n < 4 && |Encode(r)| >= 4
    ensures ServeOpcode(bound, opcode, (Encode(r) + tail)[n..]) != Pass(Meaning(r, bound), tail)
  {
    match r
    case Create(name) => ShiftedCreate(bound, name, tail, n);
    case Join(id, name) => ShiftedJoin(bound, id, name, tail, n);
    case FetchList => assert |(Encode(r) + tail)[n..]| > |tail|;
    case Disconnect => assert |(Encode(r) + tail)[n..]| > |tail|;
  }

  /** A request is recovered exactly when the first recv brings its opcode whole, whatever the variable
      held before: with one to three bytes of it the server takes the rest of the opcode for payload. */
  lemma RecoveredIffOpcodeWhole(r: Request, bound: bool, tail: seq<byte>, n: nat, stale: seq<byte>)
    requires WellFormed(r) && 0 < n <= 4 && |stale| == 4
    ensures |Encode(r)| >= 4
    ensures ServePiece(bound, Encode(r) + tail, n, stale) == Pass(Meaning(r, bound), tail) <==> n == 4
  {
    EncodedNonempty(r);
    if n == 4 {
      WholeOpcode(bound, Encode(r) + tail, stale);
      FrameRoundTrip(r, bound, tail);
    } else {
      PieceIsAmiss(r, bound, tail, n, GetInt((Encode(r) + tail)[..n] + stale[n..]));
    }
  }

  /** The two paths of a join part exactly on names longer than 64 bytes: the serving path takes them,
      the refusing path leaves them in the stream. */
  lemma JoinPathsAgreeIffShort(bs: seq<byte>)
    requires |bs| >= 6 && GetInt(bs[2..]) <= |bs[6..]|
    ensures ServeJoin(true, bs).rest == ServeJoin(false, bs).rest <==> GetInt(bs[2..]) <= 64
  {
    var len, body := GetInt(bs[2..]), bs[2..][4..];
    assert body == bs[6..];
    if len > NAME_LIMIT {
      assert |body[len..]| < |body|;
    }
  }

  lemma LongNameRead(name: seq<byte>, tail: seq<byte>)
    requires NAME_LIMIT < |name| < 0x8000_0000
    ensures var bs := PutInt(|name|) + name + tail;
      |bs| >= 4 && GetInt(bs) == |name| && bs[4..] == name + tail && DiscardName(bs) == name + tail
  {
    IntRoundTrip(|name|, name + tail);
    assert PutInt(|name|) + name + tail == PutInt(|name|) + (name + tail);
  }

  /** A client does write such a request, for it does not limit the name: served, the join is recovered;
      refused, the whole name stays in the stream in front of the next opcode. */
  lemma LongJoinDerailsRefusal(id: int, name: seq<byte>, tail: seq<byte>)
    requires IsUint16(id) && NAME_LIMIT < |name| < 0x8000_0000
    ensures ServeOne(false, Encode(Join(id, name)) + tail) == Pass(Joined(id, name), tail)
    ensures ServeOne(true, Encode(Join(id, name)) + tail) == Pass(JoinRefused, name + tail)
  {
    var op, short, len := PutInt(OP_INIT), PutShort(id), PutInt(|name|);
    var body := len + name + tail;
    Regroup(op, short, len, name, tail);
    OpcodeRead(OP_INIT, false, short + body);
    OpcodeRead(OP_INIT, true, short + body);
    ShortRoundTrip(id, body);
    LongNameRead(name, tail);
    assert (name + tail)[..|name|] == name && (name + tail)[|name|..] == tail;
  }

  /** A creation by a free player, for every length field: only a name of 1 to 64 bytes is served, if it is
      all there; any other length ends the thread. The path that refuses a bound player's creation
      consumes the same bytes in every case. */
  lemma CreateServedIffShort(bs: seq<byte>)
    requires |bs| >= 4
    ensures var len, pass := GetInt(bs), ServeCreate(false, bs);
      && (pass.served.Created? <==> 1 <= len <= 64 && len <= |bs| - 4)
      && (pass.served.Starved? <==> 1 <= len <= 64 && len > |bs| - 4)
      && (pass.served.ThreadExit? <==> len < 1 || len > 64)
      && (pass.served.Created? ==> pass.served.name == bs[4..4 + len] && pass.rest == bs[4 + len..])
      && ServeCreate(true, bs) == Pass(CreateRefused, pass.rest)
  {
    var len, body := GetInt(bs), bs[4..];
    if 1 <= len <= 64 && len <= |body| {
      assert body[..len] == bs[4..4 + len] && body[len..] == bs[4 + len..];
    }
  }

  // ---------------------------------------------------------------- blocking reads

  /** What the next call to recv does besides delivering everything it can. */
  datatype Event = Chunk(limit: nat) | Interrupted | TimedOut | Faulted | Severed

  predicate Harmless(e: Event) {
    (e.Chunk? && e.limit > 0) || e.Interrupted?
  }

  /** Only chunks and interruptions to come. */
  predicate Calm(es: seq<Event>) {
    forall i | 0 <= i < |es| :: Harmless(es[i])
  }

  /** How many bytes of an opcode the next recv brings, from `available` that are there; none if it fails. */
  function OpcodeBytes(es: seq<Event>, available: nat): nat {
    var limit := if es == [] then 4 else if es[0].Chunk? && es[0].limit < 4 then es[0].limit
                 else if es[0].Chunk? then 4 else 0;
    if limit < available then limit else available
  }

  predicate OpcodeTogether(es: seq<Event>) {
    es == [] || (es[0].Chunk? && es[0].limit >= 4)
  }

  /** A read fails with 0 if its last recv found the connection closed, with -1 if that recv faulted, and
      not so otherwise; every recv before it brought something or was interrupted. */
  predicate StoppedBy(es: seq<Event>, used: nat, result: int)
    requires used <= |es|
  {
    && (result == 0 <==> used > 0 && es[used - 1].Severed?)
    && (result == -1 <==> used > 0 && es[used - 1].Faulted?)
    && forall k | 0 <= k < used - 1 :: Harmless(es[k])
  }

  /** A blocking read on its way: `n` bytes of the stream have been put together. */
  predicate Ingesting(
    stream: seq<byte>, es: seq<Event>, buffer: seq<byte>, data: seq<byte>, events: seq<Event>, n: nat)
  {
    && n <= |buffer| && n <= |stream| && buffer[..n] == stream[..n] && data == stream[n..]
    && |events| <= |es| && events == es[|es| - |events|..] && Calm(es[..|es| - |events|])
  }

  /** The bytes of a buffer after `chunk` has been written at `at`. */
  function Spliced(buffer: seq<byte>, at: nat, chunk: seq<byte>): (after: seq<byte>)
    requires at + |chunk| <= |buffer|
    ensures |after| == |buffer|
  {
    buffer[..at] + chunk + buffer[at + |chunk|..]
  }

  /** What recv answers: the number of bytes it delivers, 0 for a closed connection, -1 for the rest. */
  function Delivered(event: Event, wanted: nat, available: nat): (count: int)
    ensures count <= wanted && count <= available
  {
    match event
    case Chunk(limit) =>
      var n := if limit < wanted then limit else wanted;
      if n == 0 || available == 0 then -1 else if n < available then n else available
    case Severed => 0
    case _ => -1
  }

  /** What a read of `expected` bytes is to do, from a stream and the events to come to what is left of them:
      it succeeds with exactly the first `expected` bytes in the buffer, or fails with one of the codes;
      and with only chunks and interruptions to come it succeeds iff the bytes are there. */
  predicate ReadDone(
    stream: seq<byte>, es: seq<Event>, expected: nat,
    result: int, buffer: seq<byte>, data: seq<byte>, events: seq<Event>)
  {
    && |events| <= |es| && events == es[|es| - |events|..] && (Calm(es) ==> Calm(events))
    && (if result == expected then
          && expected <= |buffer| && expected <= |stream|
          && data == stream[expected..] && buffer[..expected] == stream[..expected]
          && Calm(es[..|es| - |events|])
        else
          && result in {-2, -1, 0} && expected > 0 && StoppedBy(es, |es| - |events|, result)
          && (Calm(es) ==> expected > |stream| && result == -2 && data == []))
  }

  /** The code for a recv that brought nothing and was not interrupted. */
  function FailureOf(event: Event): int {
    if event.Severed? then 0 else if event.Faulted? then -1 else -2
  }

  /** One more recv: the read is still on its way, or has failed. */
  lemma IngestingGoesOn(
    stream: seq<byte>, es: seq<Event>, expected: nat, n: nat, event: Event, count: int,
    buffer: seq<byte>, data: seq<byte>, events: seq<Event>, after: seq<byte>, left: seq<byte>, later: seq<Event>)
    requires Ingesting(stream, es, buffer, data, events, n) && n < expected <= |buffer|
    requires event == if events == [] then Chunk(expected - n) else events[0]
    requires later == if events == [] then [] else events[1..]
    requires count == Delivered(event, expected - n, |data|)
    requires left == data[if count > 0 then count else 0..]
    requires after == Spliced(buffer, n, data[..if count > 0 then count else 0])
    ensures after[expected..] == buffer[expected..]
    ensures count > 0 ==> Ingesting(stream, es, after, left, later, n + count)
    ensures count <= 0 && event.Interrupted? ==> Ingesting(stream, es, after, left, later, n) && |later| < |events|
    ensures count <= 0 && !event.Interrupted? ==> ReadDone(stream, es, expected, FailureOf(event), after, left, later)
    ensures count == 0 ==> event.Severed?
    ensures count < 0 ==> !event.Severed?
  {
    var used := |es| - |events|;
    if events != [] {
      assert events[0] == es[used] && events[1..] == es[used + 1..];
      assert es[..used + 1] == es[..used] + [es[used]];
    }
    if count > 0 {
      BytesGoOn(stream, buffer, data, n, count, expected);
    } else {
      assert after == buffer;
    }
  }

  lemma BytesGoOn(stream: seq<byte>, buffer: seq<byte>, data: seq<byte>, n: nat, m: nat, expected: nat)
    requires n <= |stream| && n <= |buffer| && buffer[..n] == stream[..n] && data == stream[n..]
    requires m <= |data| && n + m <= expected <= |buffer|
    ensures var after := Spliced(buffer, n, data[..m]);
      && after[..n + m] == stream[..n + m] && data[m..] == stream[n + m..] && after[expected..] == buffer[expected..]
  {
    assert Spliced(buffer, n, data[..m])[..n + m] == buffer[..n] + data[..m];
    assert stream[..n + m] == stream[..n] + stream[n..][..m];
  }

  lemma ReadComplete(
    stream: seq<byte>, es: seq<Event>, expected: nat, buffer: seq<byte>, data: seq<byte>, events: seq<Event>)
    requires Ingesting(stream, es, buffer, data, events, expected)
    ensures ReadDone(stream, es, expected, expected, buffer, data, events)
  {
  }

  class Socket {
    /** Bytes that have arrived, and how the next calls will behave; after that recv delivers all it
        has, or times out. */
    var data: seq<byte>
    var events: seq<Event>

    constructor (data: seq<byte>, events: seq<Event>)
      ensures this.data == data && this.events == events
    {
      this.data, this.events := data, events;
    }

    /** One recv call into `buffer` from `at` on. */
    method Recv(buffer: array<byte>, at: nat, wanted: nat) returns (count: int, event: Event)
      requires at + wanted <= buffer.Length && wanted > 0
      modifies this, buffer
      ensures events == if old(events) == [] then [] else old(events)[1..]
      ensures event == if old(events) == [] then Chunk(wanted) else old(events)[0]
      ensures count == Delivered(event, wanted, |old(data)|)
      ensures var n := if count > 0 then count else 0;
        data == old(data)[n..] && buffer[..] == Spliced(old(buffer[..]), at, old(data)[..n])
    {
      event := if events == [] then Chunk(wanted) else events[0];
      events := if events == [] then [] else events[1..];
      count := -1;
      match event {
        case Chunk(limit) =>
          var n := if limit < wanted then limit else wanted;
          if n > 0 && data != [] {
            count := if n < |data| then n else |data|;
            forall k | 0 <= k < count {
              buffer[at + k] := data[k];
            }
            assert buffer[at..at + count] == data[..count];
            data := data[count..];
          }
        case Severed =>
          count := 0;
        case _ =>
      }
    }

    /** Collects exactly `expected` bytes, however the kernel cuts them up. Interruptions are repeated;
        a timeout gives -2, a fault -1, a closed connection 0, as the last recv made tells, and every one
        before it brought something or was interrupted. With enough bytes there and only chunks and
        interruptions to come, the read succeeds and takes exactly the first `expected` bytes. */
    method ConsumeExactBytes(expected: nat, buffer: array<byte>) returns (result: int)
      requires expected <= buffer.Length
      modifies this, buffer
      ensures ReadDone(old(data), old(events), expected, result, buffer[..], data, events)
      ensures buffer[expected..] == old(buffer[expected..])
    {
      var ingested := 0;
      ghost var stream, es := data, events;
      while ingested < expected
        invariant ingested <= expected
        invariant Ingesting(stream, es, buffer[..], data, events, ingested)
        invariant buffer[expected..] == old(buffer[expected..])
        decreases |events|, expected - ingested
      {
        ghost var before, left, coming := buffer[..], data, events;
        var count, event := Recv(buffer, ingested, expected - ingested);
        IngestingGoesOn(stream, es, expected, ingested, event, count, before, left, coming, buffer[..], data, events);
        if count < 0 {
          if event.Interrupted? {
            continue;
          }
          return if event.Faulted? then -1 else -2;
        } else if count == 0 {
          return 0;
        }
        ingested := ingested + count;
      }
      ReadComplete(stream, es, expected, buffer[..], data, events);
      return expected;
    }

    /** The server's word reads. */
    method ReadInt() returns (ok: bool, v: int)
      modifies this
      ensures ok ==> |old(data)| >= 4 && v == GetInt(old(data)) && data == old(data)[4..]
      ensures Calm(old(events)) ==> Calm(events) && (ok <==> |old(data)| >= 4) && (!ok ==> data == [])
    {
      var buffer := new byte[4];
      var got := ConsumeExactBytes(4, buffer);
      ok, v := got == 4, 0;
      if ok {
        assert buffer[..4] == buffer[..];
        v := GetInt(buffer[..]);
      }
    }

    method ReadShort() returns (ok: bool, v: int)
      modifies this
      ensures ok ==> |old(data)| >= 2 && v == GetShort(old(data)) && data == old(data)[2..]
      ensures Calm(old(events)) ==> Calm(events) && (ok <==> |old(data)| >= 2) && (!ok ==> data == [])
    {
      var buffer := new byte[2];
      var got := ConsumeExactBytes(2, buffer);
      ok, v := got == 2, 0;
      if ok {
        assert buffer[..2] == buffer[..];
        v := GetShort(buffer[..]);
      }
    }

    method ReadName(len: nat) returns (ok: bool, name: seq<byte>)
      modifies this
      ensures ok ==> |old(data)| >= len && name == old(data)[..len] && data == old(data)[len..]
      ensures Calm(old(events)) ==> Calm(events) && (ok <==> |old(data)| >= len) && (!ok ==> data == [])
    {
      var buffer := new byte[len];
      var got := ConsumeExactBytes(len, buffer);
      ok, name := got == len, [];
      if ok {
        name := buffer[..len];
      }
    }

    /** The refusing path: a length, then the name if its length is one the server accepts. */
    method DiscardNameBlock()
      requires Calm(events)
      modifies this
      ensures Calm(events) && data == DiscardName(old(data))
    {
      var ok, len := ReadInt();
      if ok && 0 < len <= NAME_LIMIT {
        var done, name := ReadName(len);
      }
    }

    method ProcessActivation(bound: bool) returns (served: Served)
      requires Calm(events)
      modifies this
      ensures Calm(events) && Pass(served, data) == ServeJoin(bound, old(data))
    {
      var ok, id := ReadShort();
      if !ok {
        return Starved;
      }
      if bound {
        DiscardNameBlock();
        return JoinRefused;
      }
      var len;
      ok, len := ReadInt();
      if !ok {
        return Starved;
      }
      if len < 0 {
        return ThreadExit;
      }
      var name;
      ok, name := ReadName(len);
      if len == 0 {
        return JoinNameless(id);
      }
      return if ok then Joined(id, name) else Starved;
    }

    method ProcessInstantiation(bound: bool) returns (served: Served)
      requires Calm(events)
      modifies this
      ensures Calm(events) && Pass(served, data) == ServeCreate(bound, old(data))
    {
      if bound {
        DiscardNameBlock();
        return CreateRefused;
      }
      var ok, len := ReadInt();
      if !ok {
        return Starved;
      }
      if len > NAME_LIMIT || len <= 0 {
        return ThreadExit;
      }
      var name;
      ok, name := ReadName(len);
      return if ok then Created(name) else Starved;
    }

    /** One pass of the dispatch on a readable stream. The opcode is a single recv into the variable that
        still holds the previous one; for every chunking the pass takes off the stream exactly what
        `ServePiece` says, and with the opcode's bytes together what `ServeOne` says. */
    method Dispatch(bound: bool, incoming: array<byte>) returns (served: Served)
      requires Calm(events) && data != [] && incoming.Length == 4
      modifies this, incoming
      ensures Calm(events)
      ensures var n := OpcodeBytes(old(events), |old(data)|);
        if n == 0 then served == LinkFaulted && data == old(data)
        else Pass(served, data) == ServePiece(bound, old(data), n, old(incoming[..]))
      ensures OpcodeTogether(old(events)) && |old(data)| >= 4 ==> Pass(served, data) == ServeOne(bound, old(data))
    {
      ghost var stale := incoming[..];
      var count, event := Recv(incoming, 0, 4);
      if count <= 0 {
        return LinkFaulted;
      }
      assert forall k | count <= k < 4 :: incoming[..][k] == stale[k];
      assert incoming[..] == incoming[0..0 + count] + stale[count..];
      if count == 4 { WholeOpcode(bound, old(data), stale); }
      var opcode := GetInt(incoming[..]);
      if opcode == OP_INIT {
        served := ProcessActivation(bound);
      } else if opcode == OP_FETCH {
        served := Listed;
      } else if opcode == OP_BUILD {
        served := ProcessInstantiation(bound);
      } else if opcode == OP_TERMINATE {
        served := Left;
      } else {
        served := Unidentified(opcode);
      }
    }

    /** The player's thread on a stream of requests: it dispatches whenever something has arrived, until a
        farewell. `scripts` tells how the kernel behaves in each pass; it may cut payloads anywhere. The
        requests are recovered exactly, up to the first farewell, and what comes after is left unread. */
    method ServeLink(bound: seq<bool>, scripts: seq<seq<Event>>, ghost rs: seq<Request>)
      returns (served: seq<Served>)
      requires |bound| == |scripts| == |rs| && data == EncodeAll(rs)
      requires forall r | r in rs :: WellFormed(r)
      requires forall es | es in scripts :: Calm(es) && OpcodeTogether(es)
      modifies this
      ensures Heard(rs) <= |rs|
      ensures served == Meanings(rs, bound, Heard(rs)) && data == EncodeAll(rs[Heard(rs)..])
    {
      var incoming := new byte[4](_ => 0);
      var active, k := true, 0;
      served := [];
      HeardBound(rs);
      assert rs[0..] == rs;
      while active && data != []
        invariant Underway(rs, bound, k, active, served, data)
        decreases |rs| - k
      {
        OneMoreServed(rs, bound, k, served, data, ServeOne(bound[k], data));
        events := scripts[k];
        var one := Dispatch(bound[k], incoming);
        served := served + [one];
        active := !one.Left? && !one.ThreadExit? && !one.LinkFaulted?;
        k := k + 1;
      }
      assert rs[|rs|..] == [];
    }
  }
}
