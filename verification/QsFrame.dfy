/** The framing of QS trace records: flag 0x7E, escape 0x7D, escaped bytes XOR-ed with
    0x20 (the transparency rule of section 4.2 of RFC 1662), and an additive checksum
    that makes the bytes of a good record sum to 0xFF. */
module QsFrame {
  import opened Basics

  type Byte = b: nat | b < 0x100

  const FRAME: Byte := 0x7E
  const ESC: Byte := 0x7D
  const GOOD_CHKSUM: Byte := 0xFF

  /** b ^ 0x20 */
  function Flip(b: Byte): Byte {
    if (b / 0x20) % 2 == 1 then b - 0x20 else b + 0x20
  }

  /** Addition in eight bits. */
  function Add(a: Byte, b: Byte): (r: Byte)
    ensures r == (a + b) % 0x100
  {
    if a + b < 0x100 then a + b else a + b - 0x100
  }

  /** QS_INSERT_ESC_BYTE_ as far as the stream is concerned. */
  function Escape(b: Byte): seq<Byte> {
    if b != FRAME && b != ESC then [b] else [ESC, Flip(b)]
  }

  function EscapeAll(bytes: seq<Byte>): seq<Byte> {
    if bytes == [] then [] else Escape(bytes[0]) + EscapeAll(bytes[1..])
  }

  function Sum(bytes: seq<Byte>): Byte {
    if bytes == [] then 0 else Add(bytes[0], Sum(bytes[1..]))
  }

  /** The trailing byte: the bit-wise complement of the sum. */
  function Check(bytes: seq<Byte>): Byte {
    0xFF - Sum(bytes)
  }

  /** A byte of a record as the transmitter writes it: some are never escaped. */
  datatype Unit = Unit(b: Byte, raw: bool)

  function Put(u: Unit): seq<Byte> {
    if u.raw then [u.b] else Escape(u.b)
  }

  function PutAll(us: seq<Unit>): seq<Byte> {
    if us == [] then [] else Put(us[0]) + PutAll(us[1..])
  }

  /** The bytes themselves. */
  function Bytes(us: seq<Unit>): (r: seq<Byte>)
    ensures |r| == |us|
  {
    if us == [] then [] else [us[0].b] + Bytes(us[1..])
  }

  predicate NeedsEscape(u: Unit) {
    u.raw && (u.b == ESC || u.b == FRAME)
  }

  predicate Clean(us: seq<Unit>) {
    forall i :: 0 <= i < |us| ==> !NeedsEscape(us[i])
  }

  datatype Record = Record(seqNum: Byte, id: Byte, body: seq<Unit>)

  /** What a receiver of the record should see. */
  function Content(r: Record): seq<Byte> {
    var bytes := [r.seqNum, r.id] + Bytes(r.body);
    bytes + [Check(bytes)]
  }

  /** What the transmitter writes: the identifier is not escaped. */
  function Wire(r: Record): seq<Byte> {
    Escape(r.seqNum) + [r.id] + PutAll(r.body) + Escape(Check([r.seqNum, r.id] + Bytes(r.body))) + [FRAME]
  }

  function WireAll(rs: seq<Record>): seq<Byte> {
    if rs == [] then [] else Wire(rs[0]) + WireAll(rs[1..])
  }

  // ------------------------------------------------------------------
  // The receiver of QS_rxParse, collecting the data bytes of each frame

  datatype Rx = Rx(esc: bool, chksum: Byte, data: seq<Byte>)

  const IDLE: Rx := Rx(false, 0, [])

  datatype Frame = Frame(good: bool, data: seq<Byte>)

  function Data(x: Rx, b: Byte): Rx {
    Rx(false, Add(x.chksum, b), x.data + [b])
  }

  /** One byte: the new state and the frame it completes, if any. */
  function Feed(x: Rx, b: Byte): (Rx, Option<Frame>) {
    if x.esc then (Data(x, Flip(b)), None)
    else if b == ESC then (x.(esc := true), None)
    else if b == FRAME then (IDLE, Some(Frame(x.chksum == GOOD_CHKSUM, x.data)))
    else (Data(x, b), None)
  }

  function After(x: Rx, bytes: seq<Byte>): Rx
    decreases |bytes|
  {
    if bytes == [] then x else After(Feed(x, bytes[0]).0, bytes[1..])
  }

  /** The frames completed by a stretch of input. */
  function Received(x: Rx, bytes: seq<Byte>): seq<Frame>
    decreases |bytes|
  {
    if bytes == [] then []
    else
      var (y, f) := Feed(x, bytes[0]);
      (if f.Some? then [f.value] else []) + Received(y, bytes[1..])
  }

  ghost predicate Yields(x: Rx, bytes: seq<Byte>, y: Rx, frames: seq<Frame>) {
    After(x, bytes) == y && Received(x, bytes) == frames
  }

  lemma {:induction false} FeedJoin(x: Rx, p: seq<Byte>, q: seq<Byte>)
    ensures After(x, p + q) == After(After(x, p), q)
    ensures Received(x, p + q) == Received(x, p) + Received(After(x, p), q)
    decreases |p|
  {
    if p == [] {
      assert p + q == q;
    } else {
      assert (p + q)[0] == p[0] && (p + q)[1..] == p[1..] + q;
      FeedJoin(Feed(x, p[0]).0, p[1..], q);
    }
  }

  /** Feeding a single byte. */
  lemma FeedOne(x: Rx, b: Byte)
    ensures Yields(x, [b], Feed(x, b).0, if Feed(x, b).1.Some? then [Feed(x, b).1.value] else [])
  {
    assert [b][1..] == [];
    assert Received(Feed(x, b).0, []) == [];
  }

  lemma FlipTwice(b: Byte)
    ensures Flip(Flip(b)) == b
    ensures b == FRAME || b == ESC ==> Flip(b) != FRAME && Flip(b) != ESC
  {
  }

  /** An escaped byte is received as itself. */
  lemma FeedEscape(x: Rx, b: Byte)
    requires !x.esc
    ensures Yields(x, Escape(b), Data(x, b), [])
    ensures FRAME !in Escape(b)
  {
    FlipTwice(b);
    if b == FRAME || b == ESC {
      FeedOne(x, ESC);
      FeedOne(x.(esc := true), Flip(b));
      FeedJoin(x, [ESC], [Flip(b)]);
      assert [ESC] + [Flip(b)] == Escape(b);
    } else {
      FeedOne(x, b);
    }
  }

  function DataAll(x: Rx, bytes: seq<Byte>): (r: Rx)
    requires !x.esc
    ensures !r.esc && r.data == x.data + bytes
    decreases |bytes|
  {
    if bytes == [] then x else DataAll(Data(x, bytes[0]), bytes[1..])
  }

  lemma {:induction false} FeedEscapeAll(x: Rx, bytes: seq<Byte>)
    requires !x.esc
    ensures Yields(x, EscapeAll(bytes), DataAll(x, bytes), [])
    ensures FRAME !in EscapeAll(bytes)
    decreases |bytes|
  {
    if bytes != [] {
      FeedEscape(x, bytes[0]);
      FeedEscapeAll(Data(x, bytes[0]), bytes[1..]);
      FeedJoin(x, Escape(bytes[0]), EscapeAll(bytes[1..]));
    }
  }

  lemma AddAssoc(a: Byte, b: Byte, c: Byte)
    ensures Add(Add(a, b), c) == Add(a, Add(b, c))
    ensures Add(0, a) == a
  {
  }

  lemma {:induction false} ChksumIsSum(x: Rx, bytes: seq<Byte>)
    requires !x.esc
    ensures DataAll(x, bytes).chksum == Add(x.chksum, Sum(bytes))
    decreases |bytes|
  {
    if bytes != [] {
      ChksumIsSum(Data(x, bytes[0]), bytes[1..]);
      AddAssoc(x.chksum, bytes[0], Sum(bytes[1..]));
    }
  }

  lemma {:induction false} SumJoin(p: seq<Byte>, q: seq<Byte>)
    ensures Sum(p + q) == Add(Sum(p), Sum(q))
  {
    if p == [] {
      assert p + q == q;
      AddAssoc(Sum(q), 0, 0);
    } else {
      assert (p + q)[1..] == p[1..] + q;
      SumJoin(p[1..], q);
      AddAssoc(p[0], Sum(p[1..]), Sum(q));
    }
  }

  /** The plain sum. */
  function Total(bytes: seq<Byte>): nat {
    if bytes == [] then 0 else bytes[0] + Total(bytes[1..])
  }

  /** The checksum is the sum of all bytes modulo 256. */
  lemma {:induction false} SumIsTotal(bytes: seq<Byte>)
    ensures Sum(bytes) == Total(bytes) % 0x100
  {
    if bytes != [] {
      SumIsTotal(bytes[1..]);
    }
  }

  lemma {:induction false} SumChanges(bytes: seq<Byte>, i: nat, b: Byte)
    requires i < |bytes| && b != bytes[i]
    ensures Sum(bytes[i := b]) != Sum(bytes)
  {
    var changed := bytes[i := b];
    if i == 0 {
      assert changed[1..] == bytes[1..];
    } else {
      assert changed[1..] == bytes[1..][i - 1 := b];
      SumChanges(bytes[1..], i - 1, b);
    }
  }

  /** The bytes of a record with its check byte sum to 0xFF. */
  lemma ContentSumsToGood(r: Record)
    ensures Sum(Content(r)) == 0xFF == GOOD_CHKSUM
  {
    var bytes := [r.seqNum, r.id] + Bytes(r.body);
    SumJoin(bytes, [Check(bytes)]);
    assert [Check(bytes)][1..] == [];
    assert Sum([Check(bytes)]) == Add(Check(bytes), 0);
  }

  /** The record as units: the check byte is escaped, the identifier is not. */
  function Units(r: Record): (us: seq<Unit>)
    ensures us != [] && !us[|us| - 1].raw
  {
    [Unit(r.seqNum, false), Unit(r.id, true)] + r.body + [Unit(Check([r.seqNum, r.id] + Bytes(r.body)), false)]
  }

  lemma {:induction false} PutJoin(p: seq<Unit>, q: seq<Unit>)
    ensures PutAll(p + q) == PutAll(p) + PutAll(q)
  {
    if p == [] {
      assert p + q == q;
    } else {
      assert (p + q)[1..] == p[1..] + q;
      PutJoin(p[1..], q);
      Assoc(Put(p[0]), PutAll(p[1..]), PutAll(q));
    }
  }

  lemma {:induction false} BytesJoin(p: seq<Unit>, q: seq<Unit>)
    ensures Bytes(p + q) == Bytes(p) + Bytes(q)
  {
    if p == [] {
      assert p + q == q;
    } else {
      assert (p + q)[1..] == p[1..] + q;
      BytesJoin(p[1..], q);
      Assoc([p[0].b], Bytes(p[1..]), Bytes(q));
    }
  }

  lemma PutOne(u: Unit)
    ensures PutAll([u]) == Put(u) && Bytes([u]) == [u.b]
  {
    assert [u][1..] == [];
  }

  lemma PutTwo(a: Unit, b: Unit)
    ensures PutAll([a, b]) == Put(a) + Put(b) && Bytes([a, b]) == [a.b, b.b]
  {
    PutOne(b);
    assert [a, b][1..] == [b];
  }

  lemma WireIsUnits(r: Record)
    ensures Wire(r) == PutAll(Units(r)) + [FRAME] && Bytes(Units(r)) == Content(r)
  {
    var a, b := Unit(r.seqNum, false), Unit(r.id, true);
    var c := Unit(Check([r.seqNum, r.id] + Bytes(r.body)), false);
    PutTwo(a, b);
    PutOne(c);
    PutJoin([a, b], r.body);
    PutJoin([a, b] + r.body, [c]);
    BytesJoin([a, b], r.body);
    BytesJoin([a, b] + r.body, [c]);
  }

  lemma {:induction false} CleanIsEscaped(us: seq<Unit>)
    requires Clean(us)
    ensures PutAll(us) == EscapeAll(Bytes(us))
  {
    if us != [] {
      CleanIsEscaped(us[1..]);
      assert us[0] in us;
    }
  }

  /** Nothing the transmitter leaves unescaped needs an escape. */
  predicate Framed(r: Record) {
    r.id != ESC && r.id != FRAME && Clean(r.body)
  }

  lemma FramedIsClean(r: Record)
    ensures Framed(r) <==> Clean(Units(r))
  {
    var us := Units(r);
    forall u | u in us ensures u in r.body || u == Unit(r.id, true) || !u.raw {
    }
    forall u | u in r.body ensures u in us {
      assert u in us[2..|us| - 1];
    }
    if Clean(us) {
      assert us[1] == Unit(r.id, true) && us[1] in us;
    }
  }

  /** The wire form is the escaped content, provided nothing left unescaped needs it. */
  lemma WireIsEscapedContent(r: Record)
    requires Framed(r)
    ensures Wire(r) == EscapeAll(Content(r)) + [FRAME]
  {
    WireIsUnits(r);
    FramedIsClean(r);
    CleanIsEscaped(Units(r));
  }

  lemma EscapeOne(b: Byte)
    ensures EscapeAll([b]) == Escape(b)
  {
    assert [b][1..] == [];
  }

  lemma {:induction false} EscapeJoin(p: seq<Byte>, q: seq<Byte>)
    ensures EscapeAll(p + q) == EscapeAll(p) + EscapeAll(q)
  {
    if p == [] {
      assert p + q == q;
    } else {
      assert (p + q)[1..] == p[1..] + q;
      EscapeJoin(p[1..], q);
    }
  }

  /** Data bytes up to the flag. */
  lemma FeedFrame(x: Rx, bytes: seq<Byte>)
    requires !x.esc
    ensures Yields(x, EscapeAll(bytes) + [FRAME],
                   IDLE, [Frame(Add(x.chksum, Sum(bytes)) == GOOD_CHKSUM, x.data + bytes)])
  {
    FeedEscapeAll(x, bytes);
    ChksumIsSum(x, bytes);
    FeedOne(DataAll(x, bytes), FRAME);
    FeedJoin(x, EscapeAll(bytes), [FRAME]);
  }

  /** A record is received as one good frame with exactly its content, and the receiver
      is ready for the next; inside it no flag occurs. */
  lemma RecordRoundTrip(r: Record)
    requires Framed(r)
    ensures Yields(IDLE, Wire(r), IDLE, [Frame(true, Content(r))])
    ensures FRAME !in Wire(r)[..|Wire(r)| - 1]
  {
    var c := Content(r);
    WireIsEscapedContent(r);
    FeedFrame(IDLE, c);
    ContentSumsToGood(r);
    AddAssoc(Sum(c), 0, 0);
    assert [] + c == c;
    FeedEscapeAll(IDLE, c);
    assert Wire(r)[..|Wire(r)| - 1] == EscapeAll(c);
  }

  // ------------------------------------------------------------------
  // Exactly when a record is received as itself

  /** What a receiver has: its data, and one byte more while an escape is open. */
  function Held(x: Rx): nat {
    |x.data| + if x.esc then 1 else 0
  }

  /** A unit completes a frame, or brings at most one byte. */
  lemma PutStep(x: Rx, u: Unit)
    ensures Received(x, Put(u)) == [] ==> Held(After(x, Put(u))) <= Held(x) + 1 && x.data <= After(x, Put(u)).data
    ensures !u.raw ==> Received(x, Put(u)) == [] && !After(x, Put(u)).esc
  {
    if u.raw || (u.b != ESC && u.b != FRAME) {
      FeedOne(x, u.b);
    } else if x.esc {
      StrayBeforeEscape(x, u.b);
    } else {
      FeedEscape(x, u.b);
    }
  }

  lemma {:induction false} PutBound(x: Rx, us: seq<Unit>)
    requires Received(x, PutAll(us)) == []
    ensures Held(After(x, PutAll(us))) <= Held(x) + |us| && x.data <= After(x, PutAll(us)).data
    decreases |us|
  {
    if us != [] {
      FeedJoin(x, Put(us[0]), PutAll(us[1..]));
      PutStep(x, us[0]);
      PutBound(After(x, Put(us[0])), us[1..]);
    }
  }

  /** After an escaped byte no escape is open. */
  lemma {:induction false} EndsClosed(x: Rx, us: seq<Unit>)
    requires us != [] && !us[|us| - 1].raw
    ensures !After(x, PutAll(us)).esc
    decreases |us|
  {
    FeedJoin(x, Put(us[0]), PutAll(us[1..]));
    if |us| == 1 {
      PutStep(x, us[0]);
    } else {
      EndsClosed(After(x, Put(us[0])), us[1..]);
    }
  }

  /** So the flag after it is seen. */
  lemma FlagIsSeen(x: Rx, us: seq<Unit>)
    requires us != [] && !us[|us| - 1].raw
    ensures var y := After(x, PutAll(us));
            Received(x, PutAll(us) + [FRAME]) == Received(x, PutAll(us)) + [Frame(y.chksum == GOOD_CHKSUM, y.data)]
  {
    EndsClosed(x, us);
    FeedJoin(x, PutAll(us), [FRAME]);
    FeedOne(After(x, PutAll(us)), FRAME);
  }

  /** The frames are not one frame with the data `data`. */
  ghost predicate Misread(frames: seq<Frame>, data: seq<Byte>) {
    |frames| != 1 || frames[0].data != data
  }

  /** A stray escape flips the next byte on the wire: either a byte goes missing or the
      escape itself comes out as 0x5D. */
  lemma StrayEscape(x: Rx, us: seq<Unit>)
    requires !x.esc && us != [] && !us[|us| - 1].raw
    ensures Misread(Received(x.(esc := true), PutAll(us) + [FRAME]), x.data + [ESC] + Bytes(us))
  {
    var y := x.(esc := true);
    var z := After(y, Put(us[0]));
    FlagIsSeen(y, us);
    if Received(y, PutAll(us)) == [] {
      FeedJoin(y, Put(us[0]), PutAll(us[1..]));
      PutBound(z, us[1..]);
      if us[0].raw || (us[0].b != ESC && us[0].b != FRAME) {
        FeedOne(y, us[0].b);
        assert Held(z) == |x.data| + 1;
      } else {
        StrayBeforeEscape(y, us[0].b);
        assert z.data[|x.data|] == 0x5D;
        assert (x.data + [ESC] + Bytes(us))[|x.data|] == ESC;
      }
    }
  }

  /** A stray flag ends the frame. */
  lemma StrayFlag(x: Rx, us: seq<Unit>)
    requires !x.esc && us != [] && !us[|us| - 1].raw
    ensures |Received(x, [FRAME] + (PutAll(us) + [FRAME]))| >= 2
  {
    FeedOne(x, FRAME);
    FeedJoin(x, [FRAME], PutAll(us) + [FRAME]);
    FlagIsSeen(IDLE, us);
  }

  lemma {:induction false} UncleanIsMisread(x: Rx, us: seq<Unit>)
    requires !x.esc && !Clean(us) && !us[|us| - 1].raw
    ensures Misread(Received(x, PutAll(us) + [FRAME]), x.data + Bytes(us))
    decreases |us|
  {
    var u, rest := us[0], us[1..];
    assert us == [u] + rest;
    var tail := PutAll(rest) + [FRAME];
    assert PutAll(us) + [FRAME] == Put(u) + tail;
    FeedJoin(x, Put(u), tail);
    assert x.data + Bytes(us) == x.data + [u.b] + Bytes(rest);
    if !NeedsEscape(u) {
      FeedEscape(x, u.b);
      UncleanIsMisread(Data(x, u.b), rest);
    } else if u.b == FRAME {
      StrayFlag(x, rest);
    } else {
      FeedOne(x, ESC);
      StrayEscape(x, rest);
    }
  }

  /** A record is received as itself if and only if nothing the transmitter leaves
      unescaped needs an escape: neither the identifier (the source keeps those below 0x7D)
      nor a character of a string. */
  lemma RecordRoundTripIff(r: Record)
    ensures Yields(IDLE, Wire(r), IDLE, [Frame(true, Content(r))]) <==> Framed(r)
  {
    if Framed(r) {
      RecordRoundTrip(r);
    } else {
      UnframedIsMisread(r);
    }
  }

  lemma UnframedIsMisread(r: Record)
    requires !Framed(r)
    ensures Misread(Received(IDLE, Wire(r)), Content(r))
  {
    var us := Units(r);
    FramedIsClean(r);
    WireIsUnits(r);
    UncleanIsMisread(IDLE, us);
    assert [] + Bytes(us) == Content(r);
  }

  lemma StrayBeforeEscape(x: Rx, b: Byte)
    requires x.esc && (b == FRAME || b == ESC)
    ensures Yields(x, Escape(b), Data(Data(x, 0x5D), Flip(b)), [])
  {
    var y := Data(x, 0x5D);
    assert Flip(ESC) == 0x5D && Flip(FRAME) == 0x5E;
    FeedOne(x, ESC);
    FeedOne(y, Flip(b));
    FeedJoin(x, [ESC], [Flip(b)]);
    assert [ESC] + [Flip(b)] == Escape(b);
  }

  predicate Sendable(rs: seq<Record>) {
    forall r <- rs :: Framed(r)
  }

  function Frames(rs: seq<Record>): seq<Frame> {
    if rs == [] then [] else [Frame(true, Content(rs[0]))] + Frames(rs[1..])
  }

  /** A receiver at a frame boundary gets back every list of records. */
  lemma {:induction false} StreamRoundTrip(rs: seq<Record>)
    requires Sendable(rs)
    ensures Yields(IDLE, WireAll(rs), IDLE, Frames(rs))
    decreases |rs|
  {
    if rs != [] {
      RecordRoundTrip(rs[0]);
      StreamRoundTrip(rs[1..]);
      FeedJoin(IDLE, Wire(rs[0]), WireAll(rs[1..]));
    }
  }

  /** A record of which one data byte is changed on the way, and nothing else, is received
      as a bad frame. */
  lemma ChangedByteIsNoticed(r: Record, i: nat, b: Byte)
    requires i < |Content(r)| && b != Content(r)[i]
    ensures Yields(IDLE, EscapeAll(Content(r)[i := b]) + [FRAME], IDLE, [Frame(false, Content(r)[i := b])])
  {
    var c := Content(r)[i := b];
    ContentSumsToGood(r);
    SumChanges(Content(r), i, b);
    FeedFrame(IDLE, c);
    AddAssoc(Sum(c), 0, 0);
    assert [] + c == c;
  }

  // ------------------------------------------------------------------
  // Joining the stream in the middle

  /** Escaped bytes read from any offset complete no frame and leave no escape open. */
  lemma {:induction false} JoinInsideEscapes(x: Rx, bytes: seq<Byte>, k: nat)
    requires !x.esc && k <= |EscapeAll(bytes)|
    ensures !After(x, EscapeAll(bytes)[k..]).esc
    ensures Received(x, EscapeAll(bytes)[k..]) == []
    decreases |bytes|
  {
    if k == 0 {
      assert EscapeAll(bytes)[0..] == EscapeAll(bytes);
      FeedEscapeAll(x, bytes);
    } else if k >= |Escape(bytes[0])| {
      assert EscapeAll(bytes)[k..] == EscapeAll(bytes[1..])[k - |Escape(bytes[0])|..];
      JoinInsideEscapes(x, bytes[1..], k - |Escape(bytes[0])|);
    } else {
      var b := Flip(bytes[0]);
      FlipTwice(bytes[0]);
      assert EscapeAll(bytes)[1..] == [b] + EscapeAll(bytes[1..]);
      FeedOne(x, b);
      FeedEscapeAll(Data(x, b), bytes[1..]);
      FeedJoin(x, [b], EscapeAll(bytes[1..]));
    }
  }

  /** What is left of a record closes one frame, good or bad, whatever the receiver has
      read before, and the receiver is back at a frame boundary. */
  lemma JoinInsideRecord(x: Rx, r: Record, k: nat)
    requires !x.esc && Framed(r) && k < |Wire(r)|
    ensures After(x, Wire(r)[k..]) == IDLE
    ensures |Received(x, Wire(r)[k..])| == 1
  {
    var c := Content(r);
    WireIsEscapedContent(r);
    var head := EscapeAll(c)[k..];
    assert Wire(r)[k..] == head + [FRAME];
    JoinInsideEscapes(x, c, k);
    FeedJoin(x, head, [FRAME]);
    FeedOne(After(x, head), FRAME);
  }

  /** From a state without an open escape, the rest of record r closes one frame, and every
      later record is received. */
  lemma RestOfRecord(x: Rx, r: Record, i: nat, later: seq<Record>) returns (first: Frame)
    requires !x.esc && Sendable([r]) && Sendable(later) && i < |Wire(r)|
    ensures Yields(x, Wire(r)[i..] + WireAll(later), IDLE, [first] + Frames(later))
    ensures x == IDLE && i == 0 ==> first == Frame(true, Content(r))
  {
    assert r in [r];
    JoinInsideRecord(x, r, i);
    var part := Wire(r)[i..];
    first := Received(x, part)[0];
    assert Received(x, part) == [first];
    FeedJoin(x, part, WireAll(later));
    StreamRoundTrip(later);
    if x == IDLE && i == 0 {
      assert part == Wire(r);
      RecordRoundTrip(r);
    }
  }

  /** An open escape takes the next byte, whatever it is. */
  lemma OpenEscape(x: Rx, b: Byte, bytes: seq<Byte>)
    requires x.esc
    ensures var y := Data(x, Flip(b));
            After(x, [b] + bytes) == After(y, bytes) && Received(x, [b] + bytes) == Received(y, bytes)
  {
    FeedOne(x, b);
    FeedJoin(x, [b], bytes);
  }

  /** The only flag of a record is its last byte. */
  lemma FlagEndsRecord(r: Record, i: nat)
    requires Sendable([r]) && i < |Wire(r)|
    ensures Wire(r)[i] == FRAME <==> i == |Wire(r)| - 1
  {
    assert r in [r];
    var w := Wire(r);
    RecordRoundTrip(r);
    if i < |w| - 1 {
      assert w[i] == w[..|w| - 1][i] && w[i] in w[..|w| - 1];
    }
  }

  /** What a receiver in state x gets from the rest of record r and later records. */
  ghost predicate Continues(x: Rx, r: Record, i: nat, later: seq<Record>, bytes: seq<Byte>, first: Frame)
    requires i < |Wire(r)|
  {
    if x.esc && Wire(r)[i] == FRAME then
      if later == [] then Received(x, bytes) == [] else Yields(x, bytes, IDLE, [first] + Frames(later[1..]))
    else
      Yields(x, bytes, IDLE, [first] + Frames(later)) && (x == IDLE && i == 0 ==> first == Frame(true, Content(r)))
  }

  lemma ContinuesInRecord(x: Rx, r: Record, i: nat, later: seq<Record>) returns (first: Frame)
    requires Sendable([r]) && Sendable(later) && i < |Wire(r)|
    ensures Continues(x, r, i, later, Wire(r)[i..] + WireAll(later), first)
  {
    if x.esc {
      var b, y := Wire(r)[i], Data(x, Flip(Wire(r)[i]));
      FlagEndsRecord(r, i);
      var rest := Wire(r)[i + 1..] + WireAll(later);
      assert Wire(r)[i..] + WireAll(later) == [b] + rest;
      OpenEscape(x, b, rest);
      if b != FRAME {
        first := RestOfRecord(y, r, i + 1, later);
      } else {
        assert rest == WireAll(later);
        first := AfterSwallowedFlag(y, later);
      }
    } else {
      first := RestOfRecord(x, r, i, later);
    }
  }

  /** A flag went missing, so the next record closes the frame. */
  lemma AfterSwallowedFlag(y: Rx, later: seq<Record>) returns (first: Frame)
    requires !y.esc && Sendable(later)
    ensures later != [] ==> Yields(y, WireAll(later), IDLE, [first] + Frames(later[1..]))
    ensures later == [] ==> Received(y, WireAll(later)) == []
  {
    first := Frame(false, []);
    if later != [] {
      var r := later[0];
      first := RestOfRecord(y, r, 0, later[1..]);
      assert Wire(r)[0..] == Wire(r);
    }
  }

  /** Every offset lies in some record. */
  lemma {:induction false} Locate(rs: seq<Record>, k: nat) returns (j: nat, i: nat)
    requires k < |WireAll(rs)|
    ensures j < |rs| && i < |Wire(rs[j])| && k == |WireAll(rs[..j])| + i
    ensures WireAll(rs)[k..] == Wire(rs[j])[i..] + WireAll(rs[j + 1..])
    decreases |rs|
  {
    var here := |Wire(rs[0])|;
    if k < here {
      j, i := 0, k;
      assert rs[..0] == [];
      DropInside(Wire(rs[0]), WireAll(rs[1..]), k);
    } else {
      j, i := Locate(rs[1..], k - here);
      LocateLater(rs, k, j);
      j := j + 1;
    }
  }

  lemma DropInside<T>(a: seq<T>, b: seq<T>, k: nat)
    requires k <= |a|
    ensures (a + b)[k..] == a[k..] + b
  {
  }

  lemma DropPast<T>(a: seq<T>, b: seq<T>, k: nat)
    requires |a| <= k <= |a| + |b|
    ensures (a + b)[k..] == b[k - |a|..]
  {
  }

  lemma LocateLater(rs: seq<Record>, k: nat, j: nat)
    requires rs != [] && |Wire(rs[0])| <= k < |WireAll(rs)| && j < |rs| - 1
    ensures WireAll(rs)[k..] == WireAll(rs[1..])[k - |Wire(rs[0])|..]
    ensures |WireAll(rs[..j + 1])| == |Wire(rs[0])| + |WireAll(rs[1..][..j])|
    ensures rs[j + 1] == rs[1..][j] && rs[j + 2..] == rs[1..][j + 1..]
  {
    DropPast(Wire(rs[0]), WireAll(rs[1..]), k);
    WirePrefix(rs, j);
  }

  lemma WirePrefix(rs: seq<Record>, j: nat)
    requires j < |rs|
    ensures |WireAll(rs[..j + 1])| == |Wire(rs[0])| + |WireAll(rs[1..][..j])|
  {
    var p := rs[..j + 1];
    assert p[0] == rs[0] && p[1..] == rs[1..][..j];
  }

  /** A receiver that goes on with the stream at any offset and in any state.  Without an
      open escape it loses at most the record it goes on in: record j gives one frame,
      every later record is received intact.  An open escape costs one more record if and
      only if the byte it swallows is the flag of record j. */
  lemma Resynchronises(x: Rx, rs: seq<Record>, k: nat) returns (j: nat, i: nat, first: Frame)
    requires Sendable(rs) && k < |WireAll(rs)|
    ensures j < |rs| && i < |Wire(rs[j])| && k == |WireAll(rs[..j])| + i
    ensures Continues(x, rs[j], i, rs[j + 1..], WireAll(rs)[k..], first)
  {
    j, i := Locate(rs, k);
    first := ContinuesInRecord(x, rs[j], i, rs[j + 1..]);
  }

  lemma WireOne(r: Record)
    ensures WireAll([r]) == Wire(r)
  {
    assert [r][1..] == [];
    assert WireAll([]) == [];
  }

  lemma {:induction false} WireJoin(p: seq<Record>, q: seq<Record>)
    ensures WireAll(p + q) == WireAll(p) + WireAll(q)
  {
    if p == [] {
      assert p + q == q;
    } else {
      assert (p + q)[1..] == p[1..] + q;
      WireJoin(p[1..], q);
    }
  }
}
