/** The QS transmit buffer of qs.c: a byte ring that is written whatever it holds and is
    brought back in order at the end of each record. */
module QsTrace {
  import opened Arith
  import opened Basics
  import opened QsFrame

  const EOD: nat := 0xFFFF

  function Min(a: int, b: int): int {
    if a <= b then a else b
  }

  /** What a counter of `range` values shows after counting to w. */
  function Low(w: nat, range: nat): (r: nat)
    requires range > 0
    ensures r < range
  {
    if w < range then w else Low(w - range, range)
  }

  lemma {:induction false} LowIsRemainder(w: nat, range: nat)
    requires range > 0
    ensures Low(w, range) == w % range
  {
    if w < range {
      DivModUnique(w, range, 0, w);
    } else {
      LowIsRemainder(w - range, range);
      DivModUnique(w, range, (w - range) / range + 1, (w - range) % range);
    }
  }

  /** One addition in the counter type. */
  function Plus(a: nat, n: nat, range: nat): (r: nat)
    requires a < range && n < range
    ensures r < range
  {
    if a + n < range then a + n else a + n - range
  }

  lemma {:induction false} LowStep(w: nat, n: nat, range: nat)
    requires n < range
    ensures Low(w + n, range) == Plus(Low(w, range), n, range)
  {
    if w >= range {
      LowStep(w - range, n, range);
      assert w + n - range == w - range + n;
    }
  }

  /** After a record that brings the waiting bytes to w: does the final test of QS_endRec_
      see the overrun?  It does if the counter has not wrapped or still shows more than the
      ring holds; `aligned` says that tail and head meet, and then nothing needs doing. */
  predicate Countable(w: nat, end: nat, range: nat, aligned: bool)
    requires range > 0
  {
    w < range || Low(w, range) > end || (Low(w, range) == end && aligned)
  }

  /** With a 16-bit counter: 65000 bytes waiting in a ring of 65000 and a record of 600. */
  lemma CounterWraps(aligned: bool)
    ensures !Countable(65600, 65000, 0x1_0000, aligned) && Low(65600, 0x1_0000) == 64
  {
    assert Low(65600, 0x1_0000) == Low(64, 0x1_0000);
  }

  // ------------------------------------------------------------------
  // Data elements

  /** The format bytes QS_STR_T and QS_MEM_T. */
  const STR_T: Byte := 8
  const MEM_T: Byte := 9

  /** The n least significant bytes of x, lowest first, escaped. */
  function Number(x: nat, n: nat): seq<Unit> {
    if n == 0 then [] else [Unit(x % 0x100, false)] + Number(x / 0x100, n - 1)
  }

  lemma NumberStep(done: seq<Unit>, x: nat, n: nat, all: seq<Unit>)
    requires n > 0 && done + Number(x, n) == all
    ensures done + [Unit(x % 0x100, false)] + Number(x / 0x100, n - 1) == all
  {
  }

  /** The first n of the bytes. */
  function All(bytes: seq<Byte>, n: nat, raw: bool): seq<Unit>
    requires n <= |bytes|
  {
    if n == 0 then [] else All(bytes, n - 1, raw) + [Unit(bytes[n - 1], raw)]
  }

  /** A number of 1, 2, 4 or 8 bytes without and with a format byte, a memory block, a
      string without and with a format byte. */
  datatype Element =
    | Raw(width: nat, d: nat)
    | Fmt(format: Byte, width: nat, d: nat)
    | Mem(blk: seq<Byte>)
    | Str(formatted: bool, chars: seq<Byte>)

  predicate Legal(e: Element) {
    match e
    case Raw(width, _) => width in {1, 2, 4, 8}
    case Fmt(_, width, _) => width in {1, 2, 4, 8}
    case Mem(blk) => |blk| < 0x100
    case Str(_, chars) => 0 !in chars
  }

  /** What an element puts into the record: the characters of a string and the format bytes
      of strings and blocks are not escaped. */
  function UnitsOf(e: Element): seq<Unit>
    requires Legal(e)
  {
    match e
    case Raw(width, d) => Number(d, width)
    case Fmt(format, width, d) => [Unit(format, false)] + Number(d, width)
    case Mem(blk) => [Unit(MEM_T, true), Unit(|blk|, false)] + All(blk, |blk|, false)
    case Str(formatted, chars) => Prefix(formatted) + All(chars, |chars|, true) + [Unit(0, true)]
  }

  function Prefix(formatted: bool): seq<Unit> {
    if formatted then [Unit(STR_T, true)] else []
  }

  /** The parts one after the other, up to part n. */
  function Flat(parts: seq<seq<Unit>>, n: nat): seq<Unit>
    requires n <= |parts|
  {
    if n == 0 then [] else Flat(parts, n - 1) + parts[n - 1]
  }

  /** `parts` are what the elements put into the record. */
  ghost predicate LaidOut(es: seq<Element>, parts: seq<seq<Unit>>) {
    && |parts| == |es|
    && forall i {:trigger es[i]} :: 0 <= i < |es| ==> Legal(es[i]) && parts[i] == UnitsOf(es[i])
  }

  /** 256^n */
  function Power(n: nat): (p: nat)
    ensures p > 0
  {
    if n == 0 then 1 else 0x100 * Power(n - 1)
  }

  /** The number that bytes stand for, lowest first. */
  function Value(bytes: seq<Byte>): nat {
    if bytes == [] then 0 else bytes[0] + 0x100 * Value(bytes[1..])
  }

  /** A number is sent as so many bytes, which stand for it modulo 256^n. */
  lemma {:induction false} NumberIsValue(x: nat, n: nat)
    ensures |Bytes(Number(x, n))| == n
    ensures Value(Bytes(Number(x, n))) == x % Power(n)
  {
    if n > 0 {
      NumberIsValue(x / 0x100, n - 1);
      var rest := Number(x / 0x100, n - 1);
      assert ([Unit(x % 0x100, false)] + rest)[1..] == rest;
      assert ([x % 0x100] + Bytes(rest))[1..] == Bytes(rest);
      RemainderSplits(x, Power(n - 1));
    }
  }

  lemma RemainderSplits(x: nat, p: nat)
    requires p > 0
    ensures x % (0x100 * p) == x % 0x100 + 0x100 * ((x / 0x100) % p)
  {
    var hi, lo := x / 0x100, x % 0x100;
    var q, r := hi / p, hi % p;
    assert hi == q * p + r;
    assert x == q * (0x100 * p) + (0x100 * r + lo);
    DivModUnique(x, 0x100 * p, q, 0x100 * r + lo);
  }

  lemma {:induction false} AllIsBytes(bytes: seq<Byte>, n: nat, raw: bool)
    requires n <= |bytes|
    ensures Bytes(All(bytes, n, raw)) == bytes[..n]
  {
    if n > 0 {
      AllIsBytes(bytes, n - 1, raw);
      var u := Unit(bytes[n - 1], raw);
      BytesJoin(All(bytes, n - 1, raw), [u]);
      PutOne(u);
      assert bytes[..n] == bytes[..n - 1] + [bytes[n - 1]];
    }
  }

  /** The bytes an element means on the wire: a number as the given number of bytes that
      stand for it, after the format byte if there is one; a block after its format byte 9
      and its size; a string up to its zero, after the format byte 8 if there is one. */
  ghost predicate Means(e: Element, bytes: seq<Byte>) {
    match e
    case Raw(width, d) => |bytes| == width && Value(bytes) == d % Power(width)
    case Fmt(format, width, d) =>
      |bytes| == width + 1 && bytes[0] == format && Value(bytes[1..]) == d % Power(width)
    case Mem(blk) => bytes == [9, |blk|] + blk
    case Str(formatted, chars) => bytes == (if formatted then [8] else []) + chars + [0]
  }

  lemma ElementMeans(e: Element)
    requires Legal(e)
    ensures Means(e, Bytes(UnitsOf(e)))
  {
    match e
    case Raw(width, d) => NumberIsValue(d, width);
    case Fmt(format, width, d) =>
      NumberIsValue(d, width);
      assert ([Unit(format, false)] + Number(d, width))[1..] == Number(d, width);
      assert ([format] + Bytes(Number(d, width)))[1..] == Bytes(Number(d, width));
    case Mem(blk) => MemMeans(blk);
    case Str(formatted, chars) => StrMeans(formatted, chars);
  }

  lemma MemMeans(blk: seq<Byte>)
    requires |blk| < 0x100
    ensures Bytes(UnitsOf(Mem(blk))) == [9, |blk|] + blk
  {
    var a, b := Unit(MEM_T, true), Unit(|blk|, false);
    AllIsBytes(blk, |blk|, false);
    PutTwo(a, b);
    BytesJoin([a, b], All(blk, |blk|, false));
    assert blk[..|blk|] == blk;
  }

  lemma StrMeans(formatted: bool, chars: seq<Byte>)
    requires 0 !in chars
    ensures Bytes(UnitsOf(Str(formatted, chars))) == (if formatted then [8] else []) + chars + [0]
  {
    var p, cs := Prefix(formatted), All(chars, |chars|, true);
    AllIsBytes(chars, |chars|, true);
    BytesJoin(p, cs);
    BytesJoin(p + cs, [Unit(0, true)]);
    PutOne(Unit(0, true));
    PutOne(Unit(STR_T, true));
    assert chars[..|chars|] == chars;
  }

  lemma {:induction false} FlatBytes(parts: seq<seq<Unit>>, n: nat) returns (bs: seq<seq<Byte>>)
    requires n <= |parts|
    ensures |bs| == n && forall i :: 0 <= i < n ==> bs[i] == Bytes(parts[i])
    ensures Bytes(Flat(parts, n)) == Joined(bs, n)
  {
    bs := [];
    if n > 0 {
      var init := FlatBytes(parts, n - 1);
      bs := init + [Bytes(parts[n - 1])];
      BytesJoin(Flat(parts, n - 1), parts[n - 1]);
      JoinedPrefix(init, [Bytes(parts[n - 1])], n - 1);
    }
  }

  function Joined(bs: seq<seq<Byte>>, n: nat): seq<Byte>
    requires n <= |bs|
  {
    if n == 0 then [] else Joined(bs, n - 1) + bs[n - 1]
  }

  lemma {:induction false} JoinedPrefix(bs: seq<seq<Byte>>, more: seq<seq<Byte>>, n: nat)
    requires n <= |bs|
    ensures Joined(bs + more, n) == Joined(bs, n)
  {
    if n > 0 {
      JoinedPrefix(bs, more, n - 1);
    }
  }

  /** A receiver of a record of any elements sees the sequence number, the identifier, what
      each element means in order, and a byte that makes the sum 0xFF. */
  lemma RecordMeans(seqNum: Byte, id: Byte, es: seq<Element>, parts: seq<seq<Unit>>) returns (bs: seq<seq<Byte>>, check: Byte)
    requires LaidOut(es, parts)
    ensures |bs| == |es| && forall i :: 0 <= i < |es| ==> Means(es[i], bs[i])
    ensures Content(Record(seqNum, id, Flat(parts, |parts|))) == [seqNum, id] + Joined(bs, |bs|) + [check]
    ensures Sum(Content(Record(seqNum, id, Flat(parts, |parts|)))) == 0xFF
  {
    var r := Record(seqNum, id, Flat(parts, |parts|));
    bs := FlatBytes(parts, |parts|);
    check := Check([seqNum, id] + Bytes(r.body));
    ContentSumsToGood(r);
    forall i | 0 <= i < |es| ensures Means(es[i], bs[i]) {
      ElementMeans(es[i]);
    }
  }

  lemma {:induction false} NumberIsClean(x: nat, n: nat)
    ensures Clean(Number(x, n))
  {
    if n > 0 {
      NumberIsClean(x / 0x100, n - 1);
    }
  }

  lemma {:induction false} AllIsClean(bytes: seq<Byte>, n: nat, raw: bool)
    requires n <= |bytes|
    ensures Clean(All(bytes, n, raw)) <==> !raw || forall i :: 0 <= i < n ==> bytes[i] != ESC && bytes[i] != FRAME
  {
    if n > 0 {
      AllIsClean(bytes, n - 1, raw);
      CleanOne(Unit(bytes[n - 1], raw));
      CleanJoin(All(bytes, n - 1, raw), [Unit(bytes[n - 1], raw)]);
    }
  }

  lemma CleanOne(u: Unit)
    ensures Clean([u]) <==> !NeedsEscape(u)
  {
    assert [u][0] == u;
  }

  lemma CleanJoin(p: seq<Unit>, q: seq<Unit>)
    ensures Clean(p + q) <==> Clean(p) && Clean(q)
  {
    forall i | 0 <= i < |q| ensures q[i] == (p + q)[|p| + i] {
    }
    forall i | 0 <= i < |p| ensures p[i] == (p + q)[i] {
    }
  }

  /** Is there no character that QS_str_raw_ and QS_str_fmt_ should have escaped? */
  predicate Readable(e: Element) {
    e.Str? ==> ESC !in e.chars && FRAME !in e.chars
  }

  lemma ElementIsClean(e: Element)
    requires Legal(e)
    ensures Clean(UnitsOf(e)) <==> Readable(e)
  {
    match e
    case Raw(width, d) => NumberIsClean(d, width);
    case Fmt(format, width, d) => NumberIsClean(d, width); CleanJoin([Unit(format, false)], Number(d, width));
    case Mem(blk) =>
      AllIsClean(blk, |blk|, false);
      CleanJoin([Unit(MEM_T, true), Unit(|blk|, false)], All(blk, |blk|, false));
    case Str(formatted, chars) =>
      AllIsClean(chars, |chars|, true);
      CleanJoin(Prefix(formatted), All(chars, |chars|, true));
      CleanJoin(Prefix(formatted) + All(chars, |chars|, true), [Unit(0, true)]);
  }

  lemma {:induction false} FlatIsClean(parts: seq<seq<Unit>>, n: nat)
    requires n <= |parts|
    ensures Clean(Flat(parts, n)) <==> forall i :: 0 <= i < n ==> Clean(parts[i])
  {
    if n > 0 {
      FlatIsClean(parts, n - 1);
      CleanJoin(Flat(parts, n - 1), parts[n - 1]);
    }
  }

  lemma ElementsAreClean(es: seq<Element>, parts: seq<seq<Unit>>)
    requires LaidOut(es, parts)
    ensures Clean(Flat(parts, |parts|)) <==> forall e <- es :: Readable(e)
  {
    FlatIsClean(parts, |parts|);
    forall i | 0 <= i < |es| ensures Clean(parts[i]) <==> Readable(es[i]) {
      ElementIsClean(es[i]);
    }
    if Clean(Flat(parts, |parts|)) {
      forall i | 0 <= i < |es| ensures Readable(es[i]) {
        assert Clean(parts[i]);
      }
    }
  }

  /** A record of any elements is received as itself if and only if its identifier needs no
      escape and no string in it has a character 0x7D or 0x7E, that is '}' or '~'. */
  lemma ElementsRoundTripIff(seqNum: Byte, id: Byte, es: seq<Element>, parts: seq<seq<Unit>>)
    requires LaidOut(es, parts)
    ensures var r := Record(seqNum, id, Flat(parts, |parts|));
            Yields(IDLE, Wire(r), IDLE, [Frame(true, Content(r))])
            <==> id != ESC && id != FRAME && forall e <- es :: Readable(e)
  {
    RecordRoundTripIff(Record(seqNum, id, Flat(parts, |parts|)));
    ElementsAreClean(es, parts);
  }

  /** The shortest failing record: the one string "}". */
  lemma BraceIsMisread(seqNum: Byte)
    ensures var r := Record(seqNum, 100, UnitsOf(Str(false, [ESC])));
            !Yields(IDLE, Wire(r), IDLE, [Frame(true, Content(r))])
  {
    var e := Str(false, [ESC]);
    var parts := [UnitsOf(e)];
    assert e in [e] && !Readable(e);
    ElementsRoundTripIff(seqNum, 100, [e], parts);
    assert Flat(parts, 1) == Flat(parts, 0) + parts[0] == UnitsOf(e);
  }

  function Extended(stream: seq<Byte>, us: seq<Unit>): seq<Byte> {
    stream + PutAll(us)
  }

  lemma ExtendedByOne(stream: seq<Byte>, us: seq<Unit>, u: Unit)
    ensures Extended(stream, us + [u]) == Extended(stream, us) + Put(u)
  {
    PutJoin(us, [u]);
    PutOne(u);
    Assoc(stream, PutAll(us), Put(u));
  }

  lemma SumOneMore(sum: Byte, us: seq<Unit>, u: Unit)
    ensures Add(sum, Sum(Bytes(us + [u]))) == Add(Add(sum, Sum(Bytes(us))), u.b)
  {
    BytesJoin(us, [u]);
    PutOne(u);
    SumOfOneMore(Bytes(us), u.b);
    AddAssoc(sum, Sum(Bytes(us)), u.b);
  }

  lemma SumOfOneMore(bytes: seq<Byte>, b: Byte)
    ensures Sum(bytes + [b]) == Add(Sum(bytes), b)
  {
    SumJoin(bytes, [b]);
    SumOfOne(b);
  }

  lemma SumOfOne(b: Byte)
    ensures Sum([b]) == b
  {
    assert [b][1..] == [];
  }

  lemma ExtendedByNothing(stream: seq<Byte>, sum: Byte)
    ensures Extended(stream, []) == stream && Add(sum, Sum(Bytes([]))) == sum
  {
  }

  lemma SumOfTwo(a: Byte, b: Byte)
    ensures Sum([a, b]) == Add(a, b)
  {
    SumOfOne(a);
    SumOfOneMore([a], b);
    assert [a] + [b] == [a, b];
  }

  lemma Regroup<T>(w: seq<T>, a: seq<T>, b: seq<T>, c: seq<T>, d: seq<T>, e: seq<T>)
    ensures w + (a + b) + c + (d + e) == w + (a + b + c + d + e)
  {
  }

  /** What is written after `before` by beginRec, the data elements and endRec. */
  function Pieces(before: seq<Byte>, r: Record): seq<Byte> {
    var chksum := Add(Sum([r.seqNum, r.id]), Sum(Bytes(r.body)));
    Extended(before + (Escape(r.seqNum) + [r.id]), r.body) + (Escape(0xFF - chksum) + [FRAME])
  }

  /** It makes up the record. */
  lemma PiecesMakeWire(records: seq<Record>, r: Record)
    ensures Pieces(WireAll(records), r) == WireAll(records + [r])
  {
    var check := Check([r.seqNum, r.id] + Bytes(r.body));
    SumJoin([r.seqNum, r.id], Bytes(r.body));
    Regroup(WireAll(records), Escape(r.seqNum), [r.id], PutAll(r.body), Escape(check), [FRAME]);
    WireJoin(records, [r]);
    WireOne(r);
  }

  lemma TailIsReceived(x: Rx, records: seq<Record>, stream: seq<Byte>, k: nat, tail: seq<Byte>)
    returns (j: nat, i: nat, first: Frame)
    requires Sendable(records) && stream == WireAll(records) && k < |stream| && tail == stream[k..]
    ensures j < |records| && i < |Wire(records[j])| && k == |WireAll(records[..j])| + i
    ensures Continues(x, records[j], i, records[j + 1..], tail, first)
  {
    j, i, first := Resynchronises(x, records, k);
  }

  class Tx {
    /** The number of values of QSCtr, which has at least 16 bits. */
    const range: nat
    const buf: array<Byte>
    var head: nat
    var tail: nat
    var used: nat
    var seqNum: Byte
    var chksum: Byte

    /** Every byte ever written, every byte handed out, and the number overwritten
        before they were handed out. */
    ghost var stream: seq<Byte>
    ghost var out: seq<Byte>
    ghost var lost: nat

    /** The ring holds the most recent bytes of the stream. */
    ghost predicate Recent()
      reads this, buf
    {
      && 8 < buf.Length < range && 0x1_0000 <= range && head < buf.Length && used < range
      && forall k :: 1 <= k <= buf.Length && k <= |stream| ==> buf[Slot(head, k, buf.Length)] == stream[|stream| - k]
    }

    /** The number of bytes written and neither handed out nor lost. */
    ghost function Waiting(): int
      reads this
    {
      |stream| - |out| - lost
    }

    /** They lie between tail and head, unless they have lapped the ring. */
    ghost predicate Ring()
      reads this, buf
    {
      && Recent() && tail < buf.Length && Waiting() >= 0
      && (lost == 0 ==> out == stream[..|out|])
      && (Waiting() <= buf.Length ==> tail == Slot(head, Waiting(), buf.Length))
    }

    /** The counter is n bytes ahead of what has been written. */
    ghost predicate Ahead(n: nat)
      reads this, buf
    {
      Ring() && used == Low(Waiting() + n, range)
    }

    /** Inside a record. */
    ghost predicate Open()
      reads this, buf
    {
      Ahead(0)
    }

    /** Between records. */
    ghost predicate Valid()
      reads this, buf
    {
      Ring() && used == Waiting() <= buf.Length
    }

    /** The bytes waiting to be sent. */
    ghost function Pending(): seq<Byte>
      requires Valid()
      reads this, buf
    {
      stream[|stream| - used..]
    }

    /** QS_initBuf, before its first records. */
    constructor (sto: array<Byte>, range: nat)
      requires 8 < sto.Length < range && 0x1_0000 <= range
      ensures Valid() && buf == sto && this.range == range && stream == [] && out == [] && lost == 0 && seqNum == 0
    {
      buf, this.range := sto, range;
      head, tail, used, seqNum, chksum := 0, 0, 0, 0, 0;
      stream, out, lost := [], [], 0;
    }

    /** QS_INSERT_BYTE_ */
    method InsertByte(b: Byte)
      requires Ring()
      modifies `head, `stream, buf
      ensures Ring()
      ensures stream == old(stream) + [b]
    {
      ghost var was := head;
      buf[head] := b;
      head := head + 1;
      if head == buf.Length {
        head := 0;
      }
      stream := stream + [b];
      forall k | 1 <= k <= buf.Length && k <= |stream|
        ensures buf[Slot(head, k, buf.Length)] == stream[|stream| - k]
      {
        assert Slot(head, k, buf.Length) == Slot(was, k - 1, buf.Length);
      }
    }

    /** Count n bytes about to be added. */
    method Count(n: nat, ghost m: nat)
      requires Ahead(m) && n < 0x1_0000
      modifies `used
      ensures Ahead(m + n)
    {
      LowStep(Waiting() + m, n, range);
      used := Plus(used, n, range);
    }

    /** One of them. */
    method InsertCounted(b: Byte, ghost n: nat)
      requires Ahead(n) && n > 0
      modifies `head, `stream, buf
      ensures Ahead(n - 1) && stream == old(stream) + [b]
    {
      InsertByte(b);
      assert Waiting() + (n - 1) == old(Waiting()) + n;
    }

    /** The branch of QS_INSERT_ESC_BYTE_ and QS_endRec_; the caller has counted one byte
        already. */
    method InsertEscaped(b: Byte, ghost n: nat)
      requires Ahead(n) && n > 0
      modifies `head, `used, `stream, buf
      ensures Ahead(n - 1)
      ensures stream == old(stream) + Escape(b)
    {
      if b != FRAME && b != ESC {
        InsertCounted(b, n);
      } else {
        InsertCounted(ESC, n);
        InsertByte(Flip(b));
        LowStep(old(Waiting()) + n, 1, range);
        used := Plus(used, 1, range);
        assert Waiting() + (n - 1) == old(Waiting()) + n + 1;
      }
    }

    /** The two bytes a record begins with; the identifier is not escaped. */
    method InsertStart(b: Byte, rec: Byte)
      requires Open()
      modifies `head, `used, `stream, buf
      ensures Open() && stream == old(stream) + (Escape(b) + [rec])
    {
      Count(2, 0);
      InsertEscaped(b, 2);
      InsertCounted(rec, 1);
      Assoc(old(stream), Escape(b), [rec]);
    }

    /** QS_beginRec_ */
    method BeginRec(rec: Byte)
      requires Valid()
      modifies `head, `used, `seqNum, `chksum, `stream, buf
      ensures Open()
      ensures seqNum == Add(old(seqNum), 1)
      ensures stream == old(stream) + (Escape(seqNum) + [rec])
      ensures chksum == Sum([seqNum, rec])
    {
      var b: Byte := (seqNum + 1) % 0x100;
      seqNum := b;
      InsertStart(b, rec);
      chksum := (b + rec) % 0x100;
      SumOfTwo(b, rec);
    }

    /** The units `done` have been appended to `from`, with checksum `sum` before. */
    ghost predicate Writing(from: seq<Byte>, sum: Byte, done: seq<Unit>)
      reads this
    {
      stream == Extended(from, done) && chksum == Add(sum, Sum(Bytes(done)))
    }

    /** QS_INSERT_ESC_BYTE_, or QS_INSERT_BYTE_ with the byte added to the checksum. */
    method InsertUnit(u: Unit, ghost from: seq<Byte>, ghost sum: Byte, ghost done: seq<Unit>, ghost n: nat)
      requires Ahead(n) && n > 0 && Writing(from, sum, done)
      modifies `head, `used, `chksum, `stream, buf
      ensures Ahead(n - 1) && Writing(from, sum, done + [u])
    {
      ExtendedByOne(from, done, u);
      SumOneMore(sum, done, u);
      chksum := (chksum + u.b) % 0x100;
      if u.raw {
        InsertCounted(u.b, n);
      } else {
        InsertEscaped(u.b, n);
      }
    }

    /** QS_u8_raw_ */
    method U8(d: nat, ghost from: seq<Byte>, ghost sum: Byte, ghost done: seq<Unit>)
      requires Open() && Writing(from, sum, done)
      modifies `head, `used, `chksum, `stream, buf
      ensures Open() && Writing(from, sum, done + UnitsOf(Raw(1, d)))
    {
      Count(1, 0);
      InsertUnit(Unit(d % 0x100, false), from, sum, done, 1);
      assert Number(d, 1) == [Unit(d % 0x100, false)];
    }

    /** QS_u16_raw_ */
    method U16(d: nat, ghost from: seq<Byte>, ghost sum: Byte, ghost done: seq<Unit>)
      requires Open() && Writing(from, sum, done)
      modifies `head, `used, `chksum, `stream, buf
      ensures Open() && Writing(from, sum, done + UnitsOf(Raw(2, d)))
    {
      Count(2, 0);
      ghost var lo, hi := Unit(d % 0x100, false), Unit(d / 0x100 % 0x100, false);
      InsertUnit(Unit(d % 0x100, false), from, sum, done, 2);
      InsertUnit(Unit(d / 0x100 % 0x100, false), from, sum, done + [lo], 1);
      assert Number(d / 0x100, 1) == [hi];
      assert done + [lo] + [hi] == done + Number(d, 2);
    }

    /** The loop that puts n bytes of a number, lowest first. */
    method InsertNumber(d: nat, n: nat, ghost from: seq<Byte>, ghost sum: Byte, ghost done: seq<Unit>)
      requires Ahead(n) && Writing(from, sum, done)
      modifies `head, `used, `chksum, `stream, buf
      ensures Open() && Writing(from, sum, done + Number(d, n))
    {
      var x, i := d, n;
      ghost var put, all := done, done + Number(d, n);
      while i != 0
        invariant put + Number(x, i) == all
        invariant Ahead(i) && Writing(from, sum, put)
      {
        InsertUnit(Unit(x % 0x100, false), from, sum, put, i);
        NumberStep(put, x, i, all);
        put := put + [Unit(x % 0x100, false)];
        x := x / 0x100;
        i := i - 1;
      }
      assert put == all;
    }

    /** QS_u32_raw_ */
    method U32(d: nat, ghost from: seq<Byte>, ghost sum: Byte, ghost done: seq<Unit>)
      requires Open() && Writing(from, sum, done)
      modifies `head, `used, `chksum, `stream, buf
      ensures Open() && Writing(from, sum, done + UnitsOf(Raw(4, d)))
    {
      Count(4, 0);
      InsertNumber(d, 4, from, sum, done);
    }

    /** QS_u64_raw_ */
    method U64(d: nat, ghost from: seq<Byte>, ghost sum: Byte, ghost done: seq<Unit>)
      requires Open() && Writing(from, sum, done)
      modifies `head, `used, `chksum, `stream, buf
      ensures Open() && Writing(from, sum, done + UnitsOf(Raw(8, d)))
    {
      Count(8, 0);
      InsertNumber(d, 8, from, sum, done);
    }

    /** QS_u8_fmt_, QS_u16_fmt_, QS_u32_fmt_ and QS_u64_fmt_; the first two write their bytes
        one by one instead of in a loop. */
    method Formatted(format: Byte, width: nat, d: nat, ghost from: seq<Byte>, ghost sum: Byte, ghost done: seq<Unit>)
      requires Open() && Writing(from, sum, done) && Legal(Fmt(format, width, d))
      modifies `head, `used, `chksum, `stream, buf
      ensures Open() && Writing(from, sum, done + UnitsOf(Fmt(format, width, d)))
    {
      Count(width + 1, 0);
      ghost var f := [Unit(format, false)];
      InsertUnit(Unit(format, false), from, sum, done, width + 1);
      InsertNumber(d, width, from, sum, done + f);
      Assoc(done, f, Number(d, width));
    }

    /** QS_mem_fmt_ */
    method MemBlock(blk: seq<Byte>, ghost from: seq<Byte>, ghost sum: Byte, ghost done: seq<Unit>)
      requires Open() && Writing(from, sum, done) && Legal(Mem(blk))
      modifies `head, `used, `chksum, `stream, buf
      ensures Open() && Writing(from, sum, done + UnitsOf(Mem(blk)))
    {
      Count(|blk| + 2, 0);
      ghost var m, l := Unit(MEM_T, true), Unit(|blk|, false);
      InsertUnit(Unit(MEM_T, true), from, sum, done, |blk| + 2);
      InsertUnit(Unit(|blk|, false), from, sum, done + [m], |blk| + 1);
      assert done + [m] + [l] == done + [m, l];
      InsertBytes(blk, from, sum, done + [m, l]);
      Assoc(done, [m, l], All(blk, |blk|, false));
    }

    /** Its loop. */
    method InsertBytes(blk: seq<Byte>, ghost from: seq<Byte>, ghost sum: Byte, ghost done: seq<Unit>)
      requires Ahead(|blk|) && Writing(from, sum, done)
      modifies `head, `used, `chksum, `stream, buf
      ensures Open() && Writing(from, sum, done + All(blk, |blk|, false))
    {
      ghost var put := done;
      for i := 0 to |blk|
        invariant put == done + All(blk, i, false)
        invariant Ahead(|blk| - i) && Writing(from, sum, put)
      {
        InsertUnit(Unit(blk[i], false), from, sum, put, |blk| - i);
        Assoc(done, All(blk, i, false), [Unit(blk[i], false)]);
        put := put + [Unit(blk[i], false)];
      }
    }

    /** QS_str_raw_ and QS_str_fmt_: the terminating zero is counted first. */
    method String(formatted: bool, chars: seq<Byte>, ghost from: seq<Byte>, ghost sum: Byte, ghost done: seq<Unit>)
      requires Open() && Writing(from, sum, done) && Legal(Str(formatted, chars))
      modifies `head, `used, `chksum, `stream, buf
      ensures Open() && Writing(from, sum, done + UnitsOf(Str(formatted, chars)))
    {
      ghost var p, end := Prefix(formatted), [Unit(0, true)];
      if formatted {
        Count(2, 0);
        InsertUnit(Unit(STR_T, true), from, sum, done, 2);
      } else {
        Count(1, 0);
        assert done + p == done;
      }
      InsertChars(chars, from, sum, done + p);
      ghost var cs := All(chars, |chars|, true);
      InsertUnit(Unit(0, true), from, sum, done + p + cs, 1);
      Assoc(done, p, cs);
      Assoc(done, p + cs, end);
    }

    /** Their loop. */
    method InsertChars(chars: seq<Byte>, ghost from: seq<Byte>, ghost sum: Byte, ghost done: seq<Unit>)
      requires Ahead(1) && Writing(from, sum, done)
      modifies `head, `used, `chksum, `stream, buf
      ensures Ahead(1) && Writing(from, sum, done + All(chars, |chars|, true))
    {
      ghost var put := done;
      for i := 0 to |chars|
        invariant put == done + All(chars, i, true)
        invariant Ahead(1) && Writing(from, sum, put)
      {
        Count(1, 1);
        InsertUnit(Unit(chars[i], true), from, sum, put, 2);
        Assoc(done, All(chars, i, true), [Unit(chars[i], true)]);
        put := put + [Unit(chars[i], true)];
      }
    }

    /** QS_endRec_: whatever was overwritten, the ring is in order again with the last
        min(end, waiting) bytes, if and only if the counter did not hide the overrun. */
    method EndRec() returns (ghost w: int)
      requires Open()
      modifies `head, `tail, `used, `stream, `lost, buf
      ensures Open()
      ensures stream == old(stream) + (Escape(0xFF - chksum) + [FRAME])
      ensures w == |stream| - |out| - old(lost) && Ended(w, old(tail))
    {
      InsertEnd();
      w := Waiting();
      DropOverrun(w);
    }

    /** The check byte and the flag. */
    method InsertEnd()
      requires Open()
      modifies `head, `used, `stream, buf
      ensures Open() && stream == old(stream) + (Escape(0xFF - chksum) + [FRAME])
    {
      Count(2, 0);
      InsertEscaped(0xFF - chksum, 2);
      InsertCounted(FRAME, 1);
      Assoc(old(stream), Escape(0xFF - chksum), [FRAME]);
    }

    /** The state after a record that brought the waiting bytes to w, begun with this tail. */
    ghost predicate Ended(w: int, was: nat)
      reads this, buf
    {
      w >= 0 && range > 0 && InOrderIff(Countable(w, buf.Length, range, was == head), Min(buf.Length, w))
    }

    /** The ring is in order with n bytes if and only if c.  Valid() includes InPlace(), which
        is about the fields alone. */
    ghost predicate InOrderIff(c: bool, n: int)
      reads this, buf
    {
      if c then Valid() && used == n else !(used == n && InPlace())
    }

    /** The `used` bytes lie between tail and head. */
    ghost predicate InPlace()
      reads this
    {
      head < buf.Length && used <= buf.Length && tail == Slot(head, used, buf.Length)
    }

    /** The end of QS_endRec_: the bytes that were overwritten are given up. */
    method DropOverrun(ghost w: nat)
      requires Open() && w == Waiting()
      modifies `tail, `used, `lost
      ensures Open() && Ended(w, old(tail))
    {
      if used > buf.Length {
        lost := lost + (Waiting() - buf.Length);
        used := buf.Length;
        tail := head;
      } else if Waiting() > buf.Length == used && tail == head {
        lost := lost + (Waiting() - buf.Length);
      }
    }

    lemma BlockIsPending(n: nat)
      requires Valid() && n <= used && tail + n <= buf.Length
      ensures buf[tail..tail + n] == Pending()[..n]
    {
      forall i | 0 <= i < n
        ensures buf[tail + i] == Pending()[i]
      {
        assert Slot(head, used - i, buf.Length) == tail + i;
      }
    }

    /** Handing out the first n pending bytes keeps what was handed out a prefix. */
    lemma PendingSplits(n: nat)
      requires Valid() && n <= used
      ensures Pending()[n..] == stream[|stream| - (used - n)..]
      ensures |out + Pending()[..n]| == |out| + n
      ensures lost == 0 ==> out + Pending()[..n] == stream[..|out + Pending()[..n]|]
    {
    }

    lemma TailMoves(head: nat, tail: nat, used: nat, n: nat, end: nat)
      requires head < end && n <= used <= end && tail == Slot(head, used, end) && tail + n <= end
      ensures Slot(head, used - n, end) == if tail + n == end then 0 else tail + n
    {
    }

    /** Move the tail past n bytes, after which `sent` has been handed out. */
    method Advance(n: nat, ghost sent: seq<Byte>)
      requires Valid() && n <= used && tail + n <= buf.Length
      requires |sent| == |out| + n && (lost == 0 ==> sent == stream[..|sent|])
      modifies `tail, `used, `out
      ensures Valid() && used == old(used) - n && out == sent
    {
      TailMoves(head, tail, used, n, buf.Length);
      out := sent;
      used := used - n;
      tail := tail + n;
      if tail == buf.Length {
        tail := 0;
      }
    }

    /** QS_getByte */
    method GetByte() returns (ret: nat)
      requires Valid()
      modifies `tail, `used, `out
      ensures Valid()
      ensures old(used) == 0 ==> ret == EOD && used == 0 && out == old(out)
      ensures old(used) > 0 ==> ret == old(Pending())[0] && Pending() == old(Pending())[1..] && out == old(out) + [ret]
    {
      if used == 0 {
        ret := EOD;
      } else {
        BlockIsPending(1);
        PendingSplits(1);
        ret := buf[tail];
        assert buf[tail..tail + 1] == [ret];
        Advance(1, out + Pending()[..1]);
      }
    }

    /** The next n bytes, which do not wrap. */
    method TakeFront(n: nat) returns (bytes: seq<Byte>)
      requires Valid() && n <= used && tail + n <= buf.Length
      modifies `tail, `used, `out
      ensures Valid() && used == old(used) - n
      ensures bytes == old(Pending())[..n] && Pending() == old(Pending())[n..]
      ensures out == old(out) + bytes
    {
      BlockIsPending(n);
      PendingSplits(n);
      bytes := buf[tail..tail + n];
      Advance(n, out + Pending()[..n]);
    }

    /** QS_getBlock; None is the null pointer. */
    method GetBlock(max: nat) returns (block: Option<seq<Byte>>)
      requires Valid()
      modifies `tail, `used, `out
      ensures Valid()
      ensures block.None? <==> old(used) == 0
      ensures block.None? ==> used == 0 && out == old(out)
      ensures block.Some? ==> block.value + Pending() == old(Pending()) && out == old(out) + block.value
      ensures block.Some? ==> |block.value| == Min(Min(buf.Length - old(tail), old(used)), max)
    {
      if used == 0 {
        return None;
      }
      var n := buf.Length - tail;
      if n > used {
        n := used;
      }
      if n > max {
        n := max;
      }
      var bytes := TakeFront(n);
      block := Some(bytes);
    }

    /** One data element. */
    method Write(e: Element, ghost from: seq<Byte>, ghost sum: Byte, ghost done: seq<Unit>)
      requires Open() && Writing(from, sum, done) && Legal(e)
      modifies `head, `used, `chksum, `stream, buf
      ensures Open() && Writing(from, sum, done + UnitsOf(e))
    {
      match e
      case Raw(width, d) =>
        if width == 1 {
          U8(d, from, sum, done);
        } else if width == 2 {
          U16(d, from, sum, done);
        } else if width == 4 {
          U32(d, from, sum, done);
        } else {
          U64(d, from, sum, done);
        }
      case Fmt(format, width, d) => Formatted(format, width, d, from, sum, done);
      case Mem(blk) => MemBlock(blk, from, sum, done);
      case Str(formatted, chars) => String(formatted, chars, from, sum, done);
    }

    /** Any data elements, in any order. */
    method Elements(es: seq<Element>, ghost parts: seq<seq<Unit>>)
      requires Open() && LaidOut(es, parts)
      modifies `head, `used, `chksum, `stream, buf
      ensures Open() && Writing(old(stream), old(chksum), Flat(parts, |parts|))
    {
      ghost var from, sum := stream, chksum;
      ExtendedByNothing(from, sum);
      ghost var done := [];
      for i := 0 to |es|
        invariant done == Flat(parts, i)
        invariant Open() && Writing(from, sum, done)
      {
        Write(es[i], from, sum, done);
        done := done + parts[i];
      }
    }

    /** Everything up to the end of a record. */
    method WriteBody(rec: Byte, es: seq<Element>, ghost parts: seq<seq<Unit>>)
      requires Valid() && LaidOut(es, parts)
      modifies `head, `used, `seqNum, `chksum, `stream, buf
      ensures Open() && seqNum == Add(old(seqNum), 1)
      ensures Writing(old(stream) + (Escape(seqNum) + [rec]), Sum([seqNum, rec]), Flat(parts, |parts|))
    {
      BeginRec(rec);
      Elements(es, parts);
    }

    /** The end of record r, of which everything else has been written after `before`. */
    method EndRecord(ghost before: seq<Byte>, ghost r: Record) returns (ghost w: int)
      requires Open() && Writing(before + (Escape(r.seqNum) + [r.id]), Sum([r.seqNum, r.id]), r.body)
      modifies `head, `tail, `used, `stream, `lost, buf
      ensures Open() && stream == Pieces(before, r)
      ensures w == |stream| - |out| - old(lost) && Ended(w, old(tail))
    {
      w := EndRec();
    }

    /** A whole record of any data elements, as QS_BEGIN ... QS_END write it. */
    method WriteRecord(rec: Byte, es: seq<Element>, ghost parts: seq<seq<Unit>>, ghost records: seq<Record>)
      returns (ghost w: int)
      requires Valid() && stream == WireAll(records) && LaidOut(es, parts)
      modifies `head, `tail, `used, `seqNum, `chksum, `stream, `lost, buf
      ensures Open() && seqNum == Add(old(seqNum), 1)
      ensures stream == WireAll(records + [Record(seqNum, rec, Flat(parts, |parts|))])
      ensures w == |stream| - |out| - old(lost) && Ended(w, old(tail))
    {
      ghost var r := Record(Add(seqNum, 1), rec, Flat(parts, |parts|));
      PiecesMakeWire(records, r);
      WriteBody(rec, es, parts);
      w := EndRecord(old(stream), r);
    }

    /** Whatever has been overwritten, and wherever the receiver stopped reading: going on
        from its state after the bytes handed out so far, it gets from the pending bytes one
        frame for the record the ring starts in and then every later record, unless an
        escape left open swallows the flag of that record, which costs one record more. */
    lemma PendingIsReceived(records: seq<Record>) returns (j: nat, i: nat, first: Frame)
      requires Valid() && used > 0
      requires stream == WireAll(records) && Sendable(records)
      ensures j < |records| && i < |Wire(records[j])| && |stream| - used == |WireAll(records[..j])| + i
      ensures Continues(After(IDLE, out), records[j], i, records[j + 1..], Pending(), first)
    {
      j, i, first := TailIsReceived(After(IDLE, out), records, stream, |stream| - used, Pending());
    }

    /** When nothing was overwritten and everything has been handed out, the receiver has
        exactly the records. */
    lemma DrainedIsReceived(records: seq<Record>)
      requires Valid() && used == 0 && lost == 0
      requires stream == WireAll(records) && Sendable(records)
      ensures Yields(IDLE, out, IDLE, Frames(records))
    {
      assert out == stream;
      StreamRoundTrip(records);
    }
  }
}
