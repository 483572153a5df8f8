/** The QS receive channel of qs_rx.c: a ring with one writer and one reader that share
    no lock, and the byte-by-byte parser of the reader. */
module QsRx {
  import opened Basics
  import opened QsFrame

  /** The ring slot `i` places after slot `from`. */
  function Ahead(from: nat, i: nat, end: nat): (k: nat)
    requires from < end && i <= end
    ensures k < end
  {
    if from + i < end then from + i else from + i - end
  }

  class Channel {
    const buf: array<Byte>
    var head: nat
    var tail: nat
    var esc: bool
    var chksum: Byte

    /** The data bytes of the current frame and the frames handed to the handlers. */
    var data: seq<Byte>
    var frames: seq<Frame>

    /** The bytes in the ring and those already parsed. */
    ghost var items: seq<Byte>
    ghost var parsed: seq<Byte>

    ghost predicate Ring()
      reads this, buf
    {
      && tail < buf.Length && |items| < buf.Length
      && head == Ahead(tail, |items|, buf.Length)
      && forall i :: 0 <= i < |items| ==> buf[Ahead(tail, i, buf.Length)] == items[i]
    }

    function State(): Rx
      reads this
    {
      Rx(esc, chksum, data)
    }

    ghost predicate Valid()
      reads this, buf
    {
      Ring() && Yields(IDLE, parsed, State(), frames)
    }

    /** QS_rxInitBuf */
    constructor (sto: array<Byte>)
      requires sto.Length > 0
      ensures Valid() && buf == sto && items == [] && parsed == [] && frames == []
    {
      buf := sto;
      head, tail, esc, chksum, data, frames := 0, 0, false, 0, [], [];
      items, parsed := [], [];
    }

    /** QS_RX_PUT: refused exactly when one slot is left. */
    method Put(b: Byte) returns (ok: bool)
      requires Valid()
      modifies `head, `items, buf
      ensures Valid()
      ensures ok <==> |old(items)| < buf.Length - 1
      ensures items == if ok then old(items) + [b] else old(items)
    {
      var next := head + 1;
      if next == buf.Length {
        next := 0;
      }
      if next != tail {
        buf[head] := b;
        head := next;
        items := items + [b];
        return true;
      }
      return false;
    }

    /** QS_rxGetNfree */
    method GetNfree() returns (n: nat)
      requires Valid()
      ensures n == buf.Length - 1 - |items|
    {
      if head == tail {
        n := buf.Length - 1;
      } else if head < tail {
        n := tail - head - 1;
      } else {
        n := buf.Length + tail - head - 1;
      }
    }

    /** The byte at the tail, which the writer may now reuse. */
    method Fetch() returns (b: Byte)
      requires Ring() && items != []
      modifies `tail, `items
      ensures Ring()
      ensures [b] + items == old(items)
    {
      b := buf[tail];
      tail := tail + 1;
      if tail == buf.Length {
        tail := 0;
      }
      items := items[1..];
    }

    /** What QS_rxParse does with one byte. */
    method ParseByte(b: Byte)
      requires Yields(IDLE, parsed, State(), frames)
      modifies `esc, `chksum, `data, `frames, `parsed
      ensures parsed == old(parsed) + [b]
      ensures Yields(IDLE, parsed, State(), frames)
    {
      FeedOne(State(), b);
      FeedJoin(IDLE, parsed, [b]);
      parsed := parsed + [b];
      if esc {
        esc := false;
        var d := Flip(b);
        chksum := (chksum + d) % 0x100;
        data := data + [d];
      } else if b == ESC {
        esc := true;
      } else if b == FRAME {
        esc := false;
        frames := frames + [Frame(chksum == GOOD_CHKSUM, data)];
        chksum := 0;
        data := [];
      } else {
        chksum := (chksum + b) % 0x100;
        data := data + [b];
      }
    }

    /** One round of the loop of QS_rxParse.  Put may run between any two rounds. */
    method ParseStep()
      requires Valid() && items != []
      modifies `tail, `esc, `chksum, `data, `frames, `items, `parsed
      ensures Valid()
      ensures parsed + items == old(parsed + items) && |parsed| == |old(parsed)| + 1
    {
      ghost var before := items;
      var b := Fetch();
      ParseByte(b);
      assert before[0] == b && before[1..] == items;
    }

    /** QS_rxParse: the whole ring is parsed. */
    method Parse()
      requires Valid()
      modifies `tail, `esc, `chksum, `data, `frames, `items, `parsed
      ensures Valid() && items == []
      ensures parsed == old(parsed + items)
    {
      ghost var all := parsed + items;
      while head != tail
        invariant Valid() && parsed + items == all
        decreases |items|
      {
        ParseStep();
      }
    }

    /** However puts and parsing interleave, the handlers get exactly the records whose
        bytes were accepted. */
    lemma AcceptedIsReceived(records: seq<Record>)
      requires Valid() && items == [] && Sendable(records)
      requires parsed == WireAll(records)
      ensures frames == Frames(records) && State() == IDLE
    {
      StreamRoundTrip(records);
    }
  }
}
