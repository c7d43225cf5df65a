/**
  LocalTalk through the SCC: the transmit framer splits the guest's byte stream
  at frame boundaries, and an accepted frame is read out byte by byte whatever
  else the driver does in between.
 */
module LocalTalk {
  import opened GuestMemory
  import opened SccModel

  // ---------------------------------------------------------------- framing

  const RTS := 0x84
  const CTS := 0x85

  /** A LocalTalk link frame: three bytes of control, or a data frame with its length in the frame. */
  predicate WellFormed(f: seq<Byte>) {
    |f| >= 3 &&
    (if f[2] >= 0x80 then |f| == 3
     else |f| >= 5 && 2 <= FieldLength(f[3], f[4]) <= 600 && |f| == 3 + FieldLength(f[3], f[4]))
  }

  /** A byte written to the channel B data register. */
  function DataWrite(d: Byte): Op {
    Op(true, 2, d, [])
  }

  function WriteAll(s: Scc, bytes: seq<Byte>): Scc
    decreases |bytes|
  {
    if bytes == [] then s else WriteAll(Access(s, DataWrite(bytes[0])).0, bytes[1..])
  }

  function Concat(frames: seq<seq<Byte>>): seq<Byte> {
    if frames == [] then [] else frames[0] + Concat(frames[1..])
  }

  /** The datagrams a list of frames goes out as. */
  function OnWire(active: bool, stamp: Long, frames: seq<seq<Byte>>): seq<seq<Byte>>
    requires forall f :: f in frames ==> |f| >= 3
  {
    if frames == [] then []
    else (if active && frames[0][2] != RTS && frames[0][2] != CTS then [StampBytes(stamp) + frames[0]] else [])
         + OnWire(active, stamp, frames[1..])
  }

  /** The clear-to-send that answers a request to send: source and destination swapped. */
  function CtsFor(rts: seq<Byte>): seq<Byte>
    requires |rts| >= 3
  {
    [rts[1], rts[0], 0x85]
  }

  /** The local answers to a list of frames, the first of which is the frame after the first `n` ever written. */
  function Answers(listening: bool, n: nat, frames: seq<seq<Byte>>): seq<Heard>
    requires forall f :: f in frames ==> |f| >= 3
    decreases |frames|
  {
    if frames == [] then []
    else (if listening && frames[0][2] == RTS then [LocalCts(CtsFor(frames[0]), n + 1)] else [])
         + Answers(listening, n + 1, frames[1..])
  }

  lemma LengthIsKnownInTime(f: seq<Byte>, k: nat)
    requires WellFormed(f) && k <= |f|
    ensures ExpectedLength(f[..k]) == None || ExpectedLength(f[..k]) == Some(|f|)
    ensures k == |f| ==> ExpectedLength(f[..k]) == Some(|f|)
  {
  }

  /** The two states agree on everything the network side depends on. */
  ghost predicate SameLink(s: Scc, r: Scc) {
    r.link == s.link && r.b.rxEnable == s.b.rxEnable
  }

  lemma DataWriteIsPutByte(s: Scc, d: Byte)
    ensures SameLink(PutByte(s, d), Access(s, DataWrite(d)).0)
  {
    hide PutByte, PendingInterrupt;
  }

  /** A byte that does not finish its frame is only buffered. */
  lemma PartialByte(s: Scc, f: seq<Byte>, k: nat)
    requires WellFormed(f) && k + 1 < |f| && s.link.tx == f[..k]
    ensures PutByte(s, f[k]) == s.(link := s.link.(tx := f[..k+1]))
  {
    hide ExpectedLength, Transmit;
    assert f[..k] + [f[k]] == f[..k+1];
    LengthIsKnownInTime(f, k + 1);
  }

  lemma LastByte(s: Scc, f: seq<Byte>)
    requires WellFormed(f) && s.link.tx == f[..|f|-1]
    ensures PutByte(s, f[|f|-1]) == Transmit(s.(link := s.link.(tx := f)))
  {
    hide ExpectedLength, Transmit;
    assert f[..|f|-1] + [f[|f|-1]] == f == f[..|f|];
    LengthIsKnownInTime(f, |f|);
  }

  lemma AdvanceKeepsLink(s: Scc)
    ensures SameLink(s, Advance(s))
  {
  }

  lemma CheckKeepsLink(s: Scc)
    ensures SameLink(s, Check(s))
  {
    hide PendingInterrupt;
  }

  lemma AnsweredKeepsLink(s: Scc)
    ensures SameLink(s, Answered(s))
  {
    hide Advance, Check;
    var t := s.(rx := s.rx.(offset := 0),
                b := s.b.(endOfFrame := false, rxAvail := true, syncHunt := false, firstChar := true));
    AdvanceKeepsLink(t);
    CheckKeepsLink(Advance(t));
  }

  /** What becomes of the network side when the frame in the buffer is handed on. */
  ghost predicate HandedOn(l: Link, r: Link, listening: bool, f: seq<Byte>)
    requires |f| >= 3
  {
    && r.tx == [] && r.out == l.out + [f]
    && r.active == l.active && r.stamp == l.stamp && r.searching == l.searching && r.store == l.store
    && r.sent == l.sent + OnWire(l.active, l.stamp, [f])
    && r.heard == l.heard + Answers(listening, |l.out|, [f])
    && (f[2] == RTS ==> r.ctsTo == f[1] && r.ctsFrom == f[0] && r.ctsPending == !listening)
    && (f[2] != RTS ==> r.ctsTo == l.ctsTo && r.ctsFrom == l.ctsFrom && r.ctsPending == l.ctsPending)
    && r.node == (if f[1] != 0 && f[1] != 0xff then f[1] else l.node)
  }

  lemma TransmitHandsOn(s: Scc)
    requires |s.link.tx| >= 3
    ensures HandedOn(s.link, Transmit(s).link, s.b.rxEnable, s.link.tx)
    ensures Transmit(s).b.rxEnable == s.b.rxEnable
  {
    hide Answered, StampBytes, OnWire, Answers;
    var l := s.link;
    OneOnWire(l.active, l.stamp, l.tx);
    OneAnswer(s.b.rxEnable, |l.out|, l.tx);
    if l.tx[2] == RTS {
      var v := s.(link := l.(
        node := if l.tx[1] != 0 && l.tx[1] != 0xff then l.tx[1] else l.node,
        out := l.out + [l.tx], tx := [],
        ctsTo := l.tx[1], ctsFrom := l.tx[0], ctsPending := true));
      AnsweredKeepsLink(TakeCts(v));
      assert Transmit(s) == if v.b.rxEnable then Answered(TakeCts(v)) else v;
    } else {
      assert Transmit(s).b == s.b;
    }
  }

  lemma OneOnWire(active: bool, stamp: Long, f: seq<Byte>)
    requires |f| >= 3
    ensures OnWire(active, stamp, [f]) == if active && f[2] != RTS && f[2] != CTS then [StampBytes(stamp) + f] else []
  {
    hide StampBytes;
    assert [f][1..] == [];
  }

  lemma OneAnswer(listening: bool, n: nat, f: seq<Byte>)
    requires |f| >= 3
    ensures Answers(listening, n, [f]) == if listening && f[2] == RTS then [LocalCts(CtsFor(f), n + 1)] else []
  {
    assert [f][1..] == [];
  }

  lemma {:induction false} BufferPrefix(s: Scc, f: seq<Byte>, k: nat)
    requires WellFormed(f) && k < |f| && s.link.tx == []
    ensures SameLink(s.(link := s.link.(tx := f[..k])), WriteAll(s, f[..k]))
    decreases k
  {
    hide Access, PutByte;
    if k > 0 {
      BufferPrefix(s, f, k - 1);
      var t := WriteAll(s, f[..k-1]);
      WriteAllAppend(s, f[..k-1], [f[k-1]]);
      assert f[..k-1] + [f[k-1]] == f[..k];
      assert WriteAll(t, [f[k-1]]) == Access(t, DataWrite(f[k-1])).0;
      DataWriteIsPutByte(t, f[k-1]);
      PartialByte(t, f, k - 1);
    }
  }

  lemma {:induction false} WriteAllAppend(s: Scc, a: seq<Byte>, b: seq<Byte>)
    ensures WriteAll(s, a + b) == WriteAll(WriteAll(s, a), b)
    decreases |a|
  {
    hide Access;
    if a == [] {
      assert a + b == b;
    } else {
      assert (a + b)[1..] == a[1..] + b;
      WriteAllAppend(Access(s, DataWrite(a[0])).0, a[1..], b);
    }
  }

  ghost predicate Framed(s: Scc, r: Scc, frames: seq<seq<Byte>>)
    requires forall f :: f in frames ==> |f| >= 3
  {
    && r.link.tx == [] && r.link.out == s.link.out + frames
    && r.link.sent == s.link.sent + OnWire(s.link.active, s.link.stamp, frames)
    && r.link.heard == s.link.heard + Answers(s.b.rxEnable, |s.link.out|, frames)
    && r.link.active == s.link.active && r.link.stamp == s.link.stamp && r.b.rxEnable == s.b.rxEnable
  }

  /** One frame: everything that becomes of it. */
  lemma WriteFrame(s: Scc, f: seq<Byte>)
    requires WellFormed(f) && s.link.tx == []
    ensures HandedOn(s.link, WriteAll(s, f).link, s.b.rxEnable, f)
    ensures WriteAll(s, f).b.rxEnable == s.b.rxEnable
  {
    hide Access, Transmit, PutByte, OnWire, Answers, FieldLength;
    var n := |f| - 1;
    BufferPrefix(s, f, n);
    var t := WriteAll(s, f[..n]);
    WriteAllAppend(s, f[..n], [f[n]]);
    assert f[..n] + [f[n]] == f;
    assert WriteAll(t, [f[n]]) == Access(t, DataWrite(f[n])).0;
    DataWriteIsPutByte(t, f[n]);
    LastByte(t, f);
    TransmitHandsOn(t.(link := t.link.(tx := f)));
  }

  lemma OnWireSplits(active: bool, stamp: Long, f: seq<Byte>, rest: seq<seq<Byte>>)
    requires |f| >= 3 && forall g :: g in rest ==> |g| >= 3
    ensures OnWire(active, stamp, [f] + rest) == OnWire(active, stamp, [f]) + OnWire(active, stamp, rest)
  {
    hide StampBytes;
    var none: seq<seq<Byte>> := [];
    assert [f][1..] == none && ([f] + rest)[1..] == rest;
  }

  lemma AnswersSplit(listening: bool, n: nat, f: seq<Byte>, rest: seq<seq<Byte>>)
    requires |f| >= 3 && forall g :: g in rest ==> |g| >= 3
    ensures Answers(listening, n, [f] + rest) == Answers(listening, n, [f]) + Answers(listening, n + 1, rest)
  {
    var none: seq<seq<Byte>> := [];
    assert [f][1..] == none && ([f] + rest)[1..] == rest;
  }

  lemma FramedFirst(s: Scc, t: Scc, r: Scc, f: seq<Byte>, rest: seq<seq<Byte>>)
    requires |f| >= 3 && (forall g :: g in rest ==> |g| >= 3)
    requires HandedOn(s.link, t.link, s.b.rxEnable, f) && t.b.rxEnable == s.b.rxEnable
    requires Framed(t, r, rest)
    ensures Framed(s, r, [f] + rest)
  {
    hide OnWire, Answers;
    OnWireSplits(s.link.active, s.link.stamp, f, rest);
    AnswersSplit(s.b.rxEnable, |s.link.out|, f, rest);
  }

  /**
    Writing well-formed frames back to back, one byte at a time, splits the
    stream exactly at the frame boundaries: each is handed on whole, in order,
    and the buffer is empty after each.  Requests to send are answered locally
    when the receiver is on, clear-to-sends go nowhere, and every other frame
    goes to the network unchanged behind this node's stamp.
   */
  lemma {:induction false} StreamSplitsAtFrameBoundaries(s: Scc, frames: seq<seq<Byte>>)
    requires s.link.tx == [] && forall f :: f in frames ==> WellFormed(f)
    ensures forall f :: f in frames ==> |f| >= 3
    ensures Framed(s, WriteAll(s, Concat(frames)), frames)
    decreases |frames|
  {
    hide WriteAll, FieldLength, Framed;
    if frames == [] {
      WriteNothing(s);
    } else {
      var f, rest := frames[0], frames[1..];
      WriteFrame(s, f);
      WriteAllAppend(s, f, Concat(rest));
      var t := WriteAll(s, f);
      StreamSplitsAtFrameBoundaries(t, rest);
      FramedFirst(s, t, WriteAll(t, Concat(rest)), f, rest);
      assert frames == [f] + rest;
    }
  }

  lemma WriteNothing(s: Scc)
    requires s.link.tx == []
    ensures Framed(s, WriteAll(s, []), [])
  {
  }

  // --------------------------------------------------------------- delivery

  /** What is still to be read of a frame when the chip's offset in it is `k`. */
  function Rest(f: seq<Byte>, k: int): seq<Byte>
    requires 0 <= k
  {
    if k <= |f| then f[k..] + [0, 0] else if k == |f| + 1 then [0] else []
  }

  /**
    The receive side is coherent: a byte is pending only while the receiver is
    on and inside a frame, it is the frame's byte before the offset (or a CRC
    zero), and end-of-frame shows only at the second CRC byte.
   */
  predicate RxOk(s: Scc) {
    if !s.b.rxAvail then s.rx.frame == None
    else
      match s.rx.frame
      case None => false
      case Some(f) =>
        && s.b.rxEnable && 1 <= s.rx.offset <= |f| + 2
        && s.b.rxBuff == (if s.rx.offset <= |f| then f[s.rx.offset - 1] else 0)
        && (s.b.endOfFrame ==> s.rx.offset == |f| + 2)
  }

  /** The bytes the next data reads of channel B will return, the pending one first. */
  function Unread(s: Scc): seq<Byte>
    requires RxOk(s)
  {
    if !s.b.rxAvail then [] else [s.b.rxBuff] + Rest(s.rx.frame.value, s.rx.offset)
  }

  /** The two states agree on what is being received. */
  ghost predicate SameRx(s: Scc, r: Scc) {
    && r.rx == s.rx && r.b.rxAvail == s.b.rxAvail && r.b.rxBuff == s.b.rxBuff
    && (s.b.rxEnable ==> r.b.rxEnable)
    && (r.b.endOfFrame ==> s.b.endOfFrame)
  }

  lemma SameRxSameUnread(s: Scc, r: Scc)
    requires RxOk(s) && SameRx(s, r)
    ensures RxOk(r) && Unread(r) == Unread(s)
  {
  }

  lemma CheckKeepsRx(s: Scc)
    ensures SameRx(s, Check(s)) && SameRx(Check(s), s)
  {
    hide PendingInterrupt;
  }

  lemma AdvanceTakesOne(s: Scc)
    requires RxOk(s)
    ensures RxOk(Advance(s))
    ensures Unread(s) != [] ==> Unread(Advance(s)) == Unread(s)[1..]
    ensures Unread(s) == [] ==> Unread(Advance(s)) == []
  {
    hide Advance, Rest;
    if s.b.rxAvail {
      var f, k := s.rx.frame.value, s.rx.offset;
      RestSteps(f, k);
      AdvanceReads(s, f);
      assert Unread(s)[1..] == Rest(f, k);
    } else {
      AdvanceIdle(s);
    }
  }

  lemma AdvanceReads(s: Scc, f: seq<Byte>)
    requires s.rx.frame == Some(f)
    ensures var k, r := s.rx.offset, Advance(s);
            && r.b.rxEnable == s.b.rxEnable
            && (k <= |f| + 1 ==>
                  && r.rx == Receiver(Some(f), k + 1) && r.b.rxAvail
                  && r.b.rxBuff == (if k < |f| then f[k] else 0)
                  && r.b.endOfFrame == (s.b.endOfFrame || k == |f| + 1))
            && (k > |f| + 1 ==> r.rx.frame == None && !r.b.rxAvail)
  {
  }

  lemma AdvanceIdle(s: Scc)
    requires s.rx.frame == None
    ensures Advance(s).rx.frame == None && !Advance(s).b.rxAvail
  {
  }

  /** What is left after one more byte. */
  lemma RestSteps(f: seq<Byte>, k: int)
    requires 1 <= k <= |f| + 2
    ensures Rest(f, k) == if k < |f| then [f[k]] + Rest(f, k + 1) else if k <= |f| + 1 then [0] + Rest(f, k + 1) else []
  {
    if k < |f| {
      assert f[k..] == [f[k]] + f[k + 1..];
    } else if k == |f| {
      assert f[k..] + [0, 0] == [0] + [0];
    }
  }

  lemma StartFrame(s: Scc, f: seq<Byte>)
    requires s.rx == Receiver(Some(f), 0) && s.b.rxEnable && s.b.rxAvail && !s.b.endOfFrame
    ensures RxOk(Advance(s)) && Unread(Advance(s)) == f + [0, 0]
  {
    if f == [] {
      assert Rest(f, 1) == [0];
      assert f + [0, 0] == [0] + [0];
    } else {
      assert [f[0]] + (f[1..] + [0, 0]) == f + [0, 0];
    }
  }

  /** After `r`, the last frame heard is about to be read from its first byte. */
  predicate Fresh(r: Scc) {
    RxOk(r) && r.link.heard != [] && Unread(r) == r.link.heard[|r.link.heard| - 1].frame + [0, 0]
  }

  lemma BeginIsFresh(s: Scc, f: seq<Byte>)
    requires s.rx.frame == Some(f) && s.b.rxEnable
    requires s.link.heard != [] && s.link.heard[|s.link.heard| - 1].frame == f
    ensures Fresh(Begin(s)) && Begin(s).link == s.link
  {
    hide Advance, PendingInterrupt;
    var t := s.(rx := s.rx.(offset := 0), b := s.b.(endOfFrame := false, rxAvail := true, firstChar := true));
    StartFrame(t, f);
    AdvanceKeepsLink(t);
    CheckKeepsRx(Advance(t));
    SameRxSameUnread(Advance(t), Check(Advance(t)));
  }

  lemma AnsweredIsFresh(s: Scc, f: seq<Byte>)
    requires s.rx.frame == Some(f) && s.b.rxEnable
    requires s.link.heard != [] && s.link.heard[|s.link.heard| - 1].frame == f
    ensures Fresh(Answered(s)) && Answered(s).link == s.link
  {
    hide Advance, PendingInterrupt;
    var t := s.(rx := s.rx.(offset := 0),
                b := s.b.(endOfFrame := false, rxAvail := true, syncHunt := false, firstChar := true));
    StartFrame(t, f);
    AdvanceKeepsLink(t);
    CheckKeepsRx(Advance(t));
    SameRxSameUnread(Advance(t), Check(Advance(t)));
  }

  /** A step either leaves what is being received alone, or ends it, or begins the last frame heard. */
  ghost predicate RxStep(s: Scc, r: Scc) {
    && RxOk(r)
    && (r.b.rxAvail ==> (RxOk(s) && Unread(r) == Unread(s) && r.link.heard == s.link.heard) || Fresh(r))
  }

  lemma {:induction false} ReceiveHears(l: Link, inbox: seq<seq<Byte>>)
    ensures var (r, f) := Receive(l, inbox);
            && (f == None ==> r.heard == l.heard)
            && (f != None ==> |r.heard| == |l.heard| + 1 && r.heard[..|l.heard|] == l.heard
                              && r.heard[|l.heard|].frame == f.value)
            && r == l.(store := r.store, heard := r.heard)
    decreases |inbox|
  {
    hide StampBytes, ForMe;
    if inbox != [] && inbox[0] != [] {
      ReceiveHears(l.(store := Filled(l.store, inbox[0])), inbox[1..]);
    }
  }

  /** With a byte pending, time passing changes nothing; otherwise it may begin a frame. */
  lemma TickSteps(s: Scc, inbox: seq<seq<Byte>>)
    requires RxOk(s)
    ensures RxStep(s, Tick(s, inbox))
    ensures s.b.rxAvail ==> Tick(s, inbox) == s
  {
    hide Receive, Begin;
    if s.link.active && s.b.rxEnable && !s.b.rxAvail {
      if s.link.ctsPending {
        BeginIsFresh(TakeCts(s), CtsFrame(s.link));
      } else {
        ReceiveHears(s.link, inbox);
        var (l, f) := Receive(s.link, inbox);
        if f != None {
          BeginIsFresh(s.(link := l, rx := s.rx.(frame := f)), f.value);
        }
      }
    }
  }

  /** Sending interrupts reception only by answering a request to send. */
  lemma TransmitSteps(s: Scc)
    requires RxOk(s)
    ensures RxStep(s, Transmit(s))
    ensures !(|s.link.tx| >= 3 && s.link.tx[2] == RTS)
            ==> SameRx(s, Transmit(s)) && Transmit(s).link.heard == s.link.heard
  {
    hide Answered, StampBytes;
    var l := s.link;
    if |l.tx| >= 3 && l.tx[2] == RTS && s.b.rxEnable {
      var v := s.(link := l.(
        node := if l.tx[1] != 0 && l.tx[1] != 0xff then l.tx[1] else l.node,
        out := l.out + [l.tx], tx := [],
        ctsTo := l.tx[1], ctsFrom := l.tx[0], ctsPending := true));
      AnsweredIsFresh(TakeCts(v), CtsFrame(v.link));
    } else {
      SameRxSameUnread(s, Transmit(s));
    }
  }

  ghost predicate Undisturbed(s: Scc, r: Scc) {
    SameRx(s, r) && r.link.heard == s.link.heard
  }

  lemma UndisturbedSteps(s: Scc, r: Scc)
    requires RxOk(s) && Undisturbed(s, r)
    ensures RxStep(s, r)
  {
    SameRxSameUnread(s, r);
  }

  lemma StepsCompose(s: Scc, t: Scc, r: Scc)
    requires RxOk(s) && RxStep(s, t) && RxStep(t, r)
    ensures RxStep(s, r)
  {
    hide Rest;
  }

  predicate RtsBuffered(s: Scc) {
    |s.link.tx| >= 3 && s.link.tx[2] == RTS
  }

  /** WR0 apart from its transmit command. */
  function PutCommand(t: Scc, data: Byte, b: bool, inbox: seq<seq<Byte>>): Scc {
    PutWR0(t, data % 64, b, inbox)
  }

  lemma CommandBits(data: Byte)
    ensures data % 64 / 8 % 8 == data / 8 % 8 && data % 64 % 8 == data % 8 && data % 64 / 64 == 0
  {
  }

  lemma PutWR0Splits(s: Scc, data: Byte, b: bool, inbox: seq<seq<Byte>>)
    ensures PutWR0(s, data, b, inbox) == PutCommand(if data / 64 == 3 && b then Transmit(s) else s, data, b, inbox)
  {
    hide Transmit, Command;
    CommandBits(data);
  }

  lemma PutWR0Steps(s: Scc, data: Byte, b: bool, inbox: seq<seq<Byte>>)
    requires RxOk(s)
    ensures RxStep(s, PutWR0(s, data, b, inbox))
    ensures s.b.rxAvail && !(b && data / 64 == 3 && RtsBuffered(s)) && !(b && data / 8 % 8 == 4)
            ==> Undisturbed(s, PutWR0(s, data, b, inbox))
  {
    hide PutWR0, PutCommand, Transmit, Unread;
    PutWR0Splits(s, data, b, inbox);
    var t := if data / 64 == 3 && b then Transmit(s) else s;
    if data / 64 == 3 && b { TransmitSteps(s); } else { UndisturbedSteps(s, s); }
    CommandSteps(t, data, b, inbox);
    StepsCompose(s, t, PutCommand(t, data, b, inbox));
  }

  lemma CommandSteps(t: Scc, data: Byte, b: bool, inbox: seq<seq<Byte>>)
    requires RxOk(t)
    ensures RxStep(t, PutCommand(t, data, b, inbox))
    ensures t.b.rxAvail && !(b && data / 8 % 8 == 4) ==> Undisturbed(t, PutCommand(t, data, b, inbox))
  {
    hide Tick, PendingInterrupt, RxOk, Unread;
    CommandBits(data);
    if data / 8 % 8 == 4 {
      var u := t.(ctl := t.ctl.(pointer := data % 8));
      RestartSteps(t, u, b, inbox);
    } else {
      UndisturbedSteps(t, PutCommand(t, data, b, inbox));
    }
  }

  /** WR0's "interrupt on next character": on channel B what is left of the frame is dropped. */
  function Restart(u: Scc, b: bool): Scc {
    var v := SetChannel(u, b, GetChannel(u, b).(firstChar := true, syncHunt := true));
    if b then DropFrame(v) else v
  }

  lemma RestartSteps(t: Scc, u: Scc, b: bool, inbox: seq<seq<Byte>>)
    requires RxOk(t) && u == t.(ctl := u.ctl)
    ensures RxStep(t, Tick(Restart(u, b), inbox))
    ensures t.b.rxAvail && !b ==> Undisturbed(t, Tick(Restart(u, b), inbox))
  {
    hide Tick;
    var w := Restart(u, b);
    if b {
      assert RxOk(w) && !w.b.rxAvail;
    } else {
      UndisturbedSteps(t, w);
    }
    TickSteps(w, inbox);
    StepsCompose(t, w, Tick(w, inbox));
  }

  lemma PutWR3Steps(s: Scc, data: Byte, b: bool, inbox: seq<seq<Byte>>)
    requires RxOk(s)
    ensures RxStep(s, PutWR3(s, data, b, inbox))
    ensures s.b.rxAvail && !(b && !Bit(data, 1)) ==> Undisturbed(s, PutWR3(s, data, b, inbox))
  {
    hide Tick, Unread, Bit;
    var u := Enabled(s, data, b);
    if b && Bit(data, 1) {
      UndisturbedSteps(s, u);
      TickSteps(u, inbox);
      StepsCompose(s, u, Tick(u, inbox));
    } else if !b {
      UndisturbedSteps(s, PutWR3(s, data, b, inbox));
    }
  }

  /** WR3 with the receiver on, before it looks for a frame. */
  function Enabled(s: Scc, data: Byte, b: bool): Scc {
    SetChannel(s, b, ReceiverSetup(GetChannel(s, b), data, b && s.rx.frame == None))
      .(link := if b then s.link.(searching := Bit(data, 4)) else s.link)
  }

  lemma PutWR5Steps(s: Scc, data: Byte, b: bool)
    requires RxOk(s)
    ensures RxStep(s, PutWR5(s, data, b))
    ensures s.b.rxAvail && !(b && !Bit(data, 8) && RtsBuffered(s)) ==> Undisturbed(s, PutWR5(s, data, b))
  {
    hide Transmit, Unread, Bit, RxOk;
    var c := GetChannel(s, b);
    var t := SetChannel(s, b, c.(txEnable := Bit(data, 8), sendBreak := Bit(data, 16), breakAbort := Bit(data, 16)));
    UndisturbedSteps(s, t);
    TransmitSteps(t);
    StepsCompose(s, t, Transmit(t));
  }

  /** Writing this byte sends a request to send. */
  predicate SendsRts(s: Scc, data: Byte) {
    var tx := Buffered(s.link.tx, data);
    Finished(tx) && tx[2] == RTS
  }

  lemma PutByteSteps(s: Scc, data: Byte)
    requires RxOk(s)
    ensures RxStep(s, PutByte(s, data))
    ensures s.b.rxAvail && !SendsRts(s, data) ==> Undisturbed(s, PutByte(s, data))
  {
    hide Transmit, Unread, RxOk, Buffered;
    var t := s.(link := s.link.(tx := Buffered(s.link.tx, data)));
    UndisturbedSteps(s, t);
    TransmitSteps(t);
    StepsCompose(s, t, Transmit(t));
  }

  lemma PutWR8Steps(s: Scc, data: Byte, b: bool)
    requires RxOk(s)
    ensures RxStep(s, PutWR8(s, data, b))
    ensures s.b.rxAvail && !(b && SendsRts(s, data)) ==> Undisturbed(s, PutWR8(s, data, b))
  {
    hide PutByte, Unread, RxOk, PendingInterrupt, SendsRts;
    var t := if b then PutByte(s, data) else s;
    if b { PutByteSteps(s, data); } else { UndisturbedSteps(s, s); }
    UndisturbedSteps(t, PutWR8(s, data, b));
    StepsCompose(s, t, PutWR8(s, data, b));
  }

  lemma PutWR9Steps(s: Scc, data: Byte)
    requires RxOk(s)
    ensures RxStep(s, PutWR9(s, data))
    ensures s.b.rxAvail && data / 64 != 1 && data / 64 != 3 ==> Undisturbed(s, PutWR9(s, data))
  {
    hide Unread, PendingInterrupt, Bit;
    if data / 64 != 1 && data / 64 != 3 {
      UndisturbedSteps(s, PutWR9(s, data));
    }
  }

  /**
    The writes that may end a frame before it is read out: switching the
    receiver off, WR0 command 4, resetting channel B or the chip, and sending a
    request to send (whose answer takes the receiver over).
   */
  predicate Ends(s: Scc, data: Byte, b: bool, reg: int) {
    || (b && reg == 3 && !Bit(data, 1))
    || (b && reg == 0 && data / 8 % 8 == 4)
    || (reg == 9 && (data / 64 == 1 || data / 64 == 3))
    || (b && reg == 0 && data / 64 == 3 && RtsBuffered(s))
    || (b && reg == 5 && !Bit(data, 8) && RtsBuffered(s))
    || (b && reg == 8 && SendsRts(s, data))
  }

  predicate Excluded(s: Scc, op: Op) {
    op.write && Ends(s, op.data, op.ChannelB(), Register(s, op))
  }

  predicate IsDataRead(s: Scc, op: Op) {
    !op.write && op.ChannelB() && Register(s, op) == 8
  }

  lemma CheckSteps(s: Scc, t: Scc)
    requires RxOk(s) && RxStep(s, t)
    ensures RxStep(s, Check(t))
    ensures Undisturbed(s, t) ==> Undisturbed(s, Check(t))
  {
    hide Unread, RxOk, PendingInterrupt;
    assert RxOk(t);
    UndisturbedSteps(t, Check(t));
    StepsCompose(s, t, Check(t));
  }

  lemma StoreSteps(s: Scc, data: Byte, b: bool, reg: int, inbox: seq<seq<Byte>>)
    requires RxOk(s)
    ensures RxStep(s, Store(s, data, b, reg, inbox))
    ensures s.b.rxAvail && !Ends(s, data, b, reg) ==> Undisturbed(s, Store(s, data, b, reg, inbox))
  {
    hide PutWR0, PutWR3, PutWR5, PutWR8, PutWR9, Unread, RxOk, PendingInterrupt, Bit, SendsRts;
    if reg == 0 { PutWR0Steps(s, data, b, inbox); }
    else if reg == 3 { PutWR3Steps(s, data, b, inbox); }
    else if reg == 5 { PutWR5Steps(s, data, b); }
    else if reg == 8 { PutWR8Steps(s, data, b); }
    else if reg == 9 { PutWR9Steps(s, data); }
    else { UndisturbedSteps(s, Store(s, data, b, reg, inbox)); }
  }

  /** What a data read of channel B does with a byte pending. */
  lemma ReadDataTakesOne(s: Scc)
    requires RxOk(s)
    ensures RxOk(ReadData(s, true).0) && ReadData(s, true).0.link == s.link
    ensures Unread(s) != [] ==> ReadData(s, true).1 == Unread(s)[0] && Unread(ReadData(s, true).0) == Unread(s)[1..]
    ensures Unread(s) == [] ==> Unread(ReadData(s, true).0) == []
  {
    hide Advance, Rest;
    var t := s.(b := s.b.(firstChar := false));
    SameRxSameUnread(s, t);
    AdvanceTakesOne(t);
    AdvanceKeepsLink(t);
  }

  lemma CheckUndisturbed(s: Scc, t: Scc)
    requires Undisturbed(s, t)
    ensures Undisturbed(s, Check(t))
  {
    hide PendingInterrupt;
  }

  lemma AcknowledgeUndisturbed(s: Scc)
    ensures Undisturbed(s, Acknowledge(s))
  {
  }

  lemma VectorUndisturbed(s: Scc)
    ensures Undisturbed(s, ReadVector(s).0)
  {
    hide Check, ModifiedVector, Acknowledge, Undisturbed;
    AcknowledgeUndisturbed(s);
    CheckUndisturbed(s, Acknowledge(s));
  }

  lemma LoadSteps(s: Scc, b: bool, reg: int, inbox: seq<seq<Byte>>)
    requires RxOk(s)
    requires !(b && reg == 8)
    ensures RxStep(s, Load(s, b, reg, inbox).0)
    ensures s.b.rxAvail ==> Undisturbed(s, Load(s, b, reg, inbox).0)
  {
    hide Tick, Unread, RxOk, PendingInterrupt, ReadVector, Status0, Status3;
    if reg == 0 && b {
      TickSteps(s, inbox);
    } else {
      if reg == 2 && b { VectorUndisturbed(s); }
      UndisturbedSteps(s, Load(s, b, reg, inbox).0);
    }
  }

  /** The access with the register pointer already taken. */
  function Pointed(s: Scc, op: Op): Scc {
    if op.IsData() then s else s.(ctl := s.ctl.(pointer := 0))
  }

  lemma WriteSteps(s: Scc, op: Op)
    requires RxOk(s) && op.write
    ensures RxStep(s, Access(s, op).0)
    ensures s.b.rxAvail && !Excluded(s, op) ==> Undisturbed(s, Access(s, op).0)
  {
    hide Store, Ends, Check, Unread, RxOk, Op.ChannelB, Op.IsData;
    var t, reg := Pointed(s, op), Register(s, op);
    UndisturbedSteps(s, t);
    assert Ends(t, op.data, op.ChannelB(), reg) == Ends(s, op.data, op.ChannelB(), reg) by {
      EndsIgnoresPointer(s, t, op.data, op.ChannelB(), reg);
    }
    StoreSteps(t, op.data, op.ChannelB(), reg, op.inbox);
    var u := Store(t, op.data, op.ChannelB(), reg, op.inbox);
    StepsCompose(s, t, u);
    CheckSteps(s, u);
  }

  lemma EndsIgnoresPointer(s: Scc, t: Scc, data: Byte, b: bool, reg: int)
    requires t.link == s.link
    ensures Ends(t, data, b, reg) == Ends(s, data, b, reg)
  {
    hide Bit, Finished, Buffered;
  }

  lemma ReadSteps(s: Scc, op: Op)
    requires RxOk(s) && !op.write && !IsDataRead(s, op)
    ensures RxStep(s, Access(s, op).0)
    ensures s.b.rxAvail ==> Undisturbed(s, Access(s, op).0)
  {
    hide Load, Check, Unread, RxOk, Op.ChannelB, Op.IsData;
    var t, reg := Pointed(s, op), Register(s, op);
    UndisturbedSteps(s, t);
    LoadSteps(t, op.ChannelB(), reg, op.inbox);
    var u := Load(t, op.ChannelB(), reg, op.inbox).0;
    StepsCompose(s, t, u);
    CheckSteps(s, u);
  }

  /** One data read takes exactly the pending byte. */
  lemma DataReadSteps(s: Scc, op: Op)
    requires RxOk(s) && IsDataRead(s, op)
    ensures var (r, v) := Access(s, op);
            RxOk(r) && (if Unread(s) == [] then Unread(r) == [] else v == Unread(s)[0] && Unread(r) == Unread(s)[1..])
    ensures Access(s, op).0.link == s.link
  {
    hide ReadData, Check, Unread, RxOk, Op.ChannelB, Op.IsData;
    var t := Pointed(s, op);
    SameRxSameUnread(s, t);
    ReadDataTakesOne(t);
    var u := ReadData(t, true).0;
    CheckKeepsRx(u);
    CheckKeepsLink(u);
    SameRxSameUnread(u, Check(u));
  }

  /** A byte is pending exactly when there is something left to read; end-of-frame shows only on the last CRC byte. */
  lemma FlagsTellWhatIsLeft(s: Scc)
    requires RxOk(s)
    ensures s.b.rxAvail <==> Unread(s) != []
    ensures s.b.rxAvail && s.b.endOfFrame ==> Unread(s) == [0]
    ensures Status0(s.b) % 2 == 1 <==> Unread(s) != []
  {
    hide Status0;
    StatusShowsAvailable(s.b);
  }

  lemma StatusShowsAvailable(c: Channel)
    ensures Status0(c) % 2 == 1 <==> c.rxAvail
  {
    var rest := (if c.breakAbort then 64 else 0) + (if c.txUnderrun then 32 else 0) + 16
        + (if c.syncHunt then 8 else 0) + 4
                + (if c.txBufferEmpty then 2 else 0);
    assert Status0(c) == 2 * rest + (if c.rxAvail then 1 else 0);
  }

  /** Anything but a data read of channel B, an excluded write aside, leaves what is still to be read alone. */
  lemma OthersLeaveTheFrame(s: Scc, op: Op)
    requires RxOk(s) && s.b.rxAvail && !IsDataRead(s, op) && !Excluded(s, op)
    ensures RxOk(Access(s, op).0) && Unread(Access(s, op).0) == Unread(s)
    ensures Access(s, op).0.link.heard == s.link.heard
  {
    hide Access, Unread, RxOk, Excluded, IsDataRead;
    if op.write { WriteSteps(s, op); } else { ReadSteps(s, op); }
    SameRxSameUnread(s, Access(s, op).0);
  }

  /** Every access keeps the receive side coherent, and begins a frame only as the whole of the last one heard. */
  lemma AccessSteps(s: Scc, op: Op)
    requires RxOk(s)
    ensures RxOk(Access(s, op).0)
    ensures var r := Access(s, op).0; r.link.heard != s.link.heard && r.b.rxAvail ==> Fresh(r)
  {
    hide Access, Unread, RxOk, IsDataRead, Fresh;
    if IsDataRead(s, op) { DataReadSteps(s, op); }
    else if op.write { WriteSteps(s, op); }
    else { ReadSteps(s, op); }
  }

  // -------------------------------------------------------------- whole runs

  /**
    What can happen to the chip: the guest accesses it, an interrupt or the 60 Hz
    timer ticks the link, with whatever its socket holds, or the machine is reset.
   */
  datatype Event = Guest(op: Op) | TimePasses(inbox: seq<seq<Byte>>) | MachineReset

  function Happens(s: Scc, e: Event): Scc {
    match e
    case Guest(op) => Access(s, op).0
    case TimePasses(inbox) => Tick(s, inbox)
    case MachineReset => Reset(s)
  }

  function Run(s: Scc, events: seq<Event>): Scc
    decreases |events|
  {
    if events == [] then s else Run(Happens(s, events[0]), events[1..])
  }

  predicate ReadsData(s: Scc, e: Event) {
    e.Guest? && IsDataRead(s, e.op)
  }

  /** The events that may end a frame before it is read out. */
  predicate CutsShort(s: Scc, e: Event) {
    match e
    case Guest(op) => Excluded(s, op)
    case TimePasses(_) => false
    case MachineReset => true
  }

  /** What the channel B data reads of a run return. */
  function DataReads(s: Scc, events: seq<Event>): seq<Byte>
    decreases |events|
  {
    if events == [] then []
    else
      (if ReadsData(s, events[0]) then [Access(s, events[0].op).1] else [])
      + DataReads(Happens(s, events[0]), events[1..])
  }

  /** Nothing cuts a frame short until `n` more bytes have been read. */
  predicate Quiet(s: Scc, events: seq<Event>, n: nat)
    decreases |events|
  {
    events == [] || n == 0 ||
    (!CutsShort(s, events[0])
     && Quiet(Happens(s, events[0]), events[1..], if ReadsData(s, events[0]) then n - 1 else n))
  }

  /** Whatever happens keeps the receive side coherent, and begins a frame only as the whole of the last one heard. */
  lemma EventSteps(s: Scc, e: Event)
    requires RxOk(s)
    ensures RxOk(Happens(s, e))
    ensures var r := Happens(s, e); r.link.heard != s.link.heard && r.b.rxAvail ==> Fresh(r)
  {
    hide Access, Tick, Reset, Unread, RxOk, Fresh;
    match e {
      case Guest(op) => AccessSteps(s, op);
      case TimePasses(inbox) => TickSteps(s, inbox);
      case MachineReset => ResetIsRxOk(s);
    }
  }

  /** Anything but a data read leaves what is still to be read alone, unless it cuts the frame short. */
  lemma OtherEventsLeaveTheFrame(s: Scc, e: Event)
    requires RxOk(s) && s.b.rxAvail && !ReadsData(s, e) && !CutsShort(s, e)
    ensures RxOk(Happens(s, e)) && Unread(Happens(s, e)) == Unread(s)
    ensures Happens(s, e).link.heard == s.link.heard
  {
    hide Access, Tick, Unread, RxOk, Excluded, IsDataRead;
    match e {
      case Guest(op) => OthersLeaveTheFrame(s, op);
      case TimePasses(inbox) => TickSteps(s, inbox);
    }
  }

  lemma {:induction false} RunKeepsRxOk(s: Scc, events: seq<Event>)
    requires RxOk(s)
    ensures RxOk(Run(s, events))
    decreases |events|
  {
    hide Happens, RxOk;
    if events != [] {
      EventSteps(s, events[0]);
      RunKeepsRxOk(Happens(s, events[0]), events[1..]);
    }
  }

  lemma ResetIsRxOk(s: Scc)
    ensures RxOk(Reset(s)) && !Reset(s).b.rxAvail
  {
  }

  lemma {:induction false} ReadsAreUnread(s: Scc, events: seq<Event>)
    requires RxOk(s) && Quiet(s, events, |Unread(s)|)
    ensures var got, left := DataReads(s, events), Unread(s);
            if |got| <= |left| then
              && got <= left
              && (|got| < |left| ==> RxOk(Run(s, events)) && Unread(Run(s, events)) == left[|got|..])
            else left <= got
    decreases |events|
  {
    hide Access, Tick, Reset, RxOk, Unread, CutsShort, IsDataRead, Register;
    if events == [] || Unread(s) == [] {
    } else {
      FlagsTellWhatIsLeft(s);
      if ReadsData(s, events[0]) {
        DataReadSteps(s, events[0].op);
      } else {
        OtherEventsLeaveTheFrame(s, events[0]);
      }
      ReadsAreUnread(Happens(s, events[0]), events[1..]);
    }
  }

  function LastHeard(s: Scc): seq<Byte>
    requires Fresh(s)
  {
    s.link.heard[|s.link.heard| - 1].frame
  }

  /** The data reads return the last frame heard and two zero bytes; until they have, a byte is pending. */
  predicate ReadOut(t: Scc, events: seq<Event>)
    requires Fresh(t)
  {
    var got, r, all := DataReads(t, events), Run(t, events), LastHeard(t) + [0, 0];
    && (|got| >= |all| ==> all <= got)
    && (|got| < |all| ==>
          && got <= all && r.b.rxAvail && r.b.rxBuff == all[|got|]
          && (r.b.endOfFrame ==> |got| == |all| - 1))
  }

  /**
    Once a frame of n bytes is accepted, at a register access or at a tick, the
    next n + 2 data reads of channel B return the frame and two zero bytes,
    whatever ticks, status reads and other register writes come in between.
    Until then a byte is pending, and end-of-frame does not show before the second
    CRC byte is.
   */
  lemma AcceptedFrameIsReadOut(s: Scc, e: Event, events: seq<Event>)
    requires RxOk(s) && Happens(s, e).link.heard != s.link.heard && Happens(s, e).b.rxAvail
    ensures Fresh(Happens(s, e))
    ensures Quiet(Happens(s, e), events, |LastHeard(Happens(s, e))| + 2) ==> ReadOut(Happens(s, e), events)
  {
    hide Happens, RxOk, Quiet, DataReads, Run, Rest;
    EventSteps(s, e);
    var t := Happens(s, e);
    if Quiet(t, events, |LastHeard(t)| + 2) {
      ReadsAreUnread(t, events);
      var got, r := DataReads(t, events), Run(t, events);
      if |got| < |Unread(t)| {
        FlagsTellWhatIsLeft(r);
        assert Unread(r)[0] == r.b.rxBuff;
        assert Unread(t)[|got|..][0] == Unread(t)[|got|];
      }
    }
  }

  /** The read of the second CRC byte ends the frame: nothing is pending and the guest sees end-of-frame. */
  lemma LastReadEndsTheFrame(s: Scc, op: Op)
    requires RxOk(s) && |Unread(s)| == 1 && IsDataRead(s, op)
    ensures var r := Access(s, op).0; !r.b.rxAvail && r.rx.frame == None && r.b.endOfFrame
  {
    hide PendingInterrupt;
  }
}
