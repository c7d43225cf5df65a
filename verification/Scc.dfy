/**
  The SCC emulation as the code keeps it: two channels, one transmit buffer that
  is filled in place, a receive pointer into one of two buffers, and a socket.
  Every method is proved to do what the function of the same purpose in SccModel
  says, so the theorems of LocalTalk and LocalTalkNetwork are about this class.
 */
module Scc {
  import opened GuestMemory
  import opened M = SccModel

  /** Where the receive pointer points: nowhere, past the stamp in the datagram buffer, or at the local answer. */
  datatype Source = Nowhere | Datagram | Answer

  class Chip {
    const txBuffer: array<Byte>
    const datagram: array<Byte>
    const answer: array<Byte>
    const stamp: Long
    const active: bool
    var a: Channel
    var b: Channel
    var ctl: Control
    var txSize: nat
    var rxSource: Source
    var rxSize: nat
    var rxOffset: nat
    var ctsPending: bool
    var ctsTo: Byte
    var ctsFrom: Byte
    var node: Byte
    var searching: bool
    // The socket: what it will deliver, and what was given to it.
    var inbox: seq<seq<Byte>>
    var sent: seq<seq<Byte>>
    ghost var out: seq<seq<Byte>>
    ghost var heard: seq<Heard>

    ghost predicate Valid()
      reads this
    {
      && txBuffer != datagram && txBuffer != answer && datagram != answer
      && txBuffer.Length == TX_MAX && datagram.Length == RX_MAX && answer.Length == 3
      && txSize <= TX_MAX
      && (rxSource == Datagram ==> rxSize <= RX_MAX - 4)
      && (rxSource == Answer ==> rxSize == 3)
    }

    ghost function Frame(): Option<seq<Byte>>
      requires Valid()
      reads this, datagram, answer
    {
      match rxSource
      case Nowhere => None
      case Datagram => Some(datagram[4..4 + rxSize])
      case Answer => Some(answer[..])
    }

    ghost function Side(): Link
      requires Valid()
      reads this, txBuffer, datagram
    {
      Link(active, stamp, txBuffer[..txSize], datagram[..], ctsPending, ctsTo, ctsFrom, node, searching, sent, out,
           heard)
    }

    /** The value the methods are specified on. */
    ghost function View(): M.Scc
      requires Valid()
      reads this, txBuffer, datagram, answer
    {
      M.Scc(a, b, ctl, Receiver(Frame(), rxOffset), Side())
    }

    constructor (stamp: Long, active: bool)
      ensures Valid() && fresh(txBuffer) && fresh(datagram) && fresh(answer)
      ensures View().rx == Receiver(None, 0) && View().link.tx == [] && !View().link.ctsPending
      ensures View().link.sent == [] && View().link.out == [] && View().link.heard == []
      ensures View().link.stamp == stamp && View().link.active == active
    {
      this.stamp, this.active := stamp, active;
      txBuffer := new Byte[TX_MAX](_ => 0);
      datagram := new Byte[RX_MAX](_ => 0);
      answer := new Byte[3](_ => 0);
      txSize, rxSource, rxSize, rxOffset := 0, Nowhere, 0, 0;
      ctsPending, ctsTo, ctsFrom, node, searching := false, 0, 0, 0, false;
      inbox, sent, out, heard := [], [], [], [];
    }

    method CheckInterrupt()
      requires Valid()
      modifies this`ctl
      ensures Valid() && View() == Check(old(View()))
    {
      var rxInt, special := false, b.endOfFrame;
      if b.rxIntMode == 0 {
        special := false;
      } else if b.rxIntMode == 1 {
        if b.rxAvail && b.firstChar { rxInt := true; }
      } else if b.rxIntMode == 2 {
        if b.rxAvail { rxInt := true; }
      }
      var t := 0;
      if !ctl.mie {
      } else if a.txIP && a.txIE {
        t := A_TX_EMPTY;
      } else if rxInt {
        t := B_RX;
      } else if special {
        t := B_RX_SPEC;
      } else if b.txIP && b.txIE {
        t := B_TX_EMPTY;
      } else if b.extIE && b.extIP {
        t := B_EXT;
      }
      ctl := ctl.(intType := t, request := t != 0);
    }

    method RxComplete()
      requires Valid()
      modifies this`rxSource, this`rxSize, this`rxOffset, this`b
      ensures Valid() && View() == Complete(old(View()))
    {
      rxSource, rxSize, rxOffset := Nowhere, 0, 0;
      b := b.(endOfFrame := true, syncHunt := true, rxAvail := false, rxBuff := 0x7e);
    }

    /** The byte the receive pointer has at an offset. */
    method RxByte(k: nat) returns (x: Byte)
      requires Valid() && rxSource != Nowhere && k < rxSize
      ensures Frame().Some? && |Frame().value| == rxSize && x == Frame().value[k]
    {
      if rxSource == Datagram {
        x := datagram[4 + k];
      } else {
        x := answer[k];
      }
    }

    method RxBuffAdvance()
      requires Valid()
      modifies this`rxSource, this`rxSize, this`rxOffset, this`b
      ensures Valid() && View() == Advance(old(View()))
    {
      hide Advance, Complete;
      ghost var s := View();
      if rxSource == Nowhere {
        AdvanceBetweenFrames(s);
        b := b.(rxBuff := 0x7e, rxAvail := false);
        return;
      }
      var x: Byte, last := 0, false;
      if rxOffset < rxSize {
        x := RxByte(rxOffset);
      } else {
        var crcOffset := rxOffset - rxSize;
        if crcOffset > 1 {
          AdvancePastFrame(s);
          RxComplete();
          return;
        }
        last := crcOffset == 1;
      }
      assert MoreToRead(s.rx) && x == NextByte(s.rx) && last == FrameEnds(s.rx);
      AdvanceInFrame(s);
      b := b.(rxBuff := x, rxAvail := true, endOfFrame := b.endOfFrame || last, syncHunt := b.syncHunt || last);
      rxOffset := rxOffset + 1;
    }

    // ------------------------------------------------------------ receiving

    method GetCtsPacket()
      requires Valid()
      modifies this`rxSource, this`rxSize, this`ctsPending, this`heard, answer
      ensures Valid() && rxSource == Answer && View() == TakeCts(old(View()))
    {
      ghost var l := Side();
      answer[0], answer[1], answer[2] := ctsTo, ctsFrom, 0x85;
      rxSource, rxSize, ctsPending := Answer, 3, false;
      assert answer[..] == CtsFrame(l);
      heard := heard + [LocalCts(CtsFrame(l), |out|)];
    }

    method CopyIn(d: seq<Byte>, bytes: nat)
      requires datagram.Length == RX_MAX && bytes == (if |d| < RX_MAX then |d| else RX_MAX)
      modifies datagram
      ensures datagram[..] == Filled(old(datagram[..]), d)
    {
      var k := 0;
      while k < bytes
        invariant k <= bytes
        invariant forall i :: 0 <= i < k ==> datagram[i] == d[i]
        invariant forall i :: k <= i < datagram.Length ==> datagram[i] == old(datagram[i])
      {
        datagram[k] := d[k];
        k := k + 1;
      }
      ghost var was := old(datagram[..]);
      assert datagram[..] == d[..bytes] + was[bytes..];
    }

    /** recvfrom: the next datagram, cut to the buffer, over whatever was in it. */
    method GetNextPacket() returns (bytes: nat)
      requires Valid() && rxSource == Nowhere && inbox != []
      modifies this`inbox, datagram
      ensures Valid() && inbox == old(inbox)[1..]
      ensures bytes == if |old(inbox)[0]| < RX_MAX then |old(inbox)[0]| else RX_MAX
      ensures datagram[..] == Filled(old(datagram[..]), old(inbox)[0])
    {
      hide Filled;
      var d := inbox[0];
      inbox := inbox[1..];
      bytes := if |d| < RX_MAX then |d| else RX_MAX;
      CopyIn(d, bytes);
    }

    method PacketIsMine() returns (mine: bool)
      requires Valid()
      ensures mine <==> datagram[..][..4] == StampBytes(stamp)
    {
      var bytes := StampBytes(stamp);
      mine := true;
      for i := 0 to 4
        invariant mine <==> forall j :: 0 <= j < i ==> datagram[j] == bytes[j]
      {
        if datagram[i] != bytes[i] {
          mine := false;
        }
      }
    }

    /** Skips this node's own datagrams, and points at the first other one. */
    method ReceivePacket()
      requires Valid() && rxSource == Nowhere
      modifies this`inbox, this`rxSource, this`rxSize, datagram
      ensures Valid() && rxSource != Answer
      ensures rxSource == Nowhere ==> Receive(old(Side()), old(inbox)) == (Side(), None)
      ensures rxSource == Datagram ==>
                |inbox| < |old(inbox)| && Receive(old(Side()), old(inbox)) == Offered(Side(), inbox, rxSize)
    {
      hide StampBytes, Filled;
      while inbox != [] && inbox[0] != []
        invariant Valid() && rxSource == Nowhere && |inbox| <= |old(inbox)|
        invariant Side() == old(Side()).(store := datagram[..])
        invariant Receive(old(Side()), old(inbox)) == Receive(Side(), inbox)
        decreases |inbox|
      {
        var bytes := GetNextPacket();
        var mine := PacketIsMine();
        if !mine {
          if bytes >= 4 {
            rxSource, rxSize := Datagram, bytes - 4;
          }
          return;
        }
      }
    }

    method GetNextPacketForMe()
      requires Valid() && rxSource == Nowhere
      modifies this`inbox, this`rxSource, this`rxSize, this`heard, datagram
      ensures Valid() && (Side(), Frame()) == Receive(old(Side()), old(inbox))
    {
      hide Receive, StampBytes, Filled;
      ReceivePacket();
      while rxSource != Nowhere && searching && node != 0 && datagram[4] != node && datagram[4] != 0xff
        invariant Valid() && rxSource != Answer && heard == old(heard)
        invariant Receive(old(Side()), old(inbox)) == if rxSource == Nowhere then (Side(), None)
                else Offered(Side(), inbox, rxSize)
        decreases if rxSource == Nowhere then 0 else |inbox| + 1
      {
        rxSource := Nowhere;
        ReceivePacket();
      }
      if rxSource != Nowhere {
        heard := heard + [Network(datagram[4..4 + rxSize], searching, node)];
      }
    }

    /** Starts delivering the frame the receive pointer is at. */
    method BeginFrame()
      requires Valid()
      modifies this`rxSource, this`rxSize, this`rxOffset, this`b, this`ctl
      ensures Valid() && View() == Begin(old(View()))
    {
      hide Advance, Check;
      rxOffset := 0;
      b := b.(endOfFrame := false, rxAvail := true, firstChar := true);
      RxBuffAdvance();
      CheckInterrupt();
    }

    method LocalTalkTick()
      requires Valid()
      modifies this`inbox, this`rxSource, this`rxSize, this`rxOffset, this`ctsPending, this`heard, this`b, this`ctl,
          datagram, answer
      ensures Valid() && View() == Tick(old(View()), old(inbox))
    {
      hide Receive, TakeCts, Begin;
      if !active { return; }
      if b.rxEnable && !b.rxAvail {
        if rxSource == Nowhere {
          if ctsPending {
            GetCtsPacket();
          } else {
            GetNextPacketForMe();
          }
        }
        if rxSource != Nowhere {
          BeginFrame();
        }
      }
    }

    // --------------------------------------------------------- transmitting

    method TransmitPacket()
      requires Valid()
      modifies this`sent
      ensures sent == old(sent) + if active then [StampBytes(stamp) + txBuffer[..txSize]] else []
    {
      if active {
        sent := sent + [StampBytes(stamp) + txBuffer[..txSize]];
      }
    }

    /** The local answer to a request to send. */
    method InjectCts()
      requires Valid()
      modifies this`rxSource, this`rxSize, this`rxOffset, this`ctsPending, this`heard, this`b, this`ctl, answer
      ensures Valid() && View() == Answered(TakeCts(old(View())))
    {
      hide TakeCts, Advance, Check;
      GetCtsPacket();
      rxOffset := 0;
      b := b.(endOfFrame := false, rxAvail := true, syncHunt := false, firstChar := true);
      RxBuffAdvance();
      CheckInterrupt();
    }

    /** A request to send is answered locally, at once when the receiver is on. */
    method AnswerRts(to: Byte, from: Byte)
      requires Valid()
      modifies this`rxSource, this`rxSize, this`rxOffset, this`ctsPending, this`ctsTo, this`ctsFrom, this`txSize,
          this`heard,
               this`b, this`ctl, answer
      ensures Valid() && txSize == 0 && View() == AfterRts(old(View()), to, from)
    {
      hide TakeCts, Answered, StampBytes;
      ctsTo, ctsFrom, ctsPending, txSize := from, to, true, 0;
      if b.rxEnable {
        InjectCts();
      }
    }

    /** Puts the buffered frame on the network, unless it is a clear-to-send. */
    method SendFrame(kind: Byte)
      requires Valid()
      modifies this`sent, this`txSize
      ensures Valid() && View() == AfterSend(old(View()), kind)
    {
      hide StampBytes;
      if kind != 0x85 {
        TransmitPacket();
      }
      txSize := 0;
    }

    /** Learns the node address from the source of a frame put out. */
    method NoteFrame(from: Byte)
      requires Valid()
      modifies this`node, this`out
      ensures Valid() && View() == AfterNote(old(View()), from)
    {
      out := out + [txBuffer[..txSize]];
      if from != 0 && from != 0xff {
        node := from;
      }
    }

    method TransmitPacket1()
      requires Valid()
      modifies this`rxSource, this`rxSize, this`rxOffset, this`ctsPending, this`ctsTo, this`ctsFrom, this`node,
          this`txSize,
               this`heard, this`sent, this`out, this`b, this`ctl, answer
      ensures Valid() && View() == Transmit(old(View()))
    {
      hide AfterRts, AfterSend, AfterNote, Transmit;
      ghost var s := View();
      TransmitInParts(s);
      if txSize >= 3 {
        var to, from, kind := txBuffer[0], txBuffer[1], txBuffer[2];
        NoteFrame(from);
        if kind == 0x84 {
          AnswerRts(to, from);
        } else {
          SendFrame(kind);
        }
      } else {
        txSize := 0;
        assert View() == s.(link := s.link.(tx := []));
      }
    }

    method TryExtractTxPackets()
      requires Valid()
      modifies this`rxSource, this`rxSize, this`rxOffset, this`ctsPending, this`ctsTo, this`ctsFrom, this`node,
          this`txSize,
               this`heard, this`sent, this`out, this`b, this`ctl, answer
      ensures Valid() && View() == if Finished(old(View()).link.tx) then Transmit(old(View())) else old(View())
    {
      hide Transmit;
      if txSize < 3 { return; }
      var expected := 3;
      if txBuffer[2] < 0x80 {
        if txSize < 5 { return; }
        var len := FieldLength(txBuffer[3], txBuffer[4]);
        if len == 0 || len > 600 { return; }
        expected := 3 + len;
      }
      if txSize >= expected {
        TransmitPacket1();
      }
    }

    method TxBuffPut(data: Byte)
      requires Valid()
      modifies this`rxSource, this`rxSize, this`rxOffset, this`ctsPending, this`ctsTo, this`ctsFrom, this`node,
          this`txSize,
               this`heard, this`sent, this`out, this`b, this`ctl, answer, txBuffer
      ensures Valid() && View() == PutByte(old(View()), data)
    {
      hide Transmit, Finished;
      if txSize < TX_MAX {
        txBuffer[txSize] := data;
        txSize := txSize + 1;
      }
      assert txBuffer[..txSize] == Buffered(old(txBuffer[..txSize]), data);
      TryExtractTxPackets();
    }

    // ------------------------------------------------------------ registers

    method WithChannel(isB: bool, c: Channel)
      requires Valid()
      modifies this`a, this`b
      ensures Valid() && View() == SetChannel(old(View()), isB, c)
    {
      if isB { b := c; } else { a := c; }
    }

    method ResetChannel(isB: bool)
      requires Valid()
      modifies this`a, this`b, this`rxSource, this`rxSize, this`rxOffset, this`ctsPending
      ensures Valid() && View() == M.ResetChannel(old(View()), isB)
    {
      var c := if isB then b else a;
      c := c.(rxBuff := 0, rxAvail := false, txBufferEmpty := true, txUnderrun := true, txIP := false, txIE := false,
              rxIntMode := 0, rxEnable := false, txEnable := false, endOfFrame := false, extIE := false, extIP := false,
              firstChar := true, breakAbort := false, sendBreak := false);
      if isB {
        b := c;
        rxSource, rxSize, rxOffset, ctsPending := Nowhere, 0, 0, false;
      } else {
        a := c;
      }
    }

    method Reset()
      requires Valid()
      modifies this`a, this`b, this`ctl, this`rxSource, this`rxSize, this`rxOffset, this`ctsPending
      ensures Valid() && View() == M.Reset(old(View()))
    {
      hide M.ResetChannel, InitChannel;
      ctl := ctl.(pointer := 0, mie := false, vector := 0, request := false);
      b := InitChannel(b);
      a := InitChannel(a);
      ResetChannel(true);
      ResetChannel(false);
    }

    method GetRR0(isB: bool) returns (value: Byte)
      requires Valid()
      modifies this`inbox, this`rxSource, this`rxSize, this`rxOffset, this`ctsPending, this`heard, this`b, this`ctl,
          datagram, answer
      ensures Valid() && (View(), value) == M.Load(old(View()), isB, 0, old(inbox))
    {
      hide Tick, Status0;
      if isB {
        LocalTalkTick();
      }
      value := Status0(if isB then b else a);
    }

    /** What a read of the vector acknowledges, by the pending interrupt's type. */
    method Remaining(t: int) returns (eof: bool, first: bool, ext: bool, tx: bool)
      ensures eof == (b.endOfFrame && t != B_RX_SPEC) && first == (b.firstChar && t != B_RX)
      ensures ext == (b.extIP && t != B_EXT) && tx == (b.txIP && t != B_TX_EMPTY)
    {
      eof, first, ext, tx := b.endOfFrame, b.firstChar, b.extIP, b.txIP;
      if t == B_RX_SPEC {
        eof := false;
      } else if t == B_RX {
        first := false;
      } else if t == B_EXT {
        ext := false;
      } else if t == B_TX_EMPTY {
        tx := false;
      }
    }

    method AcknowledgeInterrupt()
      modifies this`b
      ensures b == Acknowledged(old(b), ctl.intType)
    {
      var eof, first, ext, tx := Remaining(ctl.intType);
      b := b.(endOfFrame := eof, firstChar := first, extIP := ext, txIP := tx);
    }

    method GetRR2(isB: bool) returns (value: Byte)
      requires Valid()
      modifies this`b, this`ctl
      ensures Valid() && (View(), value) == M.Load(old(View()), isB, 2, [])
    {
      hide Check, ModifiedVector, Acknowledged;
      if !isB { return ctl.vector; }
      value := ModifiedVector(ctl);
      AcknowledgeInterrupt();
      CheckInterrupt();
    }

    method GetRR8(isB: bool) returns (value: Byte)
      requires Valid()
      modifies this`rxSource, this`rxSize, this`rxOffset, this`b
      ensures Valid() && (View(), value) == ReadData(old(View()), isB)
    {
      hide Advance;
      value := 0;
      if (if isB then b.rxEnable else a.rxEnable) {
        if isB {
          value := b.rxBuff;
          b := b.(firstChar := false);
          RxBuffAdvance();
        } else {
          value := 0x7e;
        }
      }
    }

    /** The driver gives up the rest of the frame. */
    method DropFrame()
      requires Valid()
      modifies this`b, this`rxSource, this`rxSize, this`rxOffset
      ensures Valid() && View() == M.DropFrame(old(View()))
    {
      if rxSource != Nowhere {
        rxSource, rxSize, rxOffset := Nowhere, 0, 0;
        b := b.(rxAvail := false, rxBuff := 0x7e, endOfFrame := false);
      }
    }

    method Command(cmd: int, isB: bool)
      requires Valid()
      modifies this`a, this`b, this`ctl, this`inbox, this`rxSource, this`rxSize, this`rxOffset, this`ctsPending,
          this`heard, datagram, answer
      ensures Valid() && View() == M.Command(old(View()), cmd, isB, old(inbox))
    {
      hide Tick, Check, M.DropFrame, SetChannel;
      var c := if isB then b else a;
      if cmd == 2 {
        c := c.(syncHunt := false, endOfFrame := false, extIP := false,
                breakAbort := if c.sendBreak then c.breakAbort else false);
        WithChannel(isB, c);
        CheckInterrupt();
      } else if cmd == 3 {
        WithChannel(isB, c.(breakAbort := true, txBufferEmpty := true));
      } else if cmd == 4 {
        WithChannel(isB, c.(firstChar := true, syncHunt := true));
        if isB {
          DropFrame();
        }
        LocalTalkTick();
      } else if cmd == 5 {
        WithChannel(isB, c.(txIP := false));
        CheckInterrupt();
      } else if cmd == 6 {
        WithChannel(isB, c.(endOfFrame := false));
        CheckInterrupt();
      }
    }

    method PutWR0(data: Byte, isB: bool)
      requires Valid()
      modifies this, answer, datagram
      ensures Valid() && View() == M.PutWR0(old(View()), data, isB, old(inbox))
    {
      hide Transmit, M.Command;
      if data / 64 == 3 && isB {
        TransmitPacket1();
      }
      var cmd := data / 8 % 8;
      ctl := ctl.(pointer := data % 8 + if cmd == 1 then 8 else 0);
      Command(cmd, isB);
    }

    method PutWR1(data: Byte, isB: bool)
      requires Valid()
      modifies this`a, this`b
      ensures Valid() && View() == M.PutWR1(old(View()), data, isB)
    {
      hide SetChannel, Bit;
      var c := if isB then b else a;
      var mode := data / 8 % 4;
      WithChannel(isB, c.(extIE := Bit(data, 1), txIE := Bit(data, 2), rxIntMode := mode,
                          firstChar := if mode == 1 then true else c.firstChar));
    }

    method SwitchReceiver(enable: bool)
      requires Valid()
      modifies this`b, this`ctl, this`inbox, this`rxSource, this`rxSize, this`rxOffset, this`ctsPending, this`heard,
          datagram, answer
      ensures Valid() && View() == AfterSwitch(old(View()), enable, old(inbox))
    {
      hide Tick;
      if !enable {
        b := b.(endOfFrame := false, rxAvail := false, syncHunt := true);
        rxSource, rxSize, rxOffset := Nowhere, 0, 0;
      } else {
        LocalTalkTick();
      }
    }

    method SetUpReceiver(data: Byte, isB: bool)
      requires Valid()
      modifies this`a, this`b
      ensures Valid()
      ensures var was := if isB then old(b) else old(a);
              View() == SetChannel(old(View()), isB, ReceiverSetup(was, data, isB && rxSource == Nowhere))
    {
      hide SetChannel, Bit;
      var c := if isB then b else a;
      c := c.(rxEnable := Bit(data, 1), addrSearch := Bit(data, 4),
              syncHunt := if Bit(data, 16) then true else c.syncHunt,
              endOfFrame := if Bit(data, 16) && isB && rxSource == Nowhere then false else c.endOfFrame);
      WithChannel(isB, c);
    }

    method PutWR3(data: Byte, isB: bool)
      requires Valid()
      modifies this`a, this`b, this`ctl, this`inbox, this`rxSource, this`rxSize, this`rxOffset, this`ctsPending,
          this`heard,
               this`searching, datagram, answer
      ensures Valid() && View() == M.PutWR3(old(View()), data, isB, old(inbox))
    {
      hide Tick, ReceiverSetup;
      SetUpReceiver(data, isB);
      if isB {
        searching := b.addrSearch;
        SwitchReceiver(b.rxEnable);
      }
    }

    method PutWR5(data: Byte, isB: bool)
      requires Valid()
      modifies this, answer
      ensures Valid() && View() == M.PutWR5(old(View()), data, isB)
    {
      hide Transmit, SetChannel, Bit;
      var c := if isB then b else a;
      var send := Bit(data, 16);
      WithChannel(isB, c.(txEnable := Bit(data, 8), sendBreak := send, breakAbort := send));
      if !Bit(data, 8) && isB && txSize >= 3 {
        TransmitPacket1();
      }
    }

    method PutWR8(data: Byte, isB: bool)
      requires Valid()
      modifies this, answer, txBuffer
      ensures Valid() && View() == M.PutWR8(old(View()), data, isB)
    {
      hide PutByte, SetChannel, Check;
      if isB {
        TxBuffPut(data);
      }
      var c := if isB then b else a;
      WithChannel(isB, c.(txIP := true, txBufferEmpty := true));
      CheckInterrupt();
    }

    method PutWR9(data: Byte)
      requires Valid()
      modifies this`a, this`b, this`ctl, this`rxSource, this`rxSize, this`rxOffset, this`ctsPending
      ensures Valid() && View() == M.PutWR9(old(View()), data)
    {
      hide M.ResetChannel, M.Reset, Check, Bit;
      var which := data / 64;
      if which == 1 {
        ResetChannel(true);
      } else if which == 2 {
        ResetChannel(false);
      } else if which == 3 {
        Reset();
      }
      ctl := ctl.(mie := Bit(data, 8));
      CheckInterrupt();
    }

    method StoreOther(data: Byte, isB: bool, reg: int)
      requires Valid() && reg !in {0, 1, 3, 5, 8, 9}
      modifies this`a, this`b, this`ctl, this`node
      ensures Valid() && View() == M.Store(old(View()), data, isB, reg, [])
    {
      hide SetChannel, M.PutWR0, M.PutWR1, M.PutWR3, M.PutWR5, M.PutWR8, M.PutWR9;
      var c := if isB then b else a;
      if reg == 2 {
        ctl := ctl.(vector := data);
      } else if reg == 4 {
        WithChannel(isB, c.(syncMode := data / 16 % 4));
      } else if reg == 6 {
        if c.syncMode == 2 && isB {
          node := data;
        }
      } else if reg == 12 {
        WithChannel(isB, c.(baudLo := data));
      } else if reg == 13 {
        WithChannel(isB, c.(baudHi := data));
      } else if reg == 15 {
        WithChannel(isB, c.(wr15 := data));
      }
    }

    method PutReg(data: Byte, isB: bool, reg: int)
      requires Valid()
      modifies this, answer, datagram, txBuffer
      ensures Valid() && View() == M.PutReg(old(View()), data, isB, reg, old(inbox))
    {
      hide Check, M.PutWR0, M.PutWR1, M.PutWR3, M.PutWR5, M.PutWR8, M.PutWR9, SetChannel;
      if reg == 0 {
        PutWR0(data, isB);
      } else if reg == 1 {
        PutWR1(data, isB);
      } else if reg == 3 {
        PutWR3(data, isB);
      } else if reg == 5 {
        PutWR5(data, isB);
      } else if reg == 8 {
        PutWR8(data, isB);
      } else if reg == 9 {
        PutWR9(data);
      } else {
        StoreOther(data, isB, reg);
      }
      CheckInterrupt();
    }

    method GetReg(isB: bool, reg: int) returns (value: Byte)
      requires Valid()
      modifies this`inbox, this`rxSource, this`rxSize, this`rxOffset, this`ctsPending, this`heard, this`b, this`ctl,
          datagram, answer
      ensures Valid() && (View(), value) == M.GetReg(old(View()), isB, reg, old(inbox))
    {
      hide Check, Tick, ReadVector, ReadData, Status0;
      if reg == 0 {
        value := GetRR0(isB);
      } else if reg == 2 {
        value := GetRR2(isB);
      } else if reg == 8 {
        value := GetRR8(isB);
      } else {
        var c := if isB then b else a;
        value := if reg == 1 then (if c.endOfFrame then 129 else 1)
                 else if reg == 3 then (if isB then 0 else Status3(a, b))
                 else if reg == 12 then c.baudLo
                 else if reg == 13 then c.baudHi
                 else if reg == 15 then c.wr15
                 else 0;
      }
      CheckInterrupt();
    }

    /** One access by the guest, with `arriving` what the socket would deliver during it. */
    method Access(write: bool, addr: nat, data: Byte, arriving: seq<seq<Byte>>) returns (value: Byte)
      requires Valid()
      modifies this, answer, datagram, txBuffer
      ensures Valid() && (View(), value) == M.Access(old(View()), Op(write, addr, data, arriving))
    {
      hide M.PutReg, M.GetReg;
      inbox := arriving;
      var isB := addr % 2 == 0;
      var reg := 8;
      if addr / 2 % 2 != 1 {
        reg := ctl.pointer;
        ctl := ctl.(pointer := 0);
      }
      if write {
        PutReg(data, isB, reg);
        value := data;
      } else {
        value := GetReg(isB, reg);
      }
    }
  }

  ghost function AfterSwitch(s: M.Scc, enable: bool, inbox: seq<seq<Byte>>): M.Scc {
    if enable then Tick(s, inbox)
    else s.(b := s.b.(endOfFrame := false, rxAvail := false, syncHunt := true), rx := Receiver(None, 0))
  }

  ghost function AfterNote(s: M.Scc, from: Byte): M.Scc {
    s.(link := s.link.(node := if from != 0 && from != 0xff then from else s.link.node,
                       out := s.link.out + [s.link.tx]))
  }

  ghost function AfterSend(s: M.Scc, kind: Byte): M.Scc {
    s.(link := s.link.(tx := [],
                       sent := s.link.sent
                             + if kind != 0x85 && s.link.active then [StampBytes(s.link.stamp) + s.link.tx] else []))
  }

  lemma TransmitInParts(s: M.Scc)
    ensures |s.link.tx| < 3 ==> Transmit(s) == s.(link := s.link.(tx := []))
    ensures |s.link.tx| >= 3 ==>
              var to, from, kind := s.link.tx[0], s.link.tx[1], s.link.tx[2];
              Transmit(s) == if kind == 0x84 then AfterRts(AfterNote(s, from), to, from)
                  else AfterSend(AfterNote(s, from), kind)
  {
    hide TakeCts, Answered, StampBytes;
  }

  ghost function AfterRts(s: M.Scc, to: Byte, from: Byte): M.Scc {
    var v := s.(link := s.link.(tx := [], ctsTo := from, ctsFrom := to, ctsPending := true));
    if v.b.rxEnable then Answered(TakeCts(v)) else v
  }

  /** What becomes of a datagram of another node, `size` bytes after its stamp, with `rest` still to come. */
  ghost function Offered(l: Link, rest: seq<seq<Byte>>, size: nat): (Link, Option<seq<Byte>>)
    requires |l.store| >= 4 + size
  {
    if |l.store| > 4 && !ForMe(l, l.store[4]) then Receive(l, rest)
    else (l.(heard := l.heard + [Network(l.store[4..4 + size], l.searching, l.node)]), Some(l.store[4..4 + size]))
  }
}
