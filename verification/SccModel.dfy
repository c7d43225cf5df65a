/**
  What the Z8530 SCC emulation with LocalTalk over UDP (scc.cpp) does, as
  functions on values: its registers, the transmit framer, the receive
  deliverer and the network socket.  Scc.dfy has the code that changes state in
  place, proved to do exactly this; LocalTalk.dfy has the theorems.
 */
module SccModel {
  import opened GuestMemory

  datatype Option<+T> = None | Some(value: T)

  const TX_MAX := 1800
  const RX_MAX := 1800

  /** One of the two channels. */
  datatype Channel = Channel(
    txEnable: bool, rxEnable: bool, txIE: bool, txUnderrun: bool, syncHunt: bool,
    txIP: bool, extIP: bool, rxBuff: Byte, txBufferEmpty: bool, extIE: bool,
    addrSearch: bool, rxIntMode: int, firstChar: bool, syncMode: int, rxAvail: bool,
    endOfFrame: bool, breakAbort: bool, sendBreak: bool, baudLo: Byte, baudHi: Byte, wr15: Byte)

  /** A frame handed to the receiver, with what was so at that moment. */
  datatype Heard =
    | Network(frame: seq<Byte>, searching: bool, node: Byte)
    | LocalCts(frame: seq<Byte>, framesOut: nat)

  /** What the two channels share. */
  datatype Control = Control(intType: int, pointer: int, vector: Byte, mie: bool, request: bool)

  /** The frame being received, if any, and how far the chip has got in it. */
  datatype Receiver = Receiver(frame: Option<seq<Byte>>, offset: nat)

  /**
    The LocalTalk side.  `tx` is the used part of the transmit buffer and
    `store` the datagram buffer with whatever earlier datagrams left in it.
    `sent`, `out` and `heard` are histories: datagrams given to the socket,
    frames the framer finished, and frames handed to the receiver.
   */
  datatype Link = Link(
    active: bool, stamp: Long, tx: seq<Byte>, store: seq<Byte>,
    ctsPending: bool, ctsTo: Byte, ctsFrom: Byte, node: Byte, searching: bool,
    sent: seq<seq<Byte>>, out: seq<seq<Byte>>, heard: seq<Heard>)

  /** The chip and its LocalTalk side. */
  datatype Scc = Scc(a: Channel, b: Channel, ctl: Control, rx: Receiver, link: Link)

  const A_TX_EMPTY := 6
  const B_RX := 4
  const B_RX_SPEC := 3
  const B_TX_EMPTY := 2
  const B_EXT := 1

  function StampBytes(stamp: Long): seq<Byte> {
    [stamp / 0x100_0000, stamp / 0x1_0000 % 0x100, stamp / 0x100 % 0x100, stamp % 0x100]
  }

  predicate Bit(data: Byte, weight: int)
    requires weight > 0
  {
    data / weight % 2 == 1
  }

  // ------------------------------------------------------------- interrupts

  function PendingInterrupt(s: Scc): int {
    var rx := (s.b.rxIntMode == 1 && s.b.rxAvail && s.b.firstChar) || (s.b.rxIntMode == 2 && s.b.rxAvail);
    var special := s.b.endOfFrame && s.b.rxIntMode != 0;
    if !s.ctl.mie then 0
    else if s.a.txIP && s.a.txIE then A_TX_EMPTY
    else if rx then B_RX
    else if special then B_RX_SPEC
    else if s.b.txIP && s.b.txIE then B_TX_EMPTY
    else if s.b.extIE && s.b.extIP then B_EXT
    else 0
  }

  /** Recomputes the interrupt type and the request line. */
  function Check(s: Scc): Scc {
    var t := PendingInterrupt(s);
    s.(ctl := s.ctl.(intType := t, request := t != 0))
  }

  // -------------------------------------------------------------- receiving

  function Complete(s: Scc): Scc {
    s.(rx := Receiver(None, 0), b := s.b.(endOfFrame := true, syncHunt := true, rxAvail := false, rxBuff := 0x7e))
  }

  /** There is a byte left of the frame or of its two CRC bytes. */
  predicate MoreToRead(rx: Receiver) {
    rx.frame != None && rx.offset <= |rx.frame.value| + 1
  }

  /** The last CRC byte comes next, or is gone. */
  predicate FrameEnds(rx: Receiver) {
    rx.frame != None && rx.offset > |rx.frame.value|
  }

  /** The next byte; the CRC bytes are 0, and between frames the flag is seen. */
  function NextByte(rx: Receiver): Byte {
    if !MoreToRead(rx) then 0x7e else if rx.offset < |rx.frame.value| then rx.frame.value[rx.offset] else 0
  }

  function NextReceiver(rx: Receiver): Receiver {
    if rx.frame == None then rx else if MoreToRead(rx) then rx.(offset := rx.offset + 1) else Receiver(None, 0)
  }

  /** Makes the next byte of the frame, or of its two CRC bytes, the pending one. */
  function Advance(s: Scc): Scc {
    s.(rx := NextReceiver(s.rx),
       b := s.b.(rxBuff := NextByte(s.rx), rxAvail := MoreToRead(s.rx),
                 endOfFrame := s.b.endOfFrame || FrameEnds(s.rx), syncHunt := s.b.syncHunt || FrameEnds(s.rx)))
  }

  lemma AdvanceBetweenFrames(s: Scc)
    requires s.rx.frame == None
    ensures Advance(s) == s.(b := s.b.(rxBuff := 0x7e, rxAvail := false))
  {
  }

  lemma AdvanceInFrame(s: Scc)
    requires MoreToRead(s.rx)
    ensures var last := FrameEnds(s.rx);
            Advance(s) == s.(rx := s.rx.(offset := s.rx.offset + 1),
                             b := s.b.(rxBuff := NextByte(s.rx), rxAvail := true,
                                       endOfFrame := s.b.endOfFrame || last, syncHunt := s.b.syncHunt || last))
  {
  }

  lemma AdvancePastFrame(s: Scc)
    requires s.rx.frame != None && !MoreToRead(s.rx)
    ensures Advance(s) == Complete(s)
  {
  }

  function CtsFrame(l: Link): seq<Byte> {
    [l.ctsTo, l.ctsFrom, 0x85]
  }

  function TakeCts(s: Scc): Scc {
    var f := CtsFrame(s.link);
    s.(rx := s.rx.(frame := Some(f)),
       link := s.link.(ctsPending := false, heard := s.link.heard + [LocalCts(f, |s.link.out|)]))
  }

  /** What recvfrom leaves in the buffer. */
  function Filled(store: seq<Byte>, packet: seq<Byte>): (r: seq<Byte>)
    ensures |r| >= |packet| || |r| >= RX_MAX
  {
    var n := if |packet| < RX_MAX then |packet| else RX_MAX;
    packet[..n] + (if n <= |store| then store[n..] else [])
  }

  /** The address filter of address-search mode. */
  predicate ForMe(l: Link, to: Byte) {
    !l.searching || l.node == 0 || to == l.node || to == 0xff
  }

  /**
    Takes datagrams from the socket until one is for this node: its own are
    skipped, and so are those the address filter refuses.  An empty datagram, or
    a short one that is not its own, ends the search.
   */
  function Receive(l: Link, inbox: seq<seq<Byte>>): (Link, Option<seq<Byte>>)
    decreases |inbox|
  {
    if inbox == [] || inbox[0] == [] then (l, None)
    else
      var n := if |inbox[0]| < RX_MAX then |inbox[0]| else RX_MAX;
      var t := l.(store := Filled(l.store, inbox[0]));
      if |t.store| >= 4 && t.store[..4] == StampBytes(l.stamp) then Receive(t, inbox[1..])
      else if n < 4 then (t, None)
      else if |t.store| > 4 && !ForMe(t, t.store[4]) then Receive(t, inbox[1..])
      else (t.(heard := t.heard + [Network(t.store[4..n], t.searching, t.node)]), Some(t.store[4..n]))
  }

  function Begin(s: Scc): Scc {
    Check(Advance(s.(rx := s.rx.(offset := 0), b := s.b.(endOfFrame := false, rxAvail := true, firstChar := true))))
  }

  function Tick(s: Scc, inbox: seq<seq<Byte>>): Scc {
    if !s.link.active || !s.b.rxEnable || s.b.rxAvail then s
    else if s.rx.frame != None then Begin(s)
    else if s.link.ctsPending then Begin(TakeCts(s))
    else
      var (l, f) := Receive(s.link, inbox);
      var t := s.(link := l, rx := s.rx.(frame := f));
      if f != None then Begin(t) else t
  }

  // ----------------------------------------------------------- transmitting

  /** Hands the buffered frame on: to the network, to the local CTS responder, or nowhere. */
  function Transmit(s: Scc): Scc {
    var l := s.link;
    if |l.tx| < 3 then s.(link := l.(tx := []))
    else
      var to, from, kind := l.tx[0], l.tx[1], l.tx[2];
      var t := l.(node := if from != 0 && from != 0xff then from else l.node, out := l.out + [l.tx], tx := []);
      if kind == 0x84 then
        var v := s.(link := t.(ctsTo := from, ctsFrom := to, ctsPending := true));
        if v.b.rxEnable then Answered(TakeCts(v)) else v
      else if kind == 0x85 || !l.active then s.(link := t)
      else s.(link := t.(sent := l.sent + [StampBytes(l.stamp) + l.tx]))
  }

  /** Injects the clear-to-send into the receiver. */
  function Answered(s: Scc): Scc {
    Check(Advance(s.(rx := s.rx.(offset := 0),
                     b := s.b.(endOfFrame := false, rxAvail := true, syncHunt := false, firstChar := true))))
  }

  /** The 10-bit length field of a data frame. */
  function FieldLength(high: int, low: int): int {
    high % 4 * 0x100 + low
  }

  /** The length the buffered frame will have, once it can be told. */
  function ExpectedLength(tx: seq<Byte>): Option<int> {
    if |tx| < 3 then None
    else if tx[2] >= 0x80 then Some(3)
    else if |tx| < 5 then None
    else
      var len := FieldLength(tx[3], tx[4]);
      if len == 0 || len > 600 then None else Some(3 + len)
  }

  /** The transmit buffer with one more byte, if there is room. */
  function Buffered(tx: seq<Byte>, data: Byte): seq<Byte> {
    if |tx| < TX_MAX then tx + [data] else tx
  }

  predicate Finished(tx: seq<Byte>) {
    match ExpectedLength(tx)
    case Some(n) => |tx| >= n
    case None => false
  }

  function PutByte(s: Scc, data: Byte): Scc {
    var t := s.(link := s.link.(tx := Buffered(s.link.tx, data)));
    if Finished(t.link.tx) then Transmit(t) else t
  }

  // -------------------------------------------------------------- registers

  /** Channel reset; `b` selects the printer port. */
  function ResetChannel(s: Scc, b: bool): Scc {
    var c := if b then s.b else s.a;
    var d := c.(rxBuff := 0, rxAvail := false, txBufferEmpty := true, txUnderrun := true, txIP := false, txIE := false,
                rxIntMode := 0, rxEnable := false, txEnable := false, endOfFrame := false, extIE := false,
                    extIP := false,
                firstChar := true, breakAbort := false, sendBreak := false);
    if b then s.(b := d, rx := Receiver(None, 0), link := s.link.(ctsPending := false)) else s.(a := d)
  }

  function InitChannel(c: Channel): Channel {
    c.(syncHunt := true, baudLo := 0, baudHi := 0, wr15 := 0, rxIntMode := 0, rxEnable := false, txEnable := false,
       txIP := false, txIE := false, extIE := false, extIP := false, breakAbort := false, sendBreak := false)
  }

  function Reset(s: Scc): Scc {
    var t := s.(ctl := s.ctl.(pointer := 0, mie := false, vector := 0, request := false), b := InitChannel(s.b),
                a := InitChannel(s.a));
    ResetChannel(ResetChannel(t, true), false)
  }

  function Status0(c: Channel): Byte {
    (if c.breakAbort then 128 else 0) + (if c.txUnderrun then 64 else 0) + 32 + (if c.syncHunt then 16 else 0) + 8
    + (if c.txBufferEmpty then 4 else 0) + (if c.rxAvail then 1 else 0)
  }

  /** The vector register of channel B, modified by the interrupt being taken. */
  function ModifiedVector(ctl: Control): Byte {
    var t := ctl.intType;
    ctl.vector / 16 * 16 +
    (if t == 7 then 14 else if t == 8 then 12 else if t == 5 then 10 else if t == A_TX_EMPTY then 8
     else if t == B_RX then 4 else if t == B_EXT then 2 else if t == B_TX_EMPTY then 0 else 6)
  }

  /** Reading the vector acknowledges the interrupt it names. */
  function Acknowledged(c: Channel, t: int): Channel {
    c.(endOfFrame := c.endOfFrame && t != B_RX_SPEC, firstChar := c.firstChar && t != B_RX,
       extIP := c.extIP && t != B_EXT, txIP := c.txIP && t != B_TX_EMPTY)
  }

  function Acknowledge(s: Scc): Scc {
    s.(b := Acknowledged(s.b, s.ctl.intType))
  }

  function ReadVector(s: Scc): (Scc, Byte) {
    (Check(Acknowledge(s)), ModifiedVector(s.ctl))
  }

  function Status3(a: Channel, b: Channel): Byte {
    (if a.rxAvail then 32 else 0) + (if a.txIP && a.txIE then 16 else 0) + (if a.extIP && a.extIE then 8 else 0)
    + (if b.rxAvail then 4 else 0) + (if b.txIP && b.txIE then 2 else 0) + (if b.extIP && b.extIE then 1 else 0)
  }

  /** A data read. */
  function ReadData(s: Scc, b: bool): (Scc, Byte) {
    if !b then (s, if s.a.rxEnable then 0x7e else 0)
    else if !s.b.rxEnable then (s, 0)
    else (Advance(s.(b := s.b.(firstChar := false))), s.b.rxBuff)
  }

  /** What reading a register does and returns, before the interrupt is recomputed. */
  function Load(s: Scc, b: bool, reg: int, inbox: seq<seq<Byte>>): (Scc, Byte) {
    var c := if b then s.b else s.a;
    if reg == 0 then
      var u := if b then Tick(s, inbox) else s;
      (u, Status0(if b then u.b else u.a))
    else if reg == 1 then (s, if c.endOfFrame then 129 else 1)
    else if reg == 2 then (if b then ReadVector(s) else (s, s.ctl.vector))
    else if reg == 3 then (s, if b then 0 else Status3(s.a, s.b))
    else if reg == 8 then ReadData(s, b)
    else if reg == 12 then (s, c.baudLo)
    else if reg == 13 then (s, c.baudHi)
    else if reg == 15 then (s, c.wr15)
    else (s, 0)
  }

  function GetReg(s: Scc, b: bool, reg: int, inbox: seq<seq<Byte>>): (Scc, Byte) {
    var (t, v) := Load(s, b, reg, inbox);
    (Check(t), v)
  }

  function SetChannel(s: Scc, b: bool, c: Channel): Scc {
    if b then s.(b := c) else s.(a := c)
  }

  function GetChannel(s: Scc, b: bool): Channel {
    if b then s.b else s.a
  }

  /** The driver gives up the rest of the frame. */
  function DropFrame(s: Scc): Scc {
    if s.rx.frame == None then s
    else s.(rx := Receiver(None, 0), b := s.b.(rxAvail := false, rxBuff := 0x7e, endOfFrame := false))
  }

  /** The command field of WR0. */
  function Command(u: Scc, cmd: int, b: bool, inbox: seq<seq<Byte>>): Scc {
    var c := GetChannel(u, b);
    if cmd == 2 then
      Check(SetChannel(u, b, c.(syncHunt := false, endOfFrame := false, extIP := false,
                                breakAbort := if c.sendBreak then c.breakAbort else false)))
    else if cmd == 3 then SetChannel(u, b, c.(breakAbort := true, txBufferEmpty := true))
    else if cmd == 4 then
      var v := SetChannel(u, b, c.(firstChar := true, syncHunt := true));
      Tick(if b then DropFrame(v) else v, inbox)
    else if cmd == 5 then Check(SetChannel(u, b, c.(txIP := false)))
    else if cmd == 6 then Check(SetChannel(u, b, c.(endOfFrame := false)))
    else u
  }

  function PutWR0(s: Scc, data: Byte, b: bool, inbox: seq<seq<Byte>>): Scc {
    var t := if data / 64 == 3 && b then Transmit(s) else s;
    var cmd := data / 8 % 8;
    Command(t.(ctl := t.ctl.(pointer := data % 8 + if cmd == 1 then 8 else 0)), cmd, b, inbox)
  }

  function PutWR1(s: Scc, data: Byte, b: bool): Scc {
    var c := GetChannel(s, b);
    var mode := data / 8 % 4;
    SetChannel(s, b, c.(extIE := Bit(data, 1), txIE := Bit(data, 2), rxIntMode := mode,
                        firstChar := if mode == 1 then true else c.firstChar))
  }

  /** The channel after WR3; `idle` says channel B has no frame. */
  function ReceiverSetup(c: Channel, data: Byte, idle: bool): Channel {
    c.(rxEnable := Bit(data, 1), addrSearch := Bit(data, 4), syncHunt := c.syncHunt || Bit(data, 16),
       endOfFrame := c.endOfFrame && !(Bit(data, 16) && idle))
  }

  function PutWR3(s: Scc, data: Byte, b: bool, inbox: seq<seq<Byte>>): Scc {
    var d := ReceiverSetup(GetChannel(s, b), data, b && s.rx.frame == None);
    var t := SetChannel(s, b, d);
    if !b then t
    else
      var u := t.(link := t.link.(searching := d.addrSearch));
      if !d.rxEnable then
        u.(b := d.(endOfFrame := false, rxAvail := false, syncHunt := true), rx := Receiver(None, 0))
      else Tick(u, inbox)
  }

  function PutWR5(s: Scc, data: Byte, b: bool): Scc {
    var c := GetChannel(s, b);
    var send := Bit(data, 16);
    var t := SetChannel(s, b, c.(txEnable := Bit(data, 8), sendBreak := send, breakAbort := send));
    if !Bit(data, 8) && b && |t.link.tx| >= 3 then Transmit(t) else t
  }

  function PutWR8(s: Scc, data: Byte, b: bool): Scc {
    var t := if b then PutByte(s, data) else s;
    var c := GetChannel(t, b);
    Check(SetChannel(t, b, c.(txIP := true, txBufferEmpty := true)))
  }

  function PutWR9(s: Scc, data: Byte): Scc {
    var which := data / 64;
    var t := if which == 1 then ResetChannel(s, true) else if which == 2 then ResetChannel(s, false)
             else if which == 3 then Reset(s) else s;
    Check(t.(ctl := t.ctl.(mie := Bit(data, 8))))
  }

  /** What writing a register does, before the interrupt is recomputed. */
  function Store(s: Scc, data: Byte, b: bool, reg: int, inbox: seq<seq<Byte>>): Scc {
    var c := GetChannel(s, b);
    if reg == 0 then PutWR0(s, data, b, inbox)
    else if reg == 1 then PutWR1(s, data, b)
    else if reg == 2 then s.(ctl := s.ctl.(vector := data))
    else if reg == 3 then PutWR3(s, data, b, inbox)
    else if reg == 4 then SetChannel(s, b, c.(syncMode := data / 16 % 4))
    else if reg == 5 then PutWR5(s, data, b)
    else if reg == 6 then (if c.syncMode == 2 && b then s.(link := s.link.(node := data)) else s)
    else if reg == 8 then PutWR8(s, data, b)
    else if reg == 9 then PutWR9(s, data)
    else if reg == 12 then SetChannel(s, b, c.(baudLo := data))
    else if reg == 13 then SetChannel(s, b, c.(baudHi := data))
    else if reg == 15 then SetChannel(s, b, c.(wr15 := data))
    else s
  }

  function PutReg(s: Scc, data: Byte, b: bool, reg: int, inbox: seq<seq<Byte>>): Scc {
    Check(Store(s, data, b, reg, inbox))
  }

  /** One access by the guest; `inbox` is what the socket would deliver during it. */
  datatype Op = Op(write: bool, addr: int, data: Byte, inbox: seq<seq<Byte>>) {
    predicate ChannelB() { addr % 2 == 0 }
    predicate IsData() { addr / 2 % 2 == 1 }
  }

  /** The register an access reaches. */
  function Register(s: Scc, op: Op): int {
    if op.IsData() then 8 else s.ctl.pointer
  }

  function Access(s: Scc, op: Op): (Scc, Byte) {
    var reg := Register(s, op);
    var t := if op.IsData() then s else s.(ctl := s.ctl.(pointer := 0));
    if op.write then (PutReg(t, op.data, op.ChannelB(), reg, op.inbox), op.data)
    else GetReg(t, op.ChannelB(), reg, op.inbox)
  }
}
