/**
  A network of LocalTalk nodes over a multicast that may lose, duplicate and
  reorder datagrams: whatever the nodes' drivers do, every frame a receiver is
  given was sent by another node, or is the local answer to this node's own
  most recent request to send.
 */
module LocalTalkNetwork {
  import opened GuestMemory
  import opened SccModel
  import opened LocalTalk

  // --------------------------------------------------------------- one node

  /** The last request to send among the frames put out. */
  function LastRts(out: seq<seq<Byte>>): Option<seq<Byte>>
    decreases |out|
  {
    if out == [] then None
    else
      var f := out[|out| - 1];
      if |f| >= 3 && f[2] == RTS then Some(f) else LastRts(out[..|out| - 1])
  }

  /** A datagram this node transmitted: its stamp, then a frame it put out that is neither RTS nor CTS. */
  predicate SentBy(d: seq<Byte>, l: Link) {
    |d| >= 7 && d[..4] == StampBytes(l.stamp) && d in l.sent && d[4..] in l.out && d[6] != RTS && d[6] != CTS
  }

  /** The frame a datagram brings: the receive buffer holds 1800 bytes, four of them the stamp. */
  function Carried(d: seq<Byte>): seq<Byte>
    requires |d| >= 4
  {
    d[4..if |d| < RX_MAX then |d| else RX_MAX]
  }

  predicate PassesFilter(searching: bool, node: Byte, f: seq<Byte>) {
    searching && node != 0 ==> |f| >= 1 && (f[0] == node || f[0] == 0xff)
  }

  ghost predicate FromAfar(h: Heard, stamp: Long, d: seq<Byte>)
    requires h.Network?
  {
    |d| >= 7 && d[..4] != StampBytes(stamp) && h.frame == Carried(d) && PassesFilter(h.searching, h.node, h.frame)
  }

  ghost predicate HeardOk(h: Heard, stamp: Long, out: seq<seq<Byte>>, wire: set<seq<Byte>>) {
    match h
    case Network(_, _, _) => exists d :: d in wire && FromAfar(h, stamp, d)
    case LocalCts(f, k) => k <= |out| && CtsAnswers(f, LastRts(out[..k]))
  }

  predicate CtsAnswers(f: seq<Byte>, rts: Option<seq<Byte>>) {
    rts != None && |rts.value| >= 3 && f == CtsFor(rts.value)
  }

  /** The pending clear-to-send, if any, answers the last request to send. */
  predicate CtsOk(l: Link) {
    l.ctsPending ==> CtsAnswers(CtsFrame(l), LastRts(l.out))
  }

  ghost predicate AllHeardOk(l: Link, wire: set<seq<Byte>>) {
    forall h :: h in l.heard ==> HeardOk(h, l.stamp, l.out, wire)
  }

  ghost predicate AllSentOk(l: Link) {
    forall d :: d in l.sent ==> SentBy(d, l)
  }

  /** What every access keeps, `wire` being all the datagrams ever sent. */
  ghost predicate NodeOk(l: Link, wire: set<seq<Byte>>) {
    AllHeardOk(l, wire) && AllSentOk(l) && CtsOk(l)
  }

  /** The node's past stays. */
  ghost predicate Extends(l: Link, r: Link) {
    r.stamp == l.stamp && l.out <= r.out && l.sent <= r.sent
  }

  ghost predicate Keeps(l: Link, r: Link, wire: set<seq<Byte>>) {
    NodeOk(l, wire) ==> NodeOk(r, wire) && Extends(l, r)
  }

  /** The two links share their past, and the second has no clear-to-send the first had not. */
  ghost predicate SamePast(l: Link, r: Link) {
    && r.stamp == l.stamp && r.out == l.out && r.sent == l.sent && r.heard == l.heard
    && (r.ctsPending ==> l.ctsPending && r.ctsTo == l.ctsTo && r.ctsFrom == l.ctsFrom)
  }

  lemma SamePastKeeps(l: Link, r: Link, wire: set<seq<Byte>>)
    requires SamePast(l, r)
    ensures Keeps(l, r, wire)
  {
    hide LastRts, HeardOk, StampBytes;
    if NodeOk(l, wire) {
      forall d | d in r.sent ensures SentBy(d, r) { assert SentBy(d, l); }
    }
  }

  lemma KeepsCompose(l: Link, m: Link, r: Link, wire: set<seq<Byte>>)
    requires Keeps(l, m, wire) && Keeps(m, r, wire)
    ensures Keeps(l, r, wire)
  {
    hide NodeOk;
  }

  /** One more frame heard. */
  lemma HearingKeeps(l: Link, r: Link, h: Heard, wire: set<seq<Byte>>)
    requires r.heard == l.heard + [h] && SamePast(l, r.(heard := l.heard))
    requires NodeOk(l, wire) ==> HeardOk(h, l.stamp, l.out, wire)
    ensures Keeps(l, r, wire)
  {
    hide HeardOk, LastRts, StampBytes;
    SamePastKeeps(l, r.(heard := l.heard), wire);
    if NodeOk(l, wire) {
      assert AllSentOk(r) by {
        forall d | d in r.sent ensures SentBy(d, r) { assert SentBy(d, l); }
      }
    }
  }

  lemma TakeCtsKeeps(s: Scc, wire: set<seq<Byte>>)
    requires s.link.ctsPending
    ensures Keeps(s.link, TakeCts(s).link, wire)
  {
    hide LastRts;
    var l := s.link;
    assert l.out[..|l.out|] == l.out;
    HearingKeeps(l, TakeCts(s).link, LocalCts(CtsFrame(l), |l.out|), wire);
  }

  lemma StoreHoldsDatagram(store: seq<Byte>, d: seq<Byte>)
    requires |d| >= 5
    ensures var n, t := if |d| < RX_MAX then |d| else RX_MAX, Filled(store, d);
            |t| >= n && t[..4] == d[..4] && t[4..n] == Carried(d) && t[4] == d[4] && Carried(d)[0] == d[4]
  {
  }

  lemma {:induction false} ReceiveKeeps(l: Link, inbox: seq<seq<Byte>>, wire: set<seq<Byte>>)
    requires forall d :: d in inbox ==> d in wire && |d| >= 7
    ensures Keeps(l, Receive(l, inbox).0, wire)
    decreases |inbox|
  {
    hide NodeOk, StampBytes, HeardOk, Carried, Filled;
    if inbox == [] {
      SamePastKeeps(l, l, wire);
    } else {
      var d := inbox[0];
      StoreHoldsDatagram(l.store, d);
      var t := l.(store := Filled(l.store, d));
      SamePastKeeps(l, t, wire);
      if t.store[..4] == StampBytes(l.stamp) || !ForMe(t, t.store[4]) {
        ReceiveKeeps(t, inbox[1..], wire);
        KeepsCompose(l, t, Receive(t, inbox[1..]).0, wire);
      } else {
        var h := Network(Carried(d), t.searching, t.node);
        assert FromAfar(h, l.stamp, d);
        HeardFromAfar(h, l, d, wire);
        HearingKeeps(t, Receive(l, inbox).0, h, wire);
        KeepsCompose(l, t, Receive(l, inbox).0, wire);
      }
    }
  }

  lemma HeardFromAfar(h: Heard, l: Link, d: seq<Byte>, wire: set<seq<Byte>>)
    requires h.Network? && FromAfar(h, l.stamp, d) && d in wire
    ensures HeardOk(h, l.stamp, l.out, wire)
  {
  }

  lemma BeginKeepsLink(s: Scc)
    ensures Begin(s).link == s.link
  {
    hide Advance, Check;
    var t := s.(rx := s.rx.(offset := 0), b := s.b.(endOfFrame := false, rxAvail := true, firstChar := true));
    AdvanceKeepsLink(t);
    CheckKeepsLink(Advance(t));
  }

  lemma TickKeeps(s: Scc, inbox: seq<seq<Byte>>, wire: set<seq<Byte>>)
    requires forall d :: d in inbox ==> d in wire && |d| >= 7
    ensures Keeps(s.link, Tick(s, inbox).link, wire)
  {
    hide Receive, Begin, NodeOk, TakeCts;
    SamePastKeeps(s.link, s.link, wire);
    if !s.link.active || !s.b.rxEnable || s.b.rxAvail {
    } else if s.rx.frame != None {
      BeginKeepsLink(s);
    } else if s.link.ctsPending {
      TakeCtsKeeps(s, wire);
      BeginKeepsLink(TakeCts(s));
    } else {
      ReceiveKeeps(s.link, inbox, wire);
      var (l, f) := Receive(s.link, inbox);
      BeginKeepsLink(s.(link := l, rx := s.rx.(frame := f)));
    }
  }

  lemma OneMoreOut(h: Heard, stamp: Long, out: seq<seq<Byte>>, f: seq<Byte>, wire: set<seq<Byte>>)
    requires HeardOk(h, stamp, out, wire)
    ensures HeardOk(h, stamp, out + [f], wire)
  {
    hide LastRts;
    if h.LocalCts? {
      assert (out + [f])[..h.framesOut] == out[..h.framesOut];
    }
  }

  /** One more frame put out, and perhaps on the wire. */
  lemma SendingKeeps(l: Link, r: Link, f: seq<Byte>, wire: set<seq<Byte>>)
    requires |f| >= 3 && r.out == l.out + [f] && r.stamp == l.stamp && r.heard == l.heard
    requires r.sent == l.sent || (r.sent == l.sent + [StampBytes(l.stamp) + f] && f[2] != RTS && f[2] != CTS)
    requires NodeOk(l, wire) ==> CtsOk(r)
    ensures Keeps(l, r, wire)
  {
    hide HeardOk, LastRts;
    if NodeOk(l, wire) {
      forall h | h in r.heard ensures HeardOk(h, r.stamp, r.out, wire) { OneMoreOut(h, l.stamp, l.out, f, wire); }
      forall d | d in r.sent ensures SentBy(d, r) {
        if d in l.sent {
          assert SentBy(d, l);
        } else {
          assert d == StampBytes(l.stamp) + f && |StampBytes(l.stamp)| == 4;
          assert d[4..] == f && f == r.out[|l.out|] && d[6] == f[2] && d == r.sent[|l.sent|];
        }
      }
    }
  }

  lemma TransmitKeeps(s: Scc, wire: set<seq<Byte>>)
    ensures Keeps(s.link, Transmit(s).link, wire)
  {
    hide Answered, TakeCts, StampBytes, NodeOk, Keeps;
    var l := s.link;
    if |l.tx| < 3 {
      SamePastKeeps(l, Transmit(s).link, wire);
    } else {
      var to, from, kind := l.tx[0], l.tx[1], l.tx[2];
      var t := l.(node := if from != 0 && from != 0xff then from else l.node, out := l.out + [l.tx], tx := []);
      NewestRts(l, t, l.tx);
      if kind == 0x84 {
        var v := s.(link := t.(ctsTo := from, ctsFrom := to, ctsPending := true));
        SendingKeeps(l, v.link, l.tx, wire);
        if v.b.rxEnable {
          TakeCtsKeeps(v, wire);
          KeepsCompose(l, v.link, TakeCts(v).link, wire);
          AnsweredKeepsLink(TakeCts(v));
        }
      } else {
        SendingFrame(l, Transmit(s).link, wire);
      }
    }
  }

  lemma SendingFrame(l: Link, r: Link, wire: set<seq<Byte>>)
    requires |l.tx| >= 3 && l.tx[2] != RTS && r.out == l.out + [l.tx] && r.stamp == l.stamp && r.heard == l.heard
    requires r.sent == l.sent || (r.sent == l.sent + [StampBytes(l.stamp) + l.tx] && l.tx[2] != CTS)
    requires r.ctsPending == l.ctsPending && r.ctsTo == l.ctsTo && r.ctsFrom == l.ctsFrom
    ensures Keeps(l, r, wire)
  {
    hide AllHeardOk, AllSentOk, StampBytes, Keeps;
    NewestRts(l, r, l.tx);
    SendingKeeps(l, r, l.tx, wire);
  }

  lemma NewestRts(l: Link, r: Link, f: seq<Byte>)
    requires |f| >= 3 && r.out == l.out + [f]
    ensures LastRts(r.out) == if f[2] == RTS then Some(f) else LastRts(l.out)
  {
    assert r.out[..|r.out| - 1] == l.out;
  }

  lemma RestartKeeps(s: Scc, b: bool)
    ensures Restart(s, b).link == s.link
  {
  }

  lemma CommandKeeps(t: Scc, data: Byte, b: bool, inbox: seq<seq<Byte>>, wire: set<seq<Byte>>)
    requires forall d :: d in inbox ==> d in wire && |d| >= 7
    ensures Keeps(t.link, PutCommand(t, data, b, inbox).link, wire)
  {
    hide Tick, PendingInterrupt, NodeOk, Keeps, DropFrame;
    CommandBits(data);
    if data / 8 % 8 == 4 {
      var u := t.(ctl := t.ctl.(pointer := data % 8));
      RestartKeeps(u, b);
      TickKeeps(Restart(u, b), inbox, wire);
    } else {
      SamePastKeeps(t.link, PutCommand(t, data, b, inbox).link, wire);
    }
  }

  lemma PutWR0Keeps(s: Scc, data: Byte, b: bool, inbox: seq<seq<Byte>>, wire: set<seq<Byte>>)
    requires forall d :: d in inbox ==> d in wire && |d| >= 7
    ensures Keeps(s.link, PutWR0(s, data, b, inbox).link, wire)
  {
    hide PutWR0, PutCommand, Transmit, NodeOk, Keeps;
    PutWR0Splits(s, data, b, inbox);
    var t := if data / 64 == 3 && b then Transmit(s) else s;
    if data / 64 == 3 && b { TransmitKeeps(s, wire); } else { SamePastKeeps(s.link, s.link, wire); }
    CommandKeeps(t, data, b, inbox, wire);
    KeepsCompose(s.link, t.link, PutCommand(t, data, b, inbox).link, wire);
  }

  lemma PutWR3Keeps(s: Scc, data: Byte, b: bool, inbox: seq<seq<Byte>>, wire: set<seq<Byte>>)
    requires forall d :: d in inbox ==> d in wire && |d| >= 7
    ensures Keeps(s.link, PutWR3(s, data, b, inbox).link, wire)
  {
    hide Tick, Bit, NodeOk, Keeps;
    var u := Enabled(s, data, b);
    SamePastKeeps(s.link, u.link, wire);
    if b && Bit(data, 1) {
      TickKeeps(u, inbox, wire);
      KeepsCompose(s.link, u.link, Tick(u, inbox).link, wire);
    }
  }

  lemma PutWR5Keeps(s: Scc, data: Byte, b: bool, wire: set<seq<Byte>>)
    ensures Keeps(s.link, PutWR5(s, data, b).link, wire)
  {
    hide Transmit, Bit, NodeOk, Keeps;
    var c := GetChannel(s, b);
    var t := SetChannel(s, b, c.(txEnable := Bit(data, 8), sendBreak := Bit(data, 16), breakAbort := Bit(data, 16)));
    SamePastKeeps(s.link, t.link, wire);
    TransmitKeeps(t, wire);
  }

  lemma PutWR8Keeps(s: Scc, data: Byte, b: bool, wire: set<seq<Byte>>)
    ensures Keeps(s.link, PutWR8(s, data, b).link, wire)
  {
    hide Transmit, NodeOk, Keeps, PendingInterrupt, Buffered, Finished;
    var t := s.(link := s.link.(tx := Buffered(s.link.tx, data)));
    SamePastKeeps(s.link, t.link, wire);
    TransmitKeeps(t, wire);
    KeepsCompose(s.link, t.link, Transmit(t).link, wire);
    SamePastKeeps(s.link, s.link, wire);
  }

  lemma PutWR9Keeps(s: Scc, data: Byte, wire: set<seq<Byte>>)
    ensures Keeps(s.link, PutWR9(s, data).link, wire)
  {
    hide NodeOk, Keeps, PendingInterrupt, Bit;
    SamePastKeeps(s.link, PutWR9(s, data).link, wire);
  }

  lemma StoreKeeps(s: Scc, data: Byte, b: bool, reg: int, inbox: seq<seq<Byte>>, wire: set<seq<Byte>>)
    requires forall d :: d in inbox ==> d in wire && |d| >= 7
    ensures Keeps(s.link, Store(s, data, b, reg, inbox).link, wire)
  {
    hide PutWR0, PutWR3, PutWR5, PutWR8, PutWR9, NodeOk, Keeps;
    if reg == 0 { PutWR0Keeps(s, data, b, inbox, wire); }
    else if reg == 3 { PutWR3Keeps(s, data, b, inbox, wire); }
    else if reg == 5 { PutWR5Keeps(s, data, b, wire); }
    else if reg == 8 { PutWR8Keeps(s, data, b, wire); }
    else if reg == 9 { PutWR9Keeps(s, data, wire); }
    else { SamePastKeeps(s.link, Store(s, data, b, reg, inbox).link, wire); }
  }

  lemma LoadKeeps(s: Scc, b: bool, reg: int, inbox: seq<seq<Byte>>, wire: set<seq<Byte>>)
    requires forall d :: d in inbox ==> d in wire && |d| >= 7
    ensures Keeps(s.link, Load(s, b, reg, inbox).0.link, wire)
  {
    hide Tick, Check, NodeOk, Keeps, Advance, Status0, Status3, ModifiedVector;
    CheckKeepsLink(Acknowledge(s));
    AdvanceKeepsLink(s.(b := s.b.(firstChar := false)));
    if reg == 0 && b { TickKeeps(s, inbox, wire); } else { SamePastKeeps(s.link, s.link, wire); }
  }

  /** One access by the guest, whatever it is, keeps the node's promise. */
  lemma AccessKeeps(s: Scc, op: Op, wire: set<seq<Byte>>)
    requires forall d :: d in op.inbox ==> d in wire && |d| >= 7
    ensures Keeps(s.link, Access(s, op).0.link, wire)
  {
    hide Store, Load, Check, NodeOk, Keeps, Op.ChannelB, Op.IsData;
    var t, reg := Pointed(s, op), Register(s, op);
    if op.write {
      StoreKeeps(t, op.data, op.ChannelB(), reg, op.inbox, wire);
      CheckKeepsLink(Store(t, op.data, op.ChannelB(), reg, op.inbox));
    } else {
      LoadKeeps(t, op.ChannelB(), reg, op.inbox, wire);
      CheckKeepsLink(Load(t, op.ChannelB(), reg, op.inbox).0);
    }
  }

  /** Nor does a tick from outside, or a machine reset, break it. */
  lemma EventKeeps(s: Scc, e: Event, wire: set<seq<Byte>>)
    requires forall d :: d in Taken(e) ==> d in wire && |d| >= 7
    ensures Keeps(s.link, Happens(s, e).link, wire)
  {
    hide Access, Tick, Keeps, NodeOk;
    match e {
      case Guest(op) => AccessKeeps(s, op, wire);
      case TimePasses(inbox) => TickKeeps(s, inbox, wire);
      case MachineReset => SamePastKeeps(s.link, Reset(s).link, wire);
    }
  }

  /** What the node's socket holds at an event. */
  function Taken(e: Event): seq<seq<Byte>> {
    match e
    case Guest(op) => op.inbox
    case TimePasses(inbox) => inbox
    case MachineReset => []
  }

  // ------------------------------------------------------------ the network

  /** The nodes, and every datagram any of them ever sent. */
  datatype Net = Net(nodes: seq<Scc>, wire: set<seq<Byte>>)

  /** Something happens at a node; its socket may be given anything ever sent, any number of times, in any order. */
  datatype Move = Move(node: nat, event: Event)

  predicate CanTake(n: Net, m: Move) {
    m.node < |n.nodes| && forall d :: d in Taken(m.event) ==> d in n.wire
  }

  function Take(n: Net, m: Move): Net
    requires CanTake(n, m)
  {
    var r := Happens(n.nodes[m.node], m.event);
    Net(n.nodes[m.node := r], n.wire + set d | d in r.link.sent)
  }

  predicate Possible(n: Net, moves: seq<Move>)
    decreases |moves|
  {
    moves == [] || (CanTake(n, moves[0]) && Possible(Take(n, moves[0]), moves[1..]))
  }

  function RunNet(n: Net, moves: seq<Move>): Net
    requires Possible(n, moves)
    decreases |moves|
  {
    if moves == [] then n else RunNet(Take(n, moves[0]), moves[1..])
  }

  /** Nothing transmitted, put out or heard yet. */
  predicate Starting(n: Net) {
    && n.wire == {}
    && forall s :: s in n.nodes ==>
         s.link.sent == [] && s.link.out == [] && s.link.heard == [] && !s.link.ctsPending
  }

  /** Some node sent it. */
  ghost predicate HasSender(n: Net, d: seq<Byte>) {
    exists j :: 0 <= j < |n.nodes| && SentBy(d, n.nodes[j].link)
  }

  ghost predicate NetOk(n: Net) {
    && (forall i :: 0 <= i < |n.nodes| ==> NodeOk(n.nodes[i].link, n.wire))
    && (forall d :: d in n.wire ==> HasSender(n, d))
  }

  lemma WiderWire(l: Link, wire: set<seq<Byte>>, wider: set<seq<Byte>>)
    requires NodeOk(l, wire) && wire <= wider
    ensures NodeOk(l, wider)
  {
    hide LastRts, AllSentOk, CtsOk, FromAfar;
    forall h | h in l.heard ensures HeardOk(h, l.stamp, l.out, wider) {
      assert HeardOk(h, l.stamp, l.out, wire);
      if h.Network? {
        var d :| d in wire && FromAfar(h, l.stamp, d);
        assert d in wider;
      }
    }
  }

  lemma SenderStays(n: Net, m: Move, d: seq<Byte>)
    requires CanTake(n, m) && HasSender(n, d)
    requires Extends(n.nodes[m.node].link, Happens(n.nodes[m.node], m.event).link)
    ensures HasSender(Take(n, m), d)
  {
    hide Happens, StampBytes;
    var j :| 0 <= j < |n.nodes| && SentBy(d, n.nodes[j].link);
    var r := Take(n, m);
    assert SentBy(d, r.nodes[j].link) by {
      if j == m.node {
        var l, k := n.nodes[j].link, r.nodes[j].link;
        var x :| 0 <= x < |l.out| && l.out[x] == d[4..];
        var y :| 0 <= y < |l.sent| && l.sent[y] == d;
        assert k.out[x] == d[4..] && k.sent[y] == d;
      }
    }
  }

  lemma TakeKeepsNetOk(n: Net, m: Move)
    requires CanTake(n, m) && NetOk(n)
    ensures NetOk(Take(n, m))
  {
    hide Happens, NodeOk, SentBy;
    var r, i := Take(n, m), m.node;
    var l, k := n.nodes[i].link, r.nodes[i].link;
    forall d | d in Taken(m.event) ensures |d| >= 7 { HasSenderIsLong(n, d); }
    EventKeeps(n.nodes[i], m.event, n.wire);
    NodeSentOk(k, n.wire);
    forall j | 0 <= j < |r.nodes| ensures NodeOk(r.nodes[j].link, r.wire) {
      WiderWire(r.nodes[j].link, n.wire, r.wire);
    }
    forall d | d in r.wire ensures HasSender(r, d) {
      if d in n.wire {
        SenderStays(n, m, d);
      } else {
        assert SentBy(d, r.nodes[i].link);
      }
    }
  }

  lemma HasSenderIsLong(n: Net, d: seq<Byte>)
    requires HasSender(n, d)
    ensures |d| >= 7
  {
    hide StampBytes;
  }

  lemma NodeSentOk(l: Link, wire: set<seq<Byte>>)
    requires NodeOk(l, wire)
    ensures forall d :: d in l.sent ==> SentBy(d, l)
  {
    hide AllHeardOk, CtsOk, SentBy;
  }

  lemma StartIsOk(n: Net)
    requires Starting(n)
    ensures NetOk(n)
  {
    forall i | 0 <= i < |n.nodes| ensures NodeOk(n.nodes[i].link, n.wire) {
      assert n.nodes[i] in n.nodes;
    }
  }

  lemma {:induction false} RunKeepsNetOk(n: Net, moves: seq<Move>)
    requires NetOk(n) && Possible(n, moves)
    ensures NetOk(RunNet(n, moves)) && |RunNet(n, moves).nodes| == |n.nodes|
    decreases |moves|
  {
    hide NetOk, Take;
    if moves != [] {
      TakeKeepsNetOk(n, moves[0]);
      assert |Take(n, moves[0]).nodes| == |n.nodes| by { SameNodes(n, moves[0]); }
      RunKeepsNetOk(Take(n, moves[0]), moves[1..]);
    }
  }

  lemma SameNodes(n: Net, m: Move)
    requires CanTake(n, m)
    ensures |Take(n, m).nodes| == |n.nodes|
  {
  }

  /** What a frame given to a receiver is: another node's, or the answer to this node's own last request. */
  ghost predicate Accounted(n: Net, i: nat, h: Heard)
    requires i < |n.nodes|
  {
    match h
    case Network(f, searching, node) => PassesFilter(searching, node, f) && CameFromAnother(n, i, f)
    case LocalCts(f, k) => k <= |n.nodes[i].link.out| && CtsAnswers(f, LastRts(n.nodes[i].link.out[..k]))
  }

  ghost predicate CameFromAnother(n: Net, i: nat, f: seq<Byte>) {
    exists j, g :: 0 <= j < |n.nodes| && j != i && Transmitted(n.nodes[j].link, g) && Trimmed(g) == f
  }

  /** The node gave the socket this frame behind its stamp; RTS and CTS never get that far. */
  predicate Transmitted(l: Link, f: seq<Byte>) {
    |f| >= 3 && StampBytes(l.stamp) + f in l.sent && f in l.out && f[2] != RTS && f[2] != CTS
  }

  /** The part of a frame that fits the receive buffer: all of it, up to 1796 bytes. */
  function Trimmed(f: seq<Byte>): (r: seq<Byte>)
    ensures |f| <= 1796 ==> r == f
  {
    if |f| <= 1796 then f else f[..1796]
  }

  lemma FarFramesCameFromAnother(n: Net, i: nat, h: Heard, d: seq<Byte>)
    requires i < |n.nodes| && HasSender(n, d) && h.Network? && FromAfar(h, n.nodes[i].link.stamp, d)
    ensures CameFromAnother(n, i, h.frame)
  {
    hide StampBytes;
    var j :| 0 <= j < |n.nodes| && SentBy(d, n.nodes[j].link);
    assert j != i;
    assert StampBytes(n.nodes[j].link.stamp) + d[4..] == d;
    assert Transmitted(n.nodes[j].link, d[4..]);
    assert Trimmed(d[4..]) == h.frame;
  }

  /**
    Over any run of any number of nodes, every frame given to a receiver is byte
    for byte (up to 1796 bytes) a frame transmitted by a different node, and passes
    the address filter; or it is the clear-to-send built from this node's most
    recent request to send.
   */
  lemma EveryFrameIsAccountedFor(n: Net, moves: seq<Move>, i: nat, h: Heard)
    requires Starting(n) && Possible(n, moves)
    requires i < |n.nodes|
    ensures |RunNet(n, moves).nodes| == |n.nodes|
    ensures h in RunNet(n, moves).nodes[i].link.heard ==> Accounted(RunNet(n, moves), i, h)
  {
    hide RunNet, LastRts, FromAfar, AllSentOk, CtsOk, CameFromAnother, PassesFilter, HasSender;
    StartIsOk(n);
    RunKeepsNetOk(n, moves);
    var r := RunNet(n, moves);
    var l := r.nodes[i].link;
    if h in l.heard {
      assert HeardOk(h, l.stamp, l.out, r.wire);
      if h.Network? {
        var d :| d in r.wire && FromAfar(h, l.stamp, d);
        FarFramesCameFromAnother(r, i, h, d);
        FarFramesPass(h, l.stamp, d);
      }
    }
  }

  lemma FarFramesPass(h: Heard, stamp: Long, d: seq<Byte>)
    requires h.Network? && FromAfar(h, stamp, d)
    ensures PassesFilter(h.searching, h.node, h.frame)
  {
  }

  // --------------------------------------------------------------- delivery

  function Rebuilt(b: seq<Byte>): int
    requires |b| == 4
  {
    var hi: int, mid: int, lo: int, last: int := b[0], b[1], b[2], b[3];
    hi * 0x100_0000 + mid * 0x1_0000 + lo * 0x100 + last
  }

  lemma StampRebuilds(a: Long)
    ensures a as int == Rebuilt(StampBytes(a))
  {
    var q: int, r: int := a / 0x100, a / 0x1_0000;
    assert q / 0x100 == r && r / 0x100 == a / 0x100_0000;
    assert a == q * 0x100 + a % 0x100;
    assert q == r * 0x100 + q % 0x100;
    assert r == r / 0x100 * 0x100 + r % 0x100;
  }

  lemma StampsDiffer(a: Long, b: Long)
    requires a != b
    ensures StampBytes(a) != StampBytes(b)
  {
    hide StampBytes;
    StampRebuilds(a);
    StampRebuilds(b);
  }

  lemma StampIsFourBytes(a: Long)
    ensures |StampBytes(a)| == 4
  {
  }

  /**
    The other way round: with distinct stamps, an idle listening node that takes
    another node's datagram from its socket is given that frame, ready to be read
    from its first byte, unless the address filter refuses it.
   */
  lemma ADatagramTakenIsHeard(s: Scc, from: Long, f: seq<Byte>, later: seq<seq<Byte>>)
    requires s.link.active && s.b.rxEnable && !s.b.rxAvail && s.rx.frame == None && !s.link.ctsPending
    requires from != s.link.stamp && 3 <= |f| <= 1796 && ForMe(s.link, f[0])
    ensures var t := Tick(s, [StampBytes(from) + f] + later);
            Fresh(t) && LastHeard(t) == f
  {
    hide Begin, Unread, StampBytes, Filled;
    var d := StampBytes(from) + f;
    StampIsFourBytes(from);
    StoreHoldsDatagram(s.link.store, d);
    StampsDiffer(from, s.link.stamp);
    assert d[..4] == StampBytes(from) && d[4..|d|] == f && d[4] == f[0];
    var inbox := [d] + later;
    assert inbox[0] == d && |d| == 4 + |f|;
    var t := s.link.(store := Filled(s.link.store, d));
    assert t.store[..4] != StampBytes(s.link.stamp) && ForMe(t, t.store[4]);
    var (l, g) := Receive(s.link, inbox);
    assert g == Some(f);
    BeginIsFresh(s.(link := l, rx := s.rx.(frame := g)), f);
  }
}
