/** The transport's invariant holds in every run, and what follows from it. */
module TransportProof {
  import opened Words
  import opened Payloads
  import opened ReceiveBuffer
  import opened SendBuffer
  import opened Xgress
  import opened Transport

  // ----- a payload is numbered -----

  lemma BytesOneMore(issued: seq<Payload>, p: Payload)
    ensures Bytes(issued + [p]) == Bytes(issued) + p.data
  {
    assert (issued + [p])[..|issued|] == issued;
  }

  lemma OrderGrows(rcv: Receiver, issued: seq<Payload>, p: Payload)
    requires OrderRight(rcv, issued)
    ensures OrderRight(rcv, issued + [p])
  {
    forall k | k in rcv.recv.tree ensures Genuine(issued + [p], rcv.recv.tree[k]) {
      assert Genuine(issued, rcv.recv.tree[k]);
    }
  }

  lemma WrittenGrows(rcv: Receiver, issued: seq<Payload>, p: Payload)
    requires WrittenRight(rcv, issued)
    ensures WrittenRight(rcv, issued + [p])
  {
    BytesOneMore(issued, p);
    assert rcv.consumed <= |issued| ==> (issued + [p])[..rcv.consumed] == issued[..rcv.consumed];
  }

  lemma NetworkGrows(s: System, p: Payload)
    requires NetworkRight(s)
    ensures NetworkRight(s.(snd := Issue(s.snd, p)))
  {
    forall x | x in s.payloads ensures Genuine(s.snd.issued + [p], x) {
      assert Genuine(s.snd.issued, x);
    }
  }

  lemma IssueBuffers(snd: Sender, p: Payload)
    requires BuffersRight(snd) && p.sequence == |snd.issued|
    ensures BuffersRight(Issue(snd, p))
  {
  }

  /** A sender that differs only in what it has read and numbered. */
  lemma IssueKeeps(o: Options, s: System, p: Payload, snd': Sender)
    requires Inv(o, s) && p.sequence == |s.snd.issued|
    requires snd' == Issue(s.snd, p).(pending := snd'.pending) && IssuedRight(o, snd')
    ensures Inv(o, s.(snd := snd'))
  {
    var s' := s.(snd := snd');
    IssueBuffers(s.snd, p);
    OrderGrows(s.rcv, s.snd.issued, p);
    WrittenGrows(s.rcv, s.snd.issued, p);
    NetworkGrows(s, p);
    assert forall q :: Kept(s, q) ==> Kept(s', q);
  }

  lemma ReadKeeps(o: Options, s: System, snd': Sender)
    requires Inv(o, s) && IssuedRight(o, snd')
    requires snd' == s.snd.(read := snd'.read, pending := snd'.pending, rxDone := snd'.rxDone)
    ensures Inv(o, s.(snd := snd'))
  {
    assert forall q :: Kept(s, q) ==> Kept(s.(snd := snd'), q);
  }

  lemma CutRight(o: Options, snd: Sender)
    requires IssuedRight(o, snd) && snd.pending.Some?
    ensures IssuedRight(o, NextCut(snd, o.mtu))
  {
    var rest := snd.pending.value;
    var p := Payload(|snd.issued|, SessionData, rest[..Min(|rest|, o.mtu)]);
    var left := rest[|p.data|..];
    BytesOneMore(snd.issued, p);
    assert rest == p.data + left;
    assert Bytes(snd.issued) + p.data + left == Bytes(snd.issued) + rest;
    assert Bytes(snd.issued) + p.data + [] == Bytes(snd.issued) + p.data;
  }

  lemma ControlRight(o: Options, snd: Sender, kind: Kind)
    requires IssuedRight(o, snd)
    ensures IssuedRight(o, Issue(snd, Payload(|snd.issued|, kind, [])))
  {
    BytesOneMore(snd.issued, Payload(|snd.issued|, kind, []));
    assert Bytes(snd.issued) + [] == Bytes(snd.issued);
  }

  lemma RxKeeps(o: Options, s: System, step: RxStep)
    requires Inv(o, s) && RxEnabled(o, s.snd, step)
    ensures Inv(o, s.(snd := RxNext(o, s.snd, step)))
  {
    var snd, snd' := s.snd, RxNext(o, s.snd, step);
    match step
    case Read(_) =>
      assert Bytes(snd.issued) + [] == Bytes(snd.issued);
      ReadKeeps(o, s, snd');
    case RxStop =>
      ReadKeeps(o, s, snd');
    case Cut =>
      CutRight(o, snd);
      IssueKeeps(o, s, Payload(|snd.issued|, SessionData, snd.pending.value[..Min(|snd.pending.value|, o.mtu)]), snd');
    case Control(kind) =>
      ControlRight(o, snd, kind);
      IssueKeeps(o, s, Payload(|snd.issued|, kind, []), snd');
  }

  // ----- the send buffer -----

  /** A sender that differs only in what it buffers. */
  lemma SenderFrame(o: Options, s: System, snd': Sender)
    requires Inv(o, s) && BuffersRight(snd') && WindowRight(o, snd')
    requires snd'.read == s.snd.read && snd'.pending == s.snd.pending && snd'.rxDone == s.snd.rxDone
    requires snd'.issued == s.snd.issued
    requires forall q :: q in snd'.accepted ==> Kept(s.(snd := snd'), q)
    ensures Inv(o, s.(snd := snd'))
  {
  }

  lemma BufferBuffers(o: Options, snd: Sender, q: int)
    requires BuffersRight(snd) && BufferEnabled(o, snd, Buffer(q))
    requires forall i :: 0 <= i < |snd.issued| ==> snd.issued[i].sequence == i
    ensures BuffersRight(BufferNext(o, snd, Buffer(q)))
  {
    var snd' := BufferNext(o, snd, Buffer(q));
    assert snd'.newlyBuffered[|snd.newlyBuffered|] == snd.issued[q];
    assert forall i :: 0 <= i < |snd.newlyBuffered| ==>
      snd'.newlyBuffered[i] == snd.newlyBuffered[i] && snd.newlyBuffered[i].sequence in snd.accepted;
  }

  lemma BufferKeeps(o: Options, s: System, q: int)
    requires Inv(o, s) && BufferEnabled(o, s.snd, Buffer(q))
    ensures Inv(o, s.(snd := BufferNext(o, s.snd, Buffer(q))))
  {
    var snd, snd' := s.snd, BufferNext(o, s.snd, Buffer(q));
    var s' := s.(snd := snd');
    BufferBuffers(o, snd, q);
    forall x | x in snd'.accepted ensures Kept(s', x) {
      if x == q {
        assert snd.issued[q] in snd'.newlyBuffered;
      } else {
        assert Kept(s, x);
      }
    }
    SenderFrame(o, s, snd');
  }

  lemma TakeInBuffers(o: Options, snd: Sender)
    requires BuffersRight(snd) && BufferEnabled(o, snd, TakeIn)
    ensures BuffersRight(BufferNext(o, snd, TakeIn))
  {
    var snd' := BufferNext(o, snd, TakeIn);
    assert forall i :: 0 <= i < |snd'.newlyBuffered| ==> snd'.newlyBuffered[i] == snd.newlyBuffered[i + 1];
    assert Genuine(snd.issued, snd.newlyBuffered[0]);
  }

  /** What is taken in fits, because the gate was open: the window was not exceeded before. */
  lemma TakeInWindow(o: Options, snd: Sender)
    requires IssuedRight(o, snd) && BuffersRight(snd) && WindowRight(o, snd) && BufferEnabled(o, snd, TakeIn)
    ensures WindowRight(o, BufferNext(o, snd, TakeIn))
  {
    var p := snd.newlyBuffered[0];
    assert Genuine(snd.issued, p);
    BufferedSize(snd.send, p);
  }

  lemma TakeInLosesNothing(o: Options, s: System, q: int)
    requires BufferEnabled(o, s.snd, TakeIn) && Kept(s, q)
    ensures Kept(s.(snd := BufferNext(o, s.snd, TakeIn)), q)
  {
    var snd, snd' := s.snd, BufferNext(o, s.snd, TakeIn);
    assert snd.newlyBuffered == [snd.newlyBuffered[0]] + snd.newlyBuffered[1..];
    if p :| p in snd.newlyBuffered && p.sequence == q {
      assert p == snd.newlyBuffered[0] || p in snd'.newlyBuffered;
    }
  }

  lemma TakeInKeeps(o: Options, s: System)
    requires Inv(o, s) && BufferEnabled(o, s.snd, TakeIn)
    ensures Inv(o, s.(snd := BufferNext(o, s.snd, TakeIn)))
  {
    var snd' := BufferNext(o, s.snd, TakeIn);
    TakeInBuffers(o, s.snd);
    TakeInWindow(o, s.snd);
    forall q | q in snd'.accepted ensures Kept(s.(snd := snd'), q) {
      TakeInLosesNothing(o, s, q);
    }
    SenderFrame(o, s, snd');
  }

  lemma RetransmitRight(o: Options, snd: Sender, due: set<int>)
    requires BuffersRight(snd) && WindowRight(o, snd) && BufferEnabled(o, snd, Retransmit(due))
    ensures BuffersRight(BufferNext(o, snd, Retransmit(due)))
    ensures WindowRight(o, BufferNext(o, snd, Retransmit(due)))
  {
    RetransmittedBuffer(o, snd.send, |due|);
    if Sensible(o) {
      RetransmittedWindow(o, snd.send, |due|);
    }
    assert forall q :: q in due ==> q in snd.send.buffer.Keys && q in snd.accepted;
  }

  /** The gate opens on a window that holds, and 32 bits are enough to tell. */
  lemma GateRight(o: Options, snd: Sender)
    requires WindowRight(o, snd)
    ensures WindowRight(o, snd.(open := !(Blocked(snd.send) && !snd.closeWhenEmpty)))
  {
  }

  lemma RetransmitKeeps(o: Options, s: System, due: set<int>)
    requires Inv(o, s) && BufferEnabled(o, s.snd, Retransmit(due))
    ensures Inv(o, s.(snd := BufferNext(o, s.snd, Retransmit(due))))
  {
    var snd' := BufferNext(o, s.snd, Retransmit(due));
    RetransmitRight(o, s.snd, due);
    RetransmittedBuffer(o, s.snd.send, |due|);
    assert forall q :: Kept(s, q) ==> Kept(s.(snd := snd'), q);
    SenderFrame(o, s, snd');
  }

  /** A sender that differs only in what is flagged or given up. */
  lemma FlagFrame(o: Options, s: System, snd': Sender)
    requires Inv(o, s) && WindowRight(o, snd')
    requires snd' == s.snd.(held := snd'.held, resending := snd'.resending, open := snd'.open,
                            closeWhenEmpty := snd'.closeWhenEmpty, closed := snd'.closed)
    requires snd'.held <= s.snd.held && snd'.resending <= s.snd.requeued
    ensures Inv(o, s.(snd := snd'))
  {
    assert BuffersRight(snd');
    assert forall q :: Kept(s, q) ==> Kept(s.(snd := snd'), q);
    SenderFrame(o, s, snd');
  }

  lemma GateKeeps(o: Options, s: System)
    requires Inv(o, s) && BufferEnabled(o, s.snd, Gate)
    ensures Inv(o, s.(snd := BufferNext(o, s.snd, Gate)))
  {
    GateRight(o, s.snd);
    FlagFrame(o, s, BufferNext(o, s.snd, Gate));
  }

  lemma BufferingKeeps(o: Options, s: System, step: BufferStep)
    requires Inv(o, s) && BufferEnabled(o, s.snd, step)
    ensures Inv(o, s.(snd := BufferNext(o, s.snd, step)))
  {
    match step
    case Buffer(q) => BufferKeeps(o, s, q);
    case TakeIn => TakeInKeeps(o, s);
    case Retransmit(due) => RetransmitKeeps(o, s, due);
    case Gate => GateKeeps(o, s);
    case _ => FlagFrame(o, s, BufferNext(o, s.snd, step));
  }

  lemma AckInRight(o: Options, snd: Sender, ack: Ack)
    requires BuffersRight(snd) && WindowRight(o, snd)
    ensures BuffersRight(snd.(send := Acknowledged(o, snd.send, ack)))
    ensures WindowRight(o, snd.(send := Acknowledged(o, snd.send, ack)))
    ensures Acknowledged(o, snd.send, ack).buffer == snd.send.buffer - Members(ack.sequences)
  {
    AckedAllBuffer(o, snd.send, ack.sequences);
    AckedAllSize(o, snd.send, ack.sequences);
    if Sensible(o) {
      AckedAllWindow(o, snd.send, ack.sequences);
    }
  }

  /** Only what the receiver has stored leaves the buffer. */
  lemma AckInKeeps(o: Options, s: System, ack: Ack)
    requires Inv(o, s) && ack in s.acks
    ensures Inv(o, s.(snd := s.snd.(send := Acknowledged(o, s.snd.send, ack)), acks := s.acks - multiset{ack}))
  {
    var snd' := s.snd.(send := Acknowledged(o, s.snd.send, ack));
    AckInRight(o, s.snd, ack);
    forall q | q in snd'.accepted ensures Kept(s.(snd := snd'), q) {
      assert Kept(s, q);
    }
    SenderFrame(o, s, snd');
    var s1 := s.(snd := snd');
    NetworkFrame(o, s1, s1.(acks := s1.acks - multiset{ack}));
  }

  // ----- the network -----

  lemma NetworkFrame(o: Options, s: System, s': System)
    requires Inv(o, s) && NetworkRight(s')
    requires s' == s.(payloads := s'.payloads, acks := s'.acks)
    ensures Inv(o, s')
  {
    assert forall q :: Kept(s, q) ==> Kept(s', q);
  }

  /** A sender that differs only in what waits to be forwarded or sent again. */
  lemma ForwardFrame(o: Options, s: System, snd': Sender)
    requires Inv(o, s)
    requires snd' == s.snd.(toForward := snd'.toForward, requeued := snd'.requeued, resending := snd'.resending)
    requires snd'.toForward <= s.snd.toForward && snd'.requeued <= s.snd.requeued && snd'.resending <= snd'.requeued
    ensures Inv(o, s.(snd := snd'))
  {
    assert BuffersRight(snd') && WindowRight(o, snd');
    assert forall q :: Kept(s, q) ==> Kept(s.(snd := snd'), q);
    SenderFrame(o, s, snd');
  }

  /** A receiver that differs only in what it remembers of its acknowledgements. */
  lemma MemoryFrame(o: Options, s: System, lastSent: uint32, owesAck: bool)
    requires Inv(o, s)
    ensures Inv(o, s.(rcv := s.rcv.(lastSent := lastSent, owesAck := owesAck)))
  {
    var rcv' := s.rcv.(lastSent := lastSent, owesAck := owesAck);
    assert OrderRight(rcv', s.snd.issued) && WrittenRight(rcv', s.snd.issued) && Waiting(rcv') == Waiting(s.rcv);
    ReceiverFrame(o, s, rcv');
  }

  lemma CarriedPayloads(s: System, step: NetworkStep, p: Payload)
    requires NetworkEnabled(s, step) && p in NetworkNext(s, step).payloads
    ensures p in s.payloads || ((step.Forward? || step.Resend?) && p == s.snd.issued[step.q])
  {
  }

  lemma CarriedAcks(s: System, step: NetworkStep, ack: Ack)
    requires NetworkEnabled(s, step) && ack in NetworkNext(s, step).acks
    ensures ack in s.acks
  {
  }

  lemma CarryingRight(s: System, step: NetworkStep)
    requires NetworkRight(s) && NetworkEnabled(s, step)
    requires forall i :: 0 <= i < |s.snd.issued| ==> s.snd.issued[i].sequence == i
    ensures NetworkRight(NetworkNext(s, step))
  {
    var s' := NetworkNext(s, step);
    assert s'.snd.issued == s.snd.issued && s'.rcv == s.rcv;
    forall p | p in s'.payloads ensures Genuine(s'.snd.issued, p) {
      CarriedPayloads(s, step, p);
    }
    forall ack, q | ack in s'.acks && q in ack.sequences ensures Stored(s'.rcv.recv, q) {
      CarriedAcks(s, step, ack);
    }
  }

  lemma CarryingKeeps(o: Options, s: System, step: NetworkStep)
    requires Inv(o, s) && NetworkEnabled(s, step)
    ensures Inv(o, NetworkNext(s, step))
  {
    CarryingRight(s, step);
    var s' := NetworkNext(s, step);
    ForwardFrame(o, s, s'.snd);
    NetworkFrame(o, s.(snd := s'.snd), s');
  }

  // ----- the receiver -----

  lemma ReceiverFrame(o: Options, s: System, rcv': Receiver)
    requires Inv(o, s)
    requires OrderRight(rcv', s.snd.issued) && WrittenRight(rcv', s.snd.issued)
    requires rcv'.recv.size == Low32(Waiting(rcv'))
    requires forall q :: Stored(s.rcv.recv, q) ==> Stored(rcv'.recv, q)
    ensures Inv(o, s.(rcv := rcv'))
  {
    assert forall q :: Kept(s, q) ==> Kept(s.(rcv := rcv'), q);
  }

  lemma DeliverOrder(rcv: Receiver, issued: seq<Payload>, p: Payload, maxSize: uint32)
    requires OrderRight(rcv, issued) && Genuine(issued, p) && rcv.removing.None?
    ensures OrderRight(rcv.(recv := Received(rcv.recv, p, maxSize)), issued)
  {
    ReceivedKeeps(rcv.recv, p, maxSize);
  }

  lemma DeliverSize(rcv: Receiver, issued: seq<Payload>, p: Payload, maxSize: uint32)
    requires OrderRight(rcv, issued) && Genuine(issued, p) && rcv.recv.size == Low32(Waiting(rcv))
    ensures var rcv' := rcv.(recv := Received(rcv.recv, p, maxSize)); rcv'.recv.size == Low32(Waiting(rcv'))
  {
    var rcv' := rcv.(recv := Received(rcv.recv, p, maxSize));
    assert p.sequence in rcv.recv.tree ==> Genuine(issued, rcv.recv.tree[p.sequence]);
    ReceivedSize(rcv.recv, p, maxSize);
    var other := Waiting(rcv) - TotalBytes(rcv.recv.tree);
    SameDifference(rcv.recv.size, TotalBytes(rcv.recv.tree), rcv'.recv.size, TotalBytes(rcv'.recv.tree), other);
  }

  lemma SameDifference(size: uint32, total: int, size': uint32, total': int, other: int)
    requires size == Low32(total + other) && Low32(size' - total') == Low32(size - total)
    ensures size' == Low32(total' + other)
  {
    hide Low32;
    Low32Sum(total + other, total);
    Low32Sum(size' - total', total');
    Low32Sum(other, total');
    Low32Own(size');
  }

  lemma DeliverNetwork(o: Options, s: System, p: Payload)
    requires NetworkRight(s) && Ordered(s.rcv.recv)
    ensures NetworkRight(Delivered(o, s, p))
  {
    ReceivedKeeps(s.rcv.recv, p, o.rxBufferSize);
    var s' := Delivered(o, s, p);
    assert forall x :: x in s'.payloads ==> x in s.payloads;
    forall ack, q | ack in s'.acks && q in ack.sequences ensures Stored(s'.rcv.recv, q) {
      assert ack in s.acks || ack == Ack([p.sequence], s'.rcv.recv.size);
    }
  }

  lemma DeliverKeeps(o: Options, s: System, p: Payload)
    requires Inv(o, s) && p in s.payloads && s.rcv.removing.None?
    ensures Inv(o, Delivered(o, s, p))
  {
    var rcv' := Delivered(o, s, p).rcv;
    assert Genuine(s.snd.issued, p);
    DeliverOrder(s.rcv, s.snd.issued, p, o.rxBufferSize);
    DeliverSize(s.rcv, s.snd.issued, p, o.rxBufferSize);
    ReceivedKeeps(s.rcv.recv, p, o.rxBufferSize);
    var middle := s.rcv.(recv := rcv'.recv);
    ReceiverFrame(o, s, middle);
    MemoryFrame(o, s.(rcv := middle), rcv'.lastSent, rcv'.owesAck);
    DeliverNetwork(o, s, p);
    NetworkFrame(o, s.(rcv := rcv'), Delivered(o, s, p));
  }

  lemma PushOrder(o: Options, rcv: Receiver, issued: seq<Payload>)
    requires OrderRight(rcv, issued) && TxEnabled(o, rcv, Push)
    ensures OrderRight(TxNext(o, rcv, Push), issued)
  {
    var p, rcv' := Head(rcv.recv).value, TxNext(o, rcv, Push);
    assert Genuine(issued, p) && p.sequence == Released(rcv);
    forall i | 0 <= i < |rcv'.txQueue|
      ensures rcv'.txQueue[i] == issued[rcv.consumed + Count(rcv.hand) + i]
    {
      if i == |rcv.txQueue| {
        assert rcv'.txQueue[i] == p;
      } else {
        assert rcv'.txQueue[i] == rcv.txQueue[i];
      }
    }
  }

  lemma PushWaiting(o: Options, rcv: Receiver)
    requires TxEnabled(o, rcv, Push)
    ensures Waiting(TxNext(o, rcv, Push)) == Waiting(rcv)
  {
    BytesOneMore(rcv.txQueue, Head(rcv.recv).value);
  }

  lemma RemoveOrder(o: Options, rcv: Receiver, issued: seq<Payload>)
    requires OrderRight(rcv, issued) && TxEnabled(o, rcv, Remove)
    ensures OrderRight(TxNext(o, rcv, Remove), issued)
    ensures Waiting(TxNext(o, rcv, Remove)) == Waiting(rcv)
    ensures forall q :: Stored(rcv.recv, q) ==> Stored(TxNext(o, rcv, Remove).recv, q)
  {
    RemovedKeeps(rcv.recv, rcv.removing.value);
    TotalBytesWithout(rcv.recv.tree, rcv.removing.value.sequence);
  }

  lemma PullOrder(o: Options, rcv: Receiver, issued: seq<Payload>)
    requires OrderRight(rcv, issued) && TxEnabled(o, rcv, Pull)
    ensures OrderRight(TxNext(o, rcv, Pull), issued)
  {
    var rest := rcv.txQueue[1..];
    assert forall i :: 0 <= i < |rest| ==> rest[i] == rcv.txQueue[i + 1] == issued[rcv.consumed + (i + 1)];
  }

  lemma PullWaiting(o: Options, rcv: Receiver)
    requires TxEnabled(o, rcv, Pull)
    ensures Waiting(TxNext(o, rcv, Pull)) == Waiting(rcv)
  {
    var first, rest := rcv.txQueue[0], rcv.txQueue[1..];
    assert rcv.txQueue == [first] + rest;
    BytesAppend([first], rest);
    assert Bytes([first]) == first.data by { assert [first][..0] == []; }
  }

  lemma BytesAround(issued: seq<Payload>, n: nat)
    requires n < |issued|
    ensures Bytes(issued[..n + 1]) == Bytes(issued[..n]) + issued[n].data
  {
    assert issued[..n + 1] == issued[..n] + [issued[n]];
    BytesOneMore(issued[..n], issued[n]);
  }

  lemma WriteOrder(rcv: Receiver, issued: seq<Payload>)
    requires rcv.hand.Some? && OrderRight(rcv, issued)
    ensures OrderRight(NextWrite(rcv), issued)
  {
  }

  lemma WriteSize(rcv: Receiver)
    requires rcv.hand.Some? && rcv.recv.size == Low32(Waiting(rcv))
    ensures NextWrite(rcv).recv.size == Low32(Waiting(NextWrite(rcv)))
  {
    Low32Sum(Waiting(rcv), |rcv.hand.value.data|);
  }

  /** What the transmit loop has in hand continues what it has written. */
  lemma WriteWritten(o: Options, snd: Sender, rcv: Receiver)
    requires IssuedRight(o, snd) && OrderRight(rcv, snd.issued) && WrittenRight(rcv, snd.issued)
    requires !rcv.done && rcv.hand.Some?
    ensures WrittenRight(NextWrite(rcv), snd.issued)
  {
    var before := Bytes(snd.issued[..rcv.consumed]);
    BytesAround(snd.issued, rcv.consumed);
    BytesPrefix(snd.issued, rcv.consumed);
    assert before + [] == before;
  }

  /** The transmit loop ends; a failing write may have put out a part of its payload. */
  lemma EndWritten(rcv: Receiver, issued: seq<Payload>, part: seq<byte>)
    requires OrderRight(rcv, issued) && WrittenRight(rcv, issued)
    requires part == [] || (!rcv.done && rcv.hand.Some? && part <= rcv.hand.value.data)
    ensures WrittenRight(rcv.(written := rcv.written + part, done := true), issued)
  {
    if !rcv.done {
      BytesPrefix(issued, rcv.consumed);
    }
    if part == [] {
      assert rcv.written + part == rcv.written;
    } else {
      BytesAround(issued, rcv.consumed);
      BytesPrefix(issued, rcv.consumed + 1);
    }
  }

  lemma EndKeeps(o: Options, s: System, part: seq<byte>)
    requires Inv(o, s)
    requires part == [] || (!s.rcv.done && s.rcv.hand.Some? && part <= s.rcv.hand.value.data)
    ensures Inv(o, s.(rcv := s.rcv.(written := s.rcv.written + part, done := true)))
  {
    var rcv' := s.rcv.(written := s.rcv.written + part, done := true);
    EndWritten(s.rcv, s.snd.issued, part);
    assert OrderRight(rcv', s.snd.issued);
    ReceiverFrame(o, s, rcv');
  }

  lemma PushKeeps(o: Options, s: System)
    requires Inv(o, s) && TxEnabled(o, s.rcv, Push)
    ensures Inv(o, s.(rcv := TxNext(o, s.rcv, Push)))
  {
    PushOrder(o, s.rcv, s.snd.issued);
    PushWaiting(o, s.rcv);
    ReceiverFrame(o, s, TxNext(o, s.rcv, Push));
  }

  lemma RemoveKeeps(o: Options, s: System)
    requires Inv(o, s) && TxEnabled(o, s.rcv, Remove)
    ensures Inv(o, s.(rcv := TxNext(o, s.rcv, Remove)))
  {
    RemoveOrder(o, s.rcv, s.snd.issued);
    ReceiverFrame(o, s, TxNext(o, s.rcv, Remove));
  }

  lemma PullKeeps(o: Options, s: System)
    requires Inv(o, s) && TxEnabled(o, s.rcv, Pull)
    ensures Inv(o, s.(rcv := TxNext(o, s.rcv, Pull)))
  {
    PullOrder(o, s.rcv, s.snd.issued);
    PullWaiting(o, s.rcv);
    ReceiverFrame(o, s, TxNext(o, s.rcv, Pull));
  }

  lemma WriteKeeps(o: Options, s: System)
    requires Inv(o, s) && TxEnabled(o, s.rcv, Write)
    ensures Inv(o, s.(rcv := TxNext(o, s.rcv, Write)))
  {
    WriteWritten(o, s.snd, s.rcv);
    WriteSize(s.rcv);
    WriteOrder(s.rcv, s.snd.issued);
    ReceiverFrame(o, s, TxNext(o, s.rcv, Write));
  }

  lemma TransmittingKeeps(o: Options, s: System, step: TxStep)
    requires Inv(o, s) && TxEnabled(o, s.rcv, step)
    ensures Inv(o, s.(rcv := TxNext(o, s.rcv, step)))
  {
    match step
    case WriteFails(n) =>
      EndKeeps(o, s, s.rcv.hand.value.data[..n]);
    case TxStop =>
      assert s.rcv.written + [] == s.rcv.written;
      EndKeeps(o, s, []);
    case Push => PushKeeps(o, s);
    case Remove => RemoveKeeps(o, s);
    case Pull => PullKeeps(o, s);
    case Write => WriteKeeps(o, s);
  }

  lemma EmptyAckKeeps(o: Options, s: System)
    requires Inv(o, s) && Enabled(o, s, EmptyAck)
    ensures Inv(o, Next(o, s, EmptyAck))
  {
    var s' := Next(o, s, EmptyAck);
    assert forall ack :: ack in s'.acks ==> ack in s.acks || ack.sequences == [];
    MemoryFrame(o, s, s.rcv.recv.size, false);
    NetworkFrame(o, s.(rcv := s'.rcv), s');
  }

  // ----- every run -----

  lemma StepKeeps(o: Options, s: System, step: Step)
    requires Inv(o, s) && Enabled(o, s, step)
    ensures Inv(o, Next(o, s, step))
  {
    match step
    case Receiving(rx) => RxKeeps(o, s, rx);
    case Buffering(buffer) => BufferingKeeps(o, s, buffer);
    case AckIn(ack) => AckInKeeps(o, s, ack);
    case Carrying(network) => CarryingKeeps(o, s, network);
    case Deliver(p) => DeliverKeeps(o, s, p);
    case Transmitting(tx) => TransmittingKeeps(o, s, tx);
    case EmptyAck => EmptyAckKeeps(o, s);
  }

  lemma InitialRight(o: Options)
    ensures Inv(o, Initial(o))
  {
    var s := Initial(o);
    assert TotalBytes(map[]) == 0 && Bytes([]) == [];
    assert IssuedRight(o, s.snd);
    assert BuffersRight(s.snd);
    assert WindowRight(o, s.snd);
    assert OrderRight(s.rcv, []);
    assert WrittenRight(s.rcv, []);
    assert NetworkRight(s);
  }

  lemma LeadsKeeps(o: Options, s: System, s': System)
    requires Inv(o, s) && Leads(o, s, s')
    ensures Inv(o, s')
  {
    var step :| Enabled(o, s, step) && s' == Next(o, s, step);
    StepKeeps(o, s, step);
  }

  lemma RunBefore(o: Options, run: seq<System>) returns (before: seq<System>, last: System)
    requires IsRun(o, run) && |run| > 1
    ensures IsRun(o, before) && |before| == |run| - 1
    ensures last == before[|before| - 1] && Leads(o, last, run[|run| - 1])
  {
    before := run[..|run| - 1];
    last := run[|run| - 2];
  }

  /** The invariant holds at the end of every run. */
  lemma {:induction false} RunKeeps(o: Options, run: seq<System>)
    requires IsRun(o, run)
    ensures Inv(o, run[|run| - 1])
    decreases |run|
  {
    if |run| == 1 {
      InitialRight(o);
    } else {
      var before, last := RunBefore(o, run);
      RunKeeps(o, before);
      LeadsKeeps(o, last, run[|run| - 1]);
    }
  }

  lemma ReachableRight(o: Options, s: System)
    requires Reachable(o, s)
    ensures Inv(o, s)
  {
    var run :| IsRun(o, run) && run[|run| - 1] == s;
    RunKeeps(o, run);
  }

  // ----- what the invariant means -----

  /** Whatever the network does, the peer of the receiving side has been given a prefix of the bytes
      that the sending side has read from its own peer. */
  lemma EndToEndOrder(o: Options, s: System)
    requires Reachable(o, s)
    ensures s.rcv.written <= s.snd.read
  {
    ReachableRight(o, s);
    if !s.rcv.done {
      BytesPrefix(s.snd.issued, s.rcv.consumed);
    }
  }

  /** Once every payload that was numbered has been handled, nothing of what was read is missing. */
  lemma NothingMissing(o: Options, s: System)
    requires Reachable(o, s)
    requires !s.snd.rxDone && s.snd.pending.None? && !s.rcv.done && s.rcv.consumed == |s.snd.issued|
    ensures s.rcv.written == s.snd.read
  {
    ReachableRight(o, s);
    assert s.snd.issued[..s.rcv.consumed] == s.snd.issued;
    assert Bytes(s.snd.issued) + [] == Bytes(s.snd.issued);
  }

  /** A payload accepted for sending is with the sender until the receiver has it. */
  lemma NoLoss(o: Options, s: System, q: int)
    requires Reachable(o, s) && q in s.snd.accepted
    ensures 0 <= q < |s.snd.issued|
    ensures || s.snd.issued[q] in s.snd.newlyBuffered
            || (q in s.snd.send.buffer && s.snd.send.buffer[q] == s.snd.issued[q])
            || q in s.rcv.recv.tree
            || q <= s.rcv.recv.sequence
  {
    ReachableRight(o, s);
    assert Kept(s, q);
    if p :| p in s.snd.newlyBuffered && p.sequence == q {
      assert Genuine(s.snd.issued, p);
    }
  }

  lemma OthersRemoveNothing(o: Options, s: System, step: Step, q: int)
    requires Enabled(o, s, step) && !step.AckIn? && q in s.snd.send.buffer
    ensures q in Next(o, s, step).snd.send.buffer
  {
    if step.Buffering? && step.buffer.Retransmit? {
      RetransmittedBuffer(o, s.snd.send, |step.buffer.due|);
    }
  }

  /** A payload leaves the send buffer only on an ack, and only when the receiver has it. */
  lemma LeavesOnlyStored(o: Options, s: System, step: Step, q: int)
    requires Reachable(o, s) && Enabled(o, s, step)
    requires q in s.snd.send.buffer && q !in Next(o, s, step).snd.send.buffer
    ensures step.AckIn? && q in step.ack.sequences && Stored(s.rcv.recv, q)
  {
    if step.AckIn? {
      AckedAllBuffer(o, s.snd.send, step.ack.sequences);
      ReachableRight(o, s);
    } else {
      OthersRemoveNothing(o, s, step, q);
    }
  }

  /** The size that the window is compared with is exact modulo 2^32; with sensible options and until
      the buffer is told to close when empty it is exact, and bounded. */
  lemma FlowControl(o: Options, s: System)
    requires Reachable(o, s)
    ensures s.snd.send.linkSendBufferSize == Low32(TotalBytes(s.snd.send.buffer))
    ensures Sensible(o) && !s.snd.closeWhenEmpty ==>
              s.snd.send.linkSendBufferSize == TotalBytes(s.snd.send.buffer) <= o.maxSize + o.mtu
    ensures Sensible(o) ==> s.snd.send.windowsSize <= o.maxSize
  {
    ReachableRight(o, s);
    if Sensible(o) {
      WindowMeans(o, s.snd);
    }
  }

  lemma WindowMeans(o: Options, snd: Sender)
    requires Sensible(o) && WindowRight(o, snd)
    ensures !snd.closeWhenEmpty ==>
              snd.send.linkSendBufferSize == TotalBytes(snd.send.buffer) <= o.maxSize + o.mtu
  {
  }

  /** The receiver's size counts the bytes in its tree, in its queue and in the transmit loop's hand. */
  lemma ReceiverConservation(o: Options, s: System)
    requires Reachable(o, s)
    ensures 0 <= Waiting(s.rcv)
    ensures s.rcv.recv.size == Low32(Waiting(s.rcv))
  {
    ReachableRight(o, s);
    if s.rcv.removing.Some? {
      TotalBytesWithout(s.rcv.recv.tree, s.rcv.removing.value.sequence);
    }
  }

  /** When the payload that would be released next is refused, nothing is stored out of order, and
      it is the receiver's peer that is behind: more than the configured size waits for it. */
  lemma OnlyThePeerStalls(o: Options, s: System, p: Payload)
    requires Reachable(o, s) && Enabled(o, s, Deliver(p))
    requires p.sequence == s.rcv.recv.sequence + 1 && Refuses(s.rcv.recv, p, o.rxBufferSize)
    ensures s.rcv.recv.tree == map[]
    ensures QueueBytes(s.rcv.txQueue) + Length(s.rcv.hand) > o.rxBufferSize
  {
    hide Enabled, Reachable, IssuedRight, BuffersRight, WindowRight, WrittenRight, NetworkRight, Kept;
    ReachableRight(o, s);
    NoSelfInflictedStall(s.rcv.recv, p, o.rxBufferSize);
    assert TotalBytes(s.rcv.recv.tree) == 0;
  }

  lemma NetworkMoves(o: Options, s: System, step: NetworkStep)
    requires NetworkEnabled(s, step)
    ensures Leads(o, s, NetworkNext(s, step))
  {
    assert Enabled(o, s, Carrying(step)) && Next(o, s, Carrying(step)) == NetworkNext(s, step);
  }

  /** The network may lose or repeat whatever it carries at any moment, and deliver it in any order as
      soon as the receiver is not just releasing a payload. */
  lemma PayloadsTravelFreely(o: Options, s: System, p: Payload)
    requires p in s.payloads
    ensures Leads(o, s, s.(payloads := s.payloads[p := s.payloads[p] - 1]))
    ensures Leads(o, s, s.(payloads := s.payloads[p := s.payloads[p] + 1]))
    ensures s.rcv.removing.None? ==> Enabled(o, s, Deliver(p))
  {
    hide Leads;
    OneLess(s.payloads, p);
    NetworkMoves(o, s, Drop(p));
    NetworkMoves(o, s, Duplicate(p));
  }

  lemma AcksTravelFreely(o: Options, s: System, ack: Ack)
    requires ack in s.acks
    ensures Leads(o, s, s.(acks := s.acks[ack := s.acks[ack] - 1]))
    ensures Leads(o, s, s.(acks := s.acks[ack := s.acks[ack] + 1]))
    ensures !s.snd.closed ==> Enabled(o, s, AckIn(ack))
  {
    hide Leads;
    OneLess(s.acks, ack);
    NetworkMoves(o, s, DropAck(ack));
    NetworkMoves(o, s, DuplicateAck(ack));
  }

  lemma OneLess<T>(m: multiset<T>, x: T)
    requires x in m
    ensures m - multiset{x} == m[x := m[x] - 1] && m + multiset{x} == m[x := m[x] + 1]
  {
  }

  /** The receive loop's steps number exactly the payloads of `Cuts`, one after the other. */
  lemma CutFollowsCuts(o: Options, snd: Sender)
    requires RxEnabled(o, snd, Cut) && o.mtu > 0
    ensures var snd' := RxNext(o, snd, Cut);
            |snd'.issued| == |snd.issued| + 1 &&
            var p := snd'.issued[|snd.issued|];
            Cuts(snd.pending.value, o.mtu, |snd.issued|) ==
            if snd'.pending.None? then [p] else [p] + Cuts(snd'.pending.value, o.mtu, |snd'.issued|)
  {
    CutsOneMore(snd.pending.value, 0, o.mtu, |snd.issued|);
    assert snd.pending.value[0..] == snd.pending.value;
  }
}
