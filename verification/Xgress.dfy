/** The two ends of one direction of a session: the receive loop that cuts what it reads from its
    peer into numbered payloads, and the side that orders payloads and writes them to its peer. */
module Xgress {
  import opened Basics
  import opened Words
  import opened Payloads
  import opened ReceiveBuffer
  import opened SendBuffer

  function Min(a: int, b: int): int {
    if a < b then a else b
  }

  /** The payloads made of one read; an empty read makes one empty payload. */
  function Cuts(buffer: seq<byte>, mtu: nat, first: int): (r: seq<Payload>)
    requires mtu > 0
    decreases |buffer|
  {
    var length := Min(|buffer|, mtu);
    var p := Payload(first, SessionData, buffer[..length]);
    if |buffer| - length < 1 then [p] else [p] + Cuts(buffer[length..], mtu, first + 1)
  }

  /** The payloads of a read, put together again, give back what was read. */
  lemma {:induction false} CutsRestoreTheRead(buffer: seq<byte>, mtu: nat, first: int)
    requires mtu > 0
    ensures Bytes(Cuts(buffer, mtu, first)) == buffer
    decreases |buffer|
  {
    var length := Min(|buffer|, mtu);
    var p := Payload(first, SessionData, buffer[..length]);
    assert Bytes([p]) == p.data by { assert [p][..0] == []; }
    if |buffer| - length >= 1 {
      var rest := Cuts(buffer[length..], mtu, first + 1);
      CutsRestoreTheRead(buffer[length..], mtu, first + 1);
      BytesAppend([p], rest);
    }
  }

  /** They are numbered consecutively and fit the MTU, all but the last are as long as that, and none of
      them is empty but the one payload of an empty read. */
  lemma {:induction false} CutsAreNumbered(buffer: seq<byte>, mtu: nat, first: int, i: nat)
    requires mtu > 0 && i < |Cuts(buffer, mtu, first)|
    ensures var p := Cuts(buffer, mtu, first)[i];
            && p.sequence == first + i && p.kind == SessionData && |p.data| <= mtu
            && (p.data == [] ==> buffer == [])
            && (i < |Cuts(buffer, mtu, first)| - 1 ==> |p.data| == mtu)
    decreases |buffer|
  {
    var length := Min(|buffer|, mtu);
    if i > 0 {
      CutsAreNumbered(buffer[length..], mtu, first + 1, i - 1);
    }
  }

  lemma CutsOneMore(buffer: seq<byte>, start: nat, mtu: nat, first: int)
    requires mtu > 0 && start <= |buffer|
    ensures var length := Min(|buffer| - start, mtu);
            var p := Payload(first, SessionData, buffer[start..start + length]);
            Cuts(buffer[start..], mtu, first) ==
            if |buffer| - start - length < 1 then [p] else [p] + Cuts(buffer[start + length..], mtu, first + 1)
  {
    var length := Min(|buffer| - start, mtu);
    assert buffer[start..][..length] == buffer[start..start + length];
    assert buffer[start..][length..] == buffer[start + length..];
  }

  /** A channel without buffer hands a value over directly; here it counts as having one slot. */
  function Slots(size: nat): nat {
    if size == 0 then 1 else size
  }

  /** After a write the sender is told of the room that it made if more than half of what was last
      reported is gone, and what was reported was not small. */
  predicate WorthAnAck(lastSent: uint32, size: uint32) {
    lastSent > 10000 && lastSent / 2 > size
  }

  /** What arrives is answered, with the size that the buffer then has, if and only if it is stored or was
      released before. */
  ghost predicate Answered(recv: RecvState, lastSent: uint32, p: Payload, maxSize: uint32,
                           recv': RecvState, lastSent': uint32, ack: Option<Ack>)
  {
    && recv' == Received(recv, p, maxSize)
    && ack == (if Stored(recv', p.sequence) then Some(Ack([p.sequence], recv'.size)) else None)
    && lastSent' == if ack.Some? then recv'.size else lastSent
  }

  /** What one round of the transmit loop looks at and changes. */
  datatype Transmission = Transmission(recv: RecvState, lastSent: uint32, queue: seq<Payload>, written: seq<byte>)

  /** One round, with a write that succeeds: an end of session ends the loop, a session start is not
      written, and afterwards the sender may be told of the room that was made. */
  ghost predicate RoundDone(t: Transmission, t': Transmission, done: bool, emptyAck: Option<Ack>)
    requires t.queue != []
  {
    var p := t.queue[0];
    && t'.queue == t.queue[1..]
    && done == p.kind.SessionEnd?
    && t'.written == t.written + (if p.kind.SessionData? then p.data else [])
    && t'.recv == t.recv.(size := if done then t.recv.size else Low32(t.recv.size - |p.data|))
    && emptyAck == (if !done && WorthAnAck(t.lastSent, t'.recv.size) then Some(Ack([], t'.recv.size)) else None)
    && t'.lastSent == if emptyAck.Some? then t'.recv.size else t.lastSent
  }

  /** Payloads that follow the last released sequence have moved to the queue, in order, and nothing else
      has changed. */
  ghost predicate Moved(recv: RecvState, queue: seq<Payload>, recv': RecvState, queue': seq<Payload>, slots: nat) {
    && queue <= queue' && |queue'| <= slots
    && recv'.sequence == recv.sequence + |queue'| - |queue|
    && (forall k :: recv.sequence < k <= recv'.sequence ==>
          k in recv.tree && queue'[|queue| + k - recv.sequence - 1] == recv.tree[k])
    && (forall k :: k in recv'.tree <==> k in recv.tree && k > recv'.sequence)
    && (forall k :: k in recv'.tree ==> recv'.tree[k] == recv.tree[k])
    && recv'.size == recv.size && recv'.maxSequence == recv.maxSequence
  }

  /** They have, as far as they reach and the queue has room. */
  ghost predicate RunQueued(recv: RecvState, queue: seq<Payload>, recv': RecvState, queue': seq<Payload>, slots: nat) {
    Moved(recv, queue, recv', queue', slots) && (|queue'| == slots || Head(recv').None?)
  }

  lemma MovedNext(recv: RecvState, queue: seq<Payload>, recv': RecvState, queue': seq<Payload>, slots: nat, p: Payload)
    requires Moved(recv, queue, recv', queue', slots) && Ordered(recv')
    requires Head(recv') == Some(p) && |queue'| < slots
    ensures Moved(recv, queue, Removed(recv', p), queue' + [p], slots)
  {
    assert p.sequence == recv'.sequence + 1;
  }

  class RxLoop {
    const mtu: nat
    var rxSequence: int
    var forwarded: seq<Payload>      // what went to forwardPayload, in order

    constructor (mtu: nat)
      ensures this.mtu == mtu && rxSequence == 0 && forwarded == []
    {
      this.mtu := mtu;
      rxSequence, forwarded := 0, [];
    }

    method NextReceiveSequence() returns (next: int)
      modifies this`rxSequence
      ensures next == old(rxSequence) && rxSequence == next + 1
    {
      next := rxSequence;
      rxSequence := rxSequence + 1;
    }

    /** What the receive loop does with one read. */
    method ForwardRead(buffer: seq<byte>)
      requires mtu > 0
      modifies this
      ensures forwarded == old(forwarded) + Cuts(buffer, mtu, old(rxSequence))
      ensures rxSequence == old(rxSequence) + |Cuts(buffer, mtu, old(rxSequence))|
    {
      hide Cuts;
      var start, remaining := 0, |buffer|;
      ghost var all, rest := Cuts(buffer, mtu, rxSequence), Cuts(buffer, mtu, rxSequence);
      assert buffer[0..] == buffer;
      while true
        invariant 0 <= start && 0 <= remaining && start + remaining == |buffer|
        invariant rest == Cuts(buffer[start..], mtu, rxSequence)
        invariant forwarded + rest == old(forwarded) + all
        invariant rxSequence + |rest| == old(rxSequence) + |all|
        decreases remaining
      {
        var length := Min(remaining, mtu);
        var sequence := NextReceiveSequence();
        var payload := Payload(sequence, SessionData, buffer[start..start + length]);
        CutsOneMore(buffer, start, mtu, sequence);
        ghost var before := forwarded;
        start := start + length;
        remaining := remaining - length;
        forwarded := forwarded + [payload];
        if remaining < 1 {
          break;
        }
        rest := Cuts(buffer[start..], mtu, rxSequence);
        assert before + ([payload] + rest) == forwarded + rest;
      }
    }
  }

  class TxSide {
    const rxBufferSize: uint32
    const txQueueSize: nat
    const linkRxBuffer: LinkReceiveBuffer
    var txQueue: seq<Payload>
    var written: seq<byte>             // what WritePayload has been given
    var endOfSessionReceived: bool

    ghost predicate Valid()
      reads this, linkRxBuffer
    {
      linkRxBuffer.Valid()
    }

    ghost function View(): Transmission
      reads this, linkRxBuffer
    {
      Transmission(linkRxBuffer.State(), linkRxBuffer.lastBufferSizeSent, txQueue, written)
    }

    constructor (rxBufferSize: uint32, txQueueSize: nat)
      ensures Valid() && fresh(linkRxBuffer)
      ensures this.rxBufferSize == rxBufferSize && this.txQueueSize == txQueueSize
      ensures linkRxBuffer.State() == EMPTY && txQueue == [] && written == [] && !endOfSessionReceived
    {
      this.rxBufferSize := rxBufferSize;
      this.txQueueSize := txQueueSize;
      linkRxBuffer := new LinkReceiveBuffer();
      txQueue, written, endOfSessionReceived := [], [], false;
    }

    /** An acknowledgement is made if and only if the payload is stored or was released before. */
    method PayloadReceived(payload: Payload) returns (ack: Option<Ack>)
      requires Valid()
      modifies linkRxBuffer
      ensures Valid()
      ensures Answered(old(linkRxBuffer.State()), old(linkRxBuffer.lastBufferSizeSent), payload, rxBufferSize,
                       linkRxBuffer.State(), linkRxBuffer.lastBufferSizeSent, ack)
    {
      var ok := linkRxBuffer.ReceiveUnordered(payload, rxBufferSize);
      if ok {
        ack := Some(Ack([payload.sequence], linkRxBuffer.size));
        linkRxBuffer.lastBufferSizeSent := linkRxBuffer.size;
      } else {
        ack := None;
      }
    }

    /** Moves the run of payloads that follows the last released sequence to the queue. */
    method QueueSends()
      requires Valid() && |txQueue| <= Slots(txQueueSize)
      modifies this`txQueue, linkRxBuffer`tree, linkRxBuffer`sequence
      ensures Valid()
      ensures RunQueued(old(linkRxBuffer.State()), old(txQueue), linkRxBuffer.State(), txQueue, Slots(txQueueSize))
    {
      ghost var recv, queue := linkRxBuffer.State(), txQueue;
      var payload := linkRxBuffer.PeekHead();
      while payload.Some? && |txQueue| < Slots(txQueueSize)
        invariant Valid() && payload == Head(linkRxBuffer.State())
        invariant Moved(recv, queue, linkRxBuffer.State(), txQueue, Slots(txQueueSize))
        decreases Slots(txQueueSize) - |txQueue|
      {
        MovedNext(recv, queue, linkRxBuffer.State(), txQueue, Slots(txQueueSize), payload.value);
        txQueue := txQueue + [payload.value];
        linkRxBuffer.Remove(payload.value);
        payload := linkRxBuffer.PeekHead();
      }
    }

    /** One round of the transmit loop, with a write that succeeds. `done` says that the loop ends. */
    method TransmitOne() returns (done: bool, emptyAck: Option<Ack>)
      requires Valid() && txQueue != []
      modifies this`txQueue, this`written, this`endOfSessionReceived, linkRxBuffer`size, linkRxBuffer`lastBufferSizeSent
      ensures Valid()
      ensures RoundDone(old(View()), View(), done, emptyAck)
      ensures endOfSessionReceived == (done || old(endOfSessionReceived))
      ensures emptyAck.Some? <==> !done && old(linkRxBuffer.lastBufferSizeSent) > 10000 &&
                                  old(linkRxBuffer.lastBufferSizeSent) / 2 > linkRxBuffer.size
    {
      emptyAck := None;
      var payload := txQueue[0];
      txQueue := txQueue[1..];
      if payload.kind.SessionEnd? {
        endOfSessionReceived := true;
        return true, None;
      }
      if !payload.kind.SessionStart? {
        written := written + payload.data;
      }
      var payloadSize := |payload.data|;
      ComplementSubtracts(linkRxBuffer.size, payloadSize);
      var size := Plus32(linkRxBuffer.size, Complement32(Low32(payloadSize - 1)));
      linkRxBuffer.size := size;
      var lastBufferSizeSent := linkRxBuffer.lastBufferSizeSent;
      if lastBufferSizeSent > 10000 && lastBufferSizeSent / 2 > size {
        var ack := SendEmptyAck();
        emptyAck := Some(ack);
      }
      return false, emptyAck;
    }

    method SendEmptyAck() returns (ack: Ack)
      modifies linkRxBuffer`lastBufferSizeSent
      ensures ack == Ack([], linkRxBuffer.size) && linkRxBuffer.lastBufferSizeSent == linkRxBuffer.size
    {
      ack := Ack([], linkRxBuffer.size);
      linkRxBuffer.lastBufferSizeSent := linkRxBuffer.size;
    }
  }
}
