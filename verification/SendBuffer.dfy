/** The sender's buffer: payloads wait here for their acknowledgement, and a window that grows with
    successful acks and shrinks with duplicate acks and retransmissions limits how much may wait. */
module SendBuffer {
  import opened Words
  import opened Payloads

  /** `outOfRange` is what the platform makes of a float that no uint32 can hold. */
  datatype Options = Options(
    mtu: nat,
    txQueueSize: nat,
    rxBufferSize: uint32,
    startSize: uint32,
    maxSize: uint32,
    minSize: uint32,
    increaseThresh: uint32,
    increaseScale: real,
    retxThresh: uint32,
    retxWindowScale: real,
    dupAckThresh: uint32,
    dupAckScale: real,
    retxScale: real,
    outOfRange: real -> uint32)

  /** The options that apply where the configuration says nothing. */
  function DefaultOptions(outOfRange: real -> uint32): Options {
    Options(64 * 1024, 1, 4 * 1024 * 1024, 16 * 1024, 4 * 1024 * 1024, 16 * 1024, 224, 1.0, 64, 0.75, 64, 0.9, 2.0, outOfRange)
  }

  ghost predicate Sensible(o: Options) {
    && o.mtu > 0
    && o.minSize <= o.startSize <= o.maxSize
    && o.maxSize + o.mtu < TWO_32
    && 0.0 <= o.retxWindowScale && 0.0 <= o.dupAckScale && 0.0 <= o.increaseScale
  }

  datatype Ack = Ack(sequences: seq<int>, recvBufferSize: uint32)

  datatype SendState = SendState(
    buffer: map<int, Payload>,
    windowsSize: uint32,
    linkSendBufferSize: uint32,
    linkRecvBufferSize: uint32,
    accumulator: uint32,
    successfulAcks: uint32,
    duplicateAcks: uint32,
    retransmits: uint32,
    retxScale: real)

  function Fresh(o: Options): SendState {
    SendState(map[], o.startSize, 0, 0, 0, 0, 0, 0, o.retxScale)
  }

  /** `uint32(x)` of a float: truncation towards zero where the result fits. */
  function Truncated(o: Options, x: real): uint32 {
    if x <= -1.0 || x >= TWO_32 as real then o.outOfRange(x)
    else if x < 0.0 then 0
    else x.Floor
  }

  function Scaled(o: Options, window: uint32, factor: real): uint32 {
    var scaled := Truncated(o, window as real * factor);
    if factor > 1.0 then
      if scaled > o.maxSize then o.maxSize else scaled
    else
      if scaled < o.minSize then o.minSize else scaled
  }

  function Increase(o: Options, accumulator: uint32): uint32 {
    Truncated(o, accumulator as real * o.increaseScale)
  }

  function Grown(o: Options, window: uint32, delta: uint32): uint32 {
    var grown := Plus32(window, delta);
    if grown > o.maxSize then o.maxSize else grown
  }

  predicate Blocked(s: SendState) {
    s.windowsSize < s.linkRecvBufferSize || s.windowsSize < s.linkSendBufferSize
  }

  function Buffered(s: SendState, p: Payload): (r: SendState) {
    s.(buffer := s.buffer[p.sequence := p], linkSendBufferSize := Plus32(s.linkSendBufferSize, Low32(|p.data|)))
  }

  /** One sequence of an acknowledgement.  The accumulator is not reset when the window grows. */
  function Acked(o: Options, s: SendState, sequence: int): (r: SendState) {
    if sequence in s.buffer then
      var size := Low32(|s.buffer[sequence].data|);
      var s1 := s.(buffer := s.buffer - {sequence},
                   linkSendBufferSize := Minus32(s.linkSendBufferSize, size),
                   accumulator := Plus32(s.accumulator, size),
                   successfulAcks := Plus32(s.successfulAcks, 1));
      if s1.successfulAcks >= o.increaseThresh then
        s1.(successfulAcks := 0,
            windowsSize := Grown(o, s.windowsSize, Increase(o, s1.accumulator)),
            retxScale := if s.retxScale - 0.02 < o.retxScale then o.retxScale else s.retxScale - 0.02)
      else s1
    else
      var s1 := s.(duplicateAcks := Plus32(s.duplicateAcks, 1));
      if s1.duplicateAcks >= o.dupAckThresh then
        s1.(accumulator := 0, duplicateAcks := 0,
            windowsSize := Scaled(o, s.windowsSize, o.dupAckScale),
            retxScale := s.retxScale + 0.2)
      else s1
  }

  function AckedAll(o: Options, s: SendState, sequences: seq<int>): (r: SendState) {
    if sequences == [] then s
    else Acked(o, AckedAll(o, s, sequences[..|sequences| - 1]), sequences[|sequences| - 1])
  }

  function Acknowledged(o: Options, s: SendState, ack: Ack): (r: SendState) {
    AckedAll(o, s, ack.sequences).(linkRecvBufferSize := ack.recvBufferSize)
  }

  /** The effect on the window of queueing `n` payloads for retransmission. */
  function Retransmitted(o: Options, s: SendState, n: nat): (r: SendState) {
    if n == 0 then s
    else
      var s0 := Retransmitted(o, s, n - 1);
      var s1 := s0.(retransmits := Plus32(s0.retransmits, 1));
      if s1.retransmits >= o.retxThresh then
        s1.(accumulator := 0, retransmits := 0, windowsSize := Scaled(o, s1.windowsSize, o.retxWindowScale))
      else s1
  }

  // ----- the numbers -----

  /** A window times a factor, rounded down: what is left of it where nothing overflows. */
  lemma ScaledExactly(o: Options, window: uint32, factor: real)
    ensures var product := window as real * factor;
            && (0.0 <= factor <= 1.0 ==>
                  Scaled(o, window, factor) == if product.Floor < o.minSize then o.minSize else product.Floor)
            && (factor > 1.0 && product < 4294967296.0 ==>
                  Scaled(o, window, factor) == if product.Floor > o.maxSize then o.maxSize else product.Floor)
  {
    if 0.0 <= factor <= 1.0 {
      ScaleDown(window, factor);
    } else if factor > 1.0 {
      ScaleUp(window, factor);
    }
  }

  lemma ScaledTo(o: Options, window: uint32, factor: real, left: int)
    requires 0.0 <= factor <= 1.0 && left == (window as real * factor).Floor
    ensures 0 <= left <= window
    ensures Scaled(o, window, factor) == if left < o.minSize then o.minSize else left
  {
    ScaleDown(window, factor);
    ScaledExactly(o, window, factor);
  }

  /** A sequence that is not buffered counts as a duplicate.  The one that reaches the threshold narrows
      the window, and counter and accumulator start again. */
  lemma DuplicateNarrows(o: Options, s: SendState, sequence: int, left: int)
    requires sequence !in s.buffer && 0.0 <= o.dupAckScale <= 1.0
    requires left == (s.windowsSize as real * o.dupAckScale).Floor
    ensures 0 <= left <= s.windowsSize
    ensures var n := Low32(s.duplicateAcks + 1);
            Acked(o, s, sequence) ==
            if n < o.dupAckThresh then s.(duplicateAcks := n)
            else s.(duplicateAcks := 0, accumulator := 0, retxScale := s.retxScale + 0.2,
                    windowsSize := if left < o.minSize then o.minSize else left)
  {
    hide Low32, Scaled;
    ScaledTo(o, s.windowsSize, o.dupAckScale, left);
  }

  /** So does the retransmission that reaches its threshold, after any number `k` of others. */
  lemma RetransmissionNarrows(o: Options, before: SendState, k: nat, left: int)
    requires 0.0 <= o.retxWindowScale <= 1.0
    requires left == (Retransmitted(o, before, k).windowsSize as real * o.retxWindowScale).Floor
    ensures var s := Retransmitted(o, before, k);
            var n := Low32(s.retransmits + 1);
            && (k == 0 ==> s == before) && 0 <= left <= s.windowsSize
            && Retransmitted(o, before, k + 1) ==
               if n < o.retxThresh then s.(retransmits := n)
               else s.(retransmits := 0, accumulator := 0, windowsSize := if left < o.minSize then o.minSize else left)
  {
    hide Low32, Scaled;
    ScaledTo(o, Retransmitted(o, before, k).windowsSize, o.retxWindowScale, left);
  }

  /** The sequences of an acknowledgement count one by one, also those that are not buffered. */
  lemma AckedOneMore(o: Options, s: SendState, sequences: seq<int>, q: int)
    ensures AckedAll(o, s, []) == s
    ensures AckedAll(o, s, sequences + [q]) == Acked(o, AckedAll(o, s, sequences), q)
  {
    assert (sequences + [q])[..|sequences|] == sequences;
  }

  /** Every payload that is acknowledged leaves the buffer and adds its bytes to the accumulator; the one
      that reaches the threshold widens the window by the accumulator, scaled, up to the maximum. */
  lemma AckWidens(o: Options, s: SendState, sequence: int, more: uint32)
    requires sequence in s.buffer
    requires 0.0 <= Low32(s.accumulator + |s.buffer[sequence].data|) as real * o.increaseScale
    requires more == (Low32(s.accumulator + |s.buffer[sequence].data|) as real * o.increaseScale).Floor
    ensures var n, wide := Low32(s.successfulAcks + 1), Low32(s.windowsSize + more);
            var s' := s.(buffer := s.buffer - {sequence},
                         accumulator := Low32(s.accumulator + |s.buffer[sequence].data|),
                         linkSendBufferSize := Low32(s.linkSendBufferSize - |s.buffer[sequence].data|));
            Acked(o, s, sequence) ==
            if n < o.increaseThresh then s'.(successfulAcks := n)
            else s'.(successfulAcks := 0, windowsSize := if wide > o.maxSize then o.maxSize else wide,
                     retxScale := if s.retxScale - 0.02 < o.retxScale then o.retxScale else s.retxScale - 0.02)
  {
    hide Low32, Increase;
    var size := |s.buffer[sequence].data|;
    Low32Sum(size, s.accumulator);
    assert Plus32(s.accumulator, Low32(size)) == Low32(s.accumulator + size);
    Low32Difference(s.linkSendBufferSize, size);
    IncreaseIs(o, Low32(s.accumulator + size), more);
    AckedBuffered(o, s, sequence, Low32(s.accumulator + size), more);
  }

  lemma IncreaseIs(o: Options, total: uint32, more: uint32)
    requires 0.0 <= total as real * o.increaseScale && more == (total as real * o.increaseScale).Floor
    ensures Increase(o, total) == more
  {
  }

  lemma AckedBuffered(o: Options, s: SendState, sequence: int, total: uint32, delta: uint32)
    requires sequence in s.buffer
    requires total == Plus32(s.accumulator, Low32(|s.buffer[sequence].data|)) && delta == Increase(o, total)
    ensures var n, wide := Low32(s.successfulAcks + 1), Low32(s.windowsSize + delta);
            var s' := s.(buffer := s.buffer - {sequence}, accumulator := total,
                         linkSendBufferSize := Minus32(s.linkSendBufferSize, Low32(|s.buffer[sequence].data|)));
            Acked(o, s, sequence) ==
            if n < o.increaseThresh then s'.(successfulAcks := n)
            else s'.(successfulAcks := 0, windowsSize := if wide > o.maxSize then o.maxSize else wide,
                     retxScale := if s.retxScale - 0.02 < o.retxScale then o.retxScale else s.retxScale - 0.02)
  {
    hide Low32, Truncated, Increase;
  }

  lemma Low32Difference(x: int, n: nat)
    ensures Low32(x - Low32(n)) == Low32(x - n)
  {
    Low32Shift(x - n, n / TWO_32);
    assert x - Low32(n) == x - n + n / TWO_32 * TWO_32;
  }

  // ----- what an acknowledgement removes -----

  function Members(sequences: seq<int>): set<int> {
    set q | q in sequences
  }

  /** A payload leaves the buffer if and only if its sequence is acknowledged. */
  lemma {:induction false} AckedAllBuffer(o: Options, s: SendState, sequences: seq<int>)
    ensures AckedAll(o, s, sequences).buffer == s.buffer - Members(sequences)
  {
    if sequences == [] {
      assert s.buffer - Members(sequences) == s.buffer;
    } else {
      var front, last := sequences[..|sequences| - 1], sequences[|sequences| - 1];
      AckedAllBuffer(o, s, front);
      assert sequences == front + [last];
      assert Members(sequences) == Members(front) + {last};
      assert s.buffer - Members(front) - {last} == s.buffer - Members(sequences);
      if last !in s.buffer - Members(front) {
        assert s.buffer - Members(front) - {last} == s.buffer - Members(front);
      }
    }
  }

  lemma {:induction false} RetransmittedBuffer(o: Options, s: SendState, n: nat)
    ensures Retransmitted(o, s, n).buffer == s.buffer
    ensures Retransmitted(o, s, n).linkSendBufferSize == s.linkSendBufferSize
  {
    if n > 0 {
      RetransmittedBuffer(o, s, n - 1);
    }
  }

  // ----- the buffer's size -----

  ghost predicate SizeRight(s: SendState) {
    s.linkSendBufferSize == Low32(TotalBytes(s.buffer))
  }

  lemma BufferedSize(s: SendState, p: Payload)
    requires SizeRight(s) && p.sequence !in s.buffer
    ensures SizeRight(Buffered(s, p))
    ensures TotalBytes(Buffered(s, p).buffer) == TotalBytes(s.buffer) + |p.data|
  {
    TotalBytesWith(s.buffer, p.sequence, p);
    Low32Sum(TotalBytes(s.buffer), Low32(|p.data|));
    Low32Sum(|p.data|, TotalBytes(s.buffer));
  }

  lemma AckedSize(o: Options, s: SendState, sequence: int)
    requires SizeRight(s)
    ensures SizeRight(Acked(o, s, sequence))
    ensures TotalBytes(Acked(o, s, sequence).buffer) <= TotalBytes(s.buffer)
  {
    if sequence in s.buffer {
      TotalBytesWithout(s.buffer, sequence);
      var n, total := |s.buffer[sequence].data|, TotalBytes(s.buffer);
      Low32Sum(total, Low32(n));
      Low32Difference(total, n);
    }
  }

  lemma {:induction false} AckedAllSize(o: Options, s: SendState, sequences: seq<int>)
    requires SizeRight(s)
    ensures SizeRight(AckedAll(o, s, sequences))
    ensures TotalBytes(AckedAll(o, s, sequences).buffer) <= TotalBytes(s.buffer)
  {
    if sequences != [] {
      var front := sequences[..|sequences| - 1];
      AckedAllSize(o, s, front);
      AckedSize(o, AckedAll(o, s, front), sequences[|sequences| - 1]);
    }
  }

  // ----- the window's bounds -----

  lemma ScaledBounds(o: Options, window: uint32, factor: real)
    requires Sensible(o) && window <= o.maxSize && 0.0 <= factor
    ensures Scaled(o, window, factor) <= o.maxSize
    ensures o.minSize <= window ==> (o.minSize <= Scaled(o, window, factor) <==> ScaleFits(o, window, factor))
  {
    if factor <= 1.0 {
      ScaleDown(window, factor);
    } else {
      ScaleUp(window, factor);
    }
  }

  lemma ScaleDown(window: uint32, factor: real)
    requires 0.0 <= factor <= 1.0
    ensures 0.0 <= window as real * factor <= window as real
    ensures (window as real * factor).Floor <= window
  {
    Product(window as real, factor);
    Product(window as real, 1.0 - factor);
  }

  lemma ScaleUp(window: uint32, factor: real)
    requires 1.0 <= factor
    ensures window as real <= window as real * factor
    ensures window <= (window as real * factor).Floor
  {
    Product(window as real, factor - 1.0);
  }

  lemma Product(x: real, y: real)
    requires 0.0 <= x && 0.0 <= y
    ensures 0.0 <= x * y && x * (1.0 - y) == x - x * y && x * (y + 1.0) == x * y + x
  {
  }

  lemma AckedWindow(o: Options, s: SendState, sequence: int)
    requires Sensible(o) && s.windowsSize <= o.maxSize
    ensures Acked(o, s, sequence).windowsSize <= o.maxSize
    ensures o.minSize <= s.windowsSize ==>
              (o.minSize <= Acked(o, s, sequence).windowsSize <==> AckFits(o, s, sequence))
  {
    if sequence !in s.buffer {
      ScaledBounds(o, s.windowsSize, o.dupAckScale);
    } else {
      GrownBounds(o, s.windowsSize, Increase(o, Plus32(s.accumulator, Low32(|s.buffer[sequence].data|))));
    }
  }

  lemma GrownBounds(o: Options, window: uint32, delta: uint32)
    requires Sensible(o)
    ensures Grown(o, window, delta) <= o.maxSize
    ensures o.minSize <= window ==> (o.minSize <= Grown(o, window, delta) <==> GrowthFits(o, window, delta))
  {
  }

  /** Scaling up stays within 32 bits, or else the platform's answer happens to be large enough. */
  predicate ScaleFits(o: Options, window: uint32, factor: real) {
    var scaled := window as real * factor;
    factor <= 1.0 || scaled < TWO_32 as real || o.outOfRange(scaled) >= o.minSize
  }

  /** The sum stays within 32 bits, or else wraps to something large enough. */
  predicate GrowthFits(o: Options, window: uint32, delta: uint32) {
    window + delta < TWO_32 || window + delta - TWO_32 >= o.minSize
  }

  predicate AckFits(o: Options, s: SendState, sequence: int) {
    if sequence !in s.buffer then
      Plus32(s.duplicateAcks, 1) >= o.dupAckThresh ==> ScaleFits(o, s.windowsSize, o.dupAckScale)
    else
      Plus32(s.successfulAcks, 1) >= o.increaseThresh ==>
        GrowthFits(o, s.windowsSize, Increase(o, Plus32(s.accumulator, Low32(|s.buffer[sequence].data|))))
  }

  lemma {:induction false} AckedAllWindow(o: Options, s: SendState, sequences: seq<int>)
    requires Sensible(o) && s.windowsSize <= o.maxSize
    ensures AckedAll(o, s, sequences).windowsSize <= o.maxSize
  {
    if sequences != [] {
      var front := sequences[..|sequences| - 1];
      AckedAllWindow(o, s, front);
      AckedWindow(o, AckedAll(o, s, front), sequences[|sequences| - 1]);
    }
  }

  lemma {:induction false} RetransmittedWindow(o: Options, s: SendState, n: nat)
    requires Sensible(o) && s.windowsSize <= o.maxSize
    ensures Retransmitted(o, s, n).windowsSize <= o.maxSize
  {
    if n > 0 {
      RetransmittedWindow(o, s, n - 1);
      ScaledBounds(o, Retransmitted(o, s, n - 1).windowsSize, o.retxWindowScale);
    }
  }

  /** One thing that happens to a send buffer: a sequence is acked, a payload is buffered, a payload
      is queued for retransmission. */
  datatype Event = AckOne(sequence: int) | BufferOne(p: Payload) | RetransmitOne

  function After(o: Options, s: SendState, e: Event): SendState {
    match e
    case AckOne(sequence) => Acked(o, s, sequence)
    case BufferOne(p) => Buffered(s, p)
    case RetransmitOne => Retransmitted(o, s, 1)
  }

  function AfterAll(o: Options, events: seq<Event>): SendState {
    if events == [] then Fresh(o)
    else After(o, AfterAll(o, events[..|events| - 1]), events[|events| - 1])
  }

  predicate Fits(o: Options, s: SendState, e: Event) {
    match e
    case AckOne(sequence) => AckFits(o, s, sequence)
    case BufferOne(_) => true
    case RetransmitOne =>
      Plus32(s.retransmits, 1) >= o.retxThresh ==> ScaleFits(o, s.windowsSize, o.retxWindowScale)
  }

  ghost predicate AllFit(o: Options, events: seq<Event>) {
    events != [] ==>
      var front := events[..|events| - 1];
      AllFit(o, front) && Fits(o, AfterAll(o, front), events[|events| - 1])
  }

  ghost predicate AlwaysAtLeastMin(o: Options, events: seq<Event>) {
    && o.minSize <= AfterAll(o, events).windowsSize
    && (events != [] ==> AlwaysAtLeastMin(o, events[..|events| - 1]))
  }

  /** Over any run the window never exceeds the configured maximum; and it never falls below the
      configured minimum if and only if, each time it is enlarged, the result fits 32 bits or, when it
      does not, is still large enough. */
  lemma {:induction false} WindowBounds(o: Options, events: seq<Event>)
    requires Sensible(o)
    ensures AfterAll(o, events).windowsSize <= o.maxSize
    ensures AlwaysAtLeastMin(o, events) <==> AllFit(o, events)
  {
    if events != [] {
      var front, e := events[..|events| - 1], events[|events| - 1];
      WindowBounds(o, front);
      if AllFit(o, front) {
        assert AlwaysAtLeastMin(o, front) && o.minSize <= AfterAll(o, front).windowsSize;
      }
      EventWindow(o, AfterAll(o, front), e);
    }
  }

  lemma EventWindow(o: Options, s: SendState, e: Event)
    requires Sensible(o) && s.windowsSize <= o.maxSize
    ensures After(o, s, e).windowsSize <= o.maxSize
    ensures o.minSize <= s.windowsSize ==> (o.minSize <= After(o, s, e).windowsSize <==> Fits(o, s, e))
  {
    if e.AckOne? {
      AckedWindow(o, s, e.sequence);
    } else if e.RetransmitOne? {
      assert Retransmitted(o, s, 0) == s;
      ScaledBounds(o, s.windowsSize, o.retxWindowScale);
    }
  }

  /** The bytes that an event acknowledges. */
  function Gained(s: SendState, e: Event): nat {
    if e.AckOne? && e.sequence in s.buffer then |s.buffer[e.sequence].data| else 0
  }

  /** The bytes that a run acknowledges. */
  function AckedBytes(o: Options, events: seq<Event>): nat {
    if events == [] then 0
    else
      var front := events[..|events| - 1];
      AckedBytes(o, front) + Gained(AfterAll(o, front), events[|events| - 1])
  }

  lemma AccumulatorStep(o: Options, s: SendState, e: Event)
    ensures After(o, s, e).accumulator <= s.accumulator + Gained(s, e)
  {
    hide Low32, Truncated, Scaled, Grown, Increase;
    if e.AckOne? && e.sequence in s.buffer {
      Low32Below(|s.buffer[e.sequence].data|);
      Low32Below(s.accumulator + Low32(|s.buffer[e.sequence].data|));
    }
    if e.RetransmitOne? {
      assert Retransmitted(o, s, 0) == s;
    }
  }

  lemma {:induction false} AccumulatorBound(o: Options, events: seq<Event>)
    ensures AfterAll(o, events).accumulator <= AckedBytes(o, events)
  {
    if events != [] {
      var front := events[..|events| - 1];
      AccumulatorBound(o, front);
      AccumulatorStep(o, AfterAll(o, front), events[|events| - 1]);
    }
  }

  /** Growing by that many bytes, scaled, does not overflow. */
  predicate FewBytes(o: Options, total: nat) {
    total as real * o.increaseScale + o.maxSize as real < TWO_32 as real
  }

  lemma FewerBytes(o: Options, less: nat, total: nat)
    requires less <= total && 0.0 <= o.increaseScale && FewBytes(o, total)
    ensures FewBytes(o, less) && 0.0 <= less as real * o.increaseScale
  {
    Product((total - less) as real, o.increaseScale);
    Product(less as real, o.increaseScale);
    assert total as real == less as real + (total - less) as real;
    assert total as real * o.increaseScale == less as real * o.increaseScale + (total - less) as real * o.increaseScale;
  }

  lemma FewBytesStep(o: Options, s: SendState, e: Event, total: nat)
    requires Sensible(o) && o.retxWindowScale <= 1.0 && o.dupAckScale <= 1.0
    requires s.windowsSize <= o.maxSize && s.accumulator + Gained(s, e) <= total && FewBytes(o, total)
    ensures Fits(o, s, e)
  {
    if e.AckOne? && e.sequence in s.buffer {
      FewerBytes(o, Plus32(s.accumulator, Low32(|s.buffer[e.sequence].data|)), total);
    }
  }

  /** The window stays within its bounds as long as the session has acknowledged no more than, scaled,
      2^32 less the maximum window bytes. */
  lemma {:induction false} FewBytesFit(o: Options, events: seq<Event>)
    requires Sensible(o) && o.retxWindowScale <= 1.0 && o.dupAckScale <= 1.0
    requires FewBytes(o, AckedBytes(o, events))
    ensures AllFit(o, events)
  {
    if events != [] {
      var front, e := events[..|events| - 1], events[|events| - 1];
      FewerBytes(o, AckedBytes(o, front), AckedBytes(o, events));
      FewBytesFit(o, front);
      WindowBounds(o, front);
      AccumulatorBound(o, front);
      FewBytesStep(o, AfterAll(o, front), e, AckedBytes(o, events));
    }
  }

  // ----- the buffer as the run loop changes it -----

  class LinkSendBuffer {
    const options: Options
    var buffer: map<int, Payload>
    var windowsSize: uint32
    var linkSendBufferSize: uint32
    var linkRecvBufferSize: uint32
    var accumulator: uint32
    var successfulAcks: uint32
    var duplicateAcks: uint32
    var retransmits: uint32
    var retxScale: real

    ghost function State(): SendState
      reads this
    {
      SendState(buffer, windowsSize, linkSendBufferSize, linkRecvBufferSize, accumulator,
                successfulAcks, duplicateAcks, retransmits, retxScale)
    }

    constructor (options: Options)
      ensures this.options == options && State() == Fresh(options)
      ensures buffer == map[] && windowsSize == options.startSize && linkRecvBufferSize == 0 == linkSendBufferSize
    {
      this.options := options;
      buffer, windowsSize := map[], options.startSize;
      linkSendBufferSize, linkRecvBufferSize, accumulator := 0, 0, 0;
      successfulAcks, duplicateAcks, retransmits, retxScale := 0, 0, 0, options.retxScale;
    }

    method IsBlocked() returns (blocked: bool)
      ensures blocked == Blocked(State())
      ensures blocked <==> windowsSize < linkRecvBufferSize || windowsSize < linkSendBufferSize
    {
      blocked := false;
      if windowsSize < linkRecvBufferSize {
        blocked := true;
      }
      if windowsSize < linkSendBufferSize {
        blocked := true;
      }
    }

    method Scale(factor: real)
      modifies this`windowsSize
      ensures windowsSize == Scaled(options, old(windowsSize), factor)
      ensures var product := old(windowsSize) as real * factor;
              && (0.0 <= factor <= 1.0 ==>
                    windowsSize == if product.Floor < options.minSize then options.minSize else product.Floor)
              && (factor > 1.0 && product < 4294967296.0 ==>
                    windowsSize == if product.Floor > options.maxSize then options.maxSize else product.Floor)
    {
      ScaledExactly(options, windowsSize, factor);
      windowsSize := Truncated(options, windowsSize as real * factor);
      if factor > 1.0 {
        if windowsSize > options.maxSize {
          windowsSize := options.maxSize;
        }
      } else if windowsSize < options.minSize {
        windowsSize := options.minSize;
      }
    }

    method ReceiveSequence(sequence: int) returns (found: bool)
      modifies this
      ensures State() == Acked(options, old(State()), sequence)
      ensures found == (sequence in old(buffer))
    {
      found := sequence in buffer;
      if found {
        var payloadSize := Low32(|buffer[sequence].data|);
        accumulator := Plus32(accumulator, payloadSize);
        successfulAcks := Plus32(successfulAcks, 1);
        buffer := buffer - {sequence};
        linkSendBufferSize := Minus32(linkSendBufferSize, payloadSize);
        if successfulAcks >= options.increaseThresh {
          successfulAcks := 0;
          windowsSize := Plus32(windowsSize, Increase(options, accumulator));
          if windowsSize > options.maxSize {
            windowsSize := options.maxSize;
          }
          retxScale := retxScale - 0.02;
          if retxScale < options.retxScale {
            retxScale := options.retxScale;
          }
        }
      } else {
        duplicateAcks := Plus32(duplicateAcks, 1);
        if duplicateAcks >= options.dupAckThresh {
          accumulator := 0;
          duplicateAcks := 0;
          Scale(options.dupAckScale);
          retxScale := retxScale + 0.2;
        }
      }
    }

    /** `acked` lists the payloads whose counter is marked, each of them once. */
    method ReceiveAcknowledgement(ack: Ack) returns (acked: seq<int>)
      modifies this
      ensures State() == Acknowledged(options, old(State()), ack)
      ensures buffer == old(buffer) - Members(ack.sequences) && linkRecvBufferSize == ack.recvBufferSize
      ensures forall q :: q in acked <==> q in old(buffer) && q in ack.sequences
      ensures forall i, j :: 0 <= i < j < |acked| ==> acked[i] != acked[j]
    {
      acked := [];
      for i := 0 to |ack.sequences|
        invariant State() == AckedAll(options, old(State()), ack.sequences[..i])
        invariant forall q :: q in acked <==> q in old(buffer) && q in ack.sequences[..i]
        invariant forall j, k :: 0 <= j < k < |acked| ==> acked[j] != acked[k]
      {
        var sequence := ack.sequences[i];
        assert buffer == old(buffer) - Members(ack.sequences[..i]) by {
          AckedAllBuffer(options, old(State()), ack.sequences[..i]);
        }
        assert ack.sequences[..i + 1] == ack.sequences[..i] + [sequence];
        var found := ReceiveSequence(sequence);
        if found {
          acked := acked + [sequence];
        }
      }
      assert ack.sequences[..|ack.sequences|] == ack.sequences;
      AckedAllBuffer(options, old(State()), ack.sequences);
      linkRecvBufferSize := ack.recvBufferSize;
    }

    /** `due` are the buffered payloads that are retransmittable and old enough. */
    method Retransmit(due: seq<int>)
      modifies this
      ensures State() == Retransmitted(options, old(State()), |due|)
    {
      for i := 0 to |due|
        invariant State() == Retransmitted(options, old(State()), i)
      {
        retransmits := Plus32(retransmits, 1);
        if retransmits >= options.retxThresh {
          accumulator := 0;
          retransmits := 0;
          Scale(options.retxWindowScale);
        }
      }
    }

    /** One round of the run loop: whether a payload may be taken in is decided before the acks of
        this round, at most ten, are processed; then the select makes its choice. */
    method Round(acks: seq<Ack>, choice: Choice, closeWhenEmpty: bool) returns (taken: bool)
      requires |acks| <= 10
      modifies this
      ensures taken <==> choice.Offered? && (!Blocked(old(State())) || closeWhenEmpty)
      ensures State() == Chosen(options, AcknowledgedEach(options, old(State()), acks), choice, taken)
    {
      var blocked := IsBlocked();
      var open := !blocked || closeWhenEmpty;
      for i := 0 to |acks|
        invariant State() == AcknowledgedEach(options, old(State()), acks[..i])
      {
        assert acks[..i + 1][..i] == acks[..i];
        var _ := ReceiveAcknowledgement(acks[i]);
      }
      assert acks[..|acks|] == acks;
      taken := false;
      match choice {
        case AckReceived(ack, due) =>
          var _ := ReceiveAcknowledgement(ack);
          Retransmit(due);
        case Offered(p) =>
          taken := open;
          if taken {
            buffer := buffer[p.sequence := p];
            linkSendBufferSize := Plus32(linkSendBufferSize, Low32(|p.data|));
          }
        case Tick(due) =>
          Retransmit(due);
      }
    }
  }

  /** What the run loop's select chooses: an ack, a payload that waits in the channel, or the ticker;
      `due` are the payloads that are then due for retransmission. */
  datatype Choice = AckReceived(ack: Ack, due: seq<int>) | Offered(p: Payload) | Tick(due: seq<int>)

  function Chosen(o: Options, s: SendState, choice: Choice, taken: bool): SendState {
    match choice
    case AckReceived(ack, due) => Retransmitted(o, Acknowledged(o, s, ack), |due|)
    case Offered(p) => if taken then Buffered(s, p) else s
    case Tick(due) => Retransmitted(o, s, |due|)
  }

  function AcknowledgedEach(o: Options, s: SendState, acks: seq<Ack>): SendState {
    if acks == [] then s
    else Acknowledged(o, AcknowledgedEach(o, s, acks[..|acks| - 1]), acks[|acks| - 1])
  }
}
