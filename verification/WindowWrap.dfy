/** With the default options a long session brings the window below its minimum: the accumulator is not
    reset when the window grows, so after 4 GB the sum of the two no longer fits 32 bits. */
module WindowWrap {
  import opened Words
  import opened Payloads
  import opened SendBuffer

  /** One payload is buffered, and acknowledged before the next one comes. */
  function Pair(p: Payload): seq<Event> {
    [BufferOne(p), AckOne(p.sequence)]
  }

  /** `n` payloads with the same data, numbered from `first` on, are sent and acknowledged one by one. */
  function Steady(first: nat, n: nat, data: seq<byte>): seq<Event> {
    if n == 0 then [] else Steady(first, n - 1, data) + Pair(Payload(first + n - 1, SessionData, data))
  }

  lemma AfterOne(o: Options, events: seq<Event>, e: Event)
    ensures AfterAll(o, events + [e]) == After(o, AfterAll(o, events), e)
  {
    assert (events + [e])[..|events|] == events;
  }

  /** What matters of a sender that has nothing buffered. */
  datatype Numbers = Numbers(accumulator: uint32, successfulAcks: uint32, windowsSize: uint32)

  ghost predicate Idle(o: Options, events: seq<Event>, n: Numbers) {
    var s := AfterAll(o, events);
    s.buffer == map[] && n == Numbers(s.accumulator, s.successfulAcks, s.windowsSize)
  }

  function Paired(o: Options, n: Numbers, size: uint32): Numbers {
    var accumulator := Plus32(n.accumulator, size);
    if Plus32(n.successfulAcks, 1) >= o.increaseThresh
    then Numbers(accumulator, 0, Grown(o, n.windowsSize, Increase(o, accumulator)))
    else Numbers(accumulator, Plus32(n.successfulAcks, 1), n.windowsSize)
  }

  lemma AfterPair(o: Options, events: seq<Event>, n: Numbers, p: Payload)
    requires Idle(o, events, n)
    ensures Idle(o, events + Pair(p), Paired(o, n, Low32(|p.data|)))
  {
    AfterOne(o, events, BufferOne(p));
    AfterOne(o, events + [BufferOne(p)], AckOne(p.sequence));
    assert events + [BufferOne(p)] + [AckOne(p.sequence)] == events + Pair(p);
    assert map[p.sequence := p] - {p.sequence} == map[];
  }

  // ----- the default options -----

  predicate IsDefault(o: Options) {
    && o.startSize == 0x4000 && o.minSize == 0x4000 && o.maxSize == 0x40_0000
    && o.increaseThresh == 224 && o.increaseScale == 1.0
  }

  lemma DefaultIncrease(o: Options, accumulator: uint32)
    requires IsDefault(o)
    ensures Increase(o, accumulator) == accumulator
  {
    assert accumulator as real * 1.0 == accumulator as real;
  }

  const LARGE := 65536
  const SMALL := 18725

  function AfterLarge(k: nat): Numbers
    requires k <= 65408
  {
    Numbers(65536 * k, k % 224, if k < 224 then 0x4000 else 0x40_0000)
  }

  lemma LargeStep(o: Options, k: nat)
    requires IsDefault(o) && k < 65408
    ensures Paired(o, AfterLarge(k), LARGE) == AfterLarge(k + 1)
  {
    DefaultIncrease(o, 65536 * (k + 1));
    assert (k + 1) % 224 == if k % 224 == 223 then 0 else k % 224 + 1;
  }

  function AfterSmall(k: nat): Numbers
    requires k < 224
  {
    Numbers(65536 * 65408 + 18725 * k, k, 0x40_0000)
  }

  lemma SmallStep(o: Options, k: nat)
    requires IsDefault(o) && k < 223
    ensures Paired(o, AfterSmall(k), SMALL) == AfterSmall(k + 1)
  {
  }

  /** The last one: 2^22 and the accumulator together are 96 more than 2^32. */
  lemma LastStep(o: Options)
    requires IsDefault(o)
    ensures Paired(o, AfterSmall(223), SMALL).windowsSize == 96
  {
    DefaultIncrease(o, 65536 * 65408 + 18725 * 224);
  }

  lemma SteadyNext(first: nat, n: nat, data: seq<byte>)
    ensures Steady(first, n + 1, data) == Steady(first, n, data) + Pair(Payload(first + n, SessionData, data))
  {
  }

  /** Payloads of 64 KB: the window goes to its maximum, and the accumulator nearly to its own. */
  lemma {:induction false} LargePayloads(o: Options, k: nat, data: seq<byte>)
    requires IsDefault(o) && |data| == LARGE && k <= 65408
    ensures Idle(o, Steady(0, k, data), AfterLarge(k))
  {
    if k > 0 {
      LargePayloads(o, k - 1, data);
      SteadyNext(0, k - 1, data);
      AfterPair(o, Steady(0, k - 1, data), AfterLarge(k - 1), Payload(k - 1, SessionData, data));
      LargeStep(o, k - 1);
    }
  }

  lemma {:induction false} SmallPayloads(o: Options, before: seq<Event>, k: nat, data: seq<byte>)
    requires IsDefault(o) && |data| == SMALL && k < 224 && Idle(o, before, AfterSmall(0))
    ensures Idle(o, before + Steady(65408, k, data), AfterSmall(k))
  {
    if k == 0 {
      assert before + Steady(65408, 0, data) == before;
    } else {
      SmallPayloads(o, before, k - 1, data);
      var p := Payload(65408 + (k - 1), SessionData, data);
      SteadyNext(65408, k - 1, data);
      AfterPair(o, before + Steady(65408, k - 1, data), AfterSmall(k - 1), p);
      assert before + Steady(65408, k, data) == before + Steady(65408, k - 1, data) + Pair(p);
      SmallStep(o, k - 1);
    }
  }

  /** After 65408 payloads of 64 KB and 224 smaller ones, each acknowledged at once, the window is 96. */
  lemma DefaultsWrap(outOfRange: real -> uint32, large: seq<byte>, small: seq<byte>)
    requires |large| == LARGE && |small| == SMALL
    ensures var o := DefaultOptions(outOfRange);
            && Sensible(o) && o.minSize == 16384
            && AfterAll(o, Steady(0, 65408, large) + Steady(65408, 224, small)).windowsSize == 96
  {
    var o := DefaultOptions(outOfRange);
    WrapAfter(o, 65408, large, small);
  }

  lemma WrapAfter(o: Options, n: nat, large: seq<byte>, small: seq<byte>)
    requires IsDefault(o) && n == 65408 && |large| == LARGE && |small| == SMALL
    ensures AfterAll(o, Steady(0, n, large) + Steady(n, 224, small)).windowsSize == 96
  {
    var before, p := Steady(0, n, large), Payload(n + 223, SessionData, small);
    LargePayloads(o, n, large);
    SmallPayloads(o, before, 223, small);
    SteadyNext(n, 223, small);
    AfterPair(o, before + Steady(n, 223, small), AfterSmall(223), p);
    assert before + Steady(n, 224, small) == before + Steady(n, 223, small) + Pair(p);
    LastStep(o);
  }
}
