/** The ledger of failure costs, and the visitor that keeps the dynamic costs of terminators. */
module FailureCosts {
  import opened Basics
  import opened Words

  type CostMap = map<string, uint16>

  function Entry(m: CostMap, id: string): Option<uint16> {
    if id in m then Some(m[id]) else None
  }

  function Cost(m: CostMap, id: string): uint16 {
    if Entry(m, id).Some? then Entry(m, id).value else 0
  }

  datatype Config = Config(maxFailureCost: uint16, failureCost: byte, successCredit: byte, sessionCost: uint16)

  // ----- one call -----

  /** The new entry of a terminator that is charged, and the charge that is reported. */
  function Charged(c: Config, entry: Option<uint16>): (uint16, uint16) {
    match entry
    case None => (c.failureCost, c.failureCost)
    case Some(cost) =>
      if cost + c.failureCost > c.maxFailureCost
      then (c.maxFailureCost, Low16(Minus32(c.maxFailureCost, cost)))
      else (cost + c.failureCost, c.failureCost)
  }

  /** A terminator with an entry is credited at most what it owes. */
  function Credited(entry: Option<uint16>, credit: uint16): (Option<uint16>, uint16) {
    match entry
    case None => (None, 0)
    case Some(cost) => if cost < credit then (Some(0), cost) else (Some(cost - credit), credit)
  }

  /** The map with this entry for the terminator, and otherwise as before. */
  ghost predicate OnlyEntry(before: CostMap, after: CostMap, id: string, entry: Option<uint16>) {
    forall t :: Entry(after, t) == if t == id then entry else Entry(before, t)
  }

  class FailureLedger {
    const config: Config
    var costMap: CostMap

    constructor (config: Config)
      ensures this.config == config && costMap == map[]
    {
      this.config := config;
      costMap := map[];
    }

    method Failure(terminatorId: string) returns (change: uint16)
      modifies this
      ensures OnlyEntry(old(costMap), costMap, terminatorId, Some(Charged(config, Entry(old(costMap), terminatorId)).0))
      ensures change == Charged(config, Entry(old(costMap), terminatorId)).1
      ensures terminatorId in costMap
      ensures terminatorId !in old(costMap) ==> costMap[terminatorId] == config.failureCost == change
      ensures terminatorId in old(costMap) ==>
                var cost := old(costMap)[terminatorId];
                if cost + config.failureCost <= config.maxFailureCost
                then costMap[terminatorId] == cost + config.failureCost && change == config.failureCost
                else costMap[terminatorId] == config.maxFailureCost && (change - (config.maxFailureCost - cost)) % 0x1_0000 == 0
    {
      if terminatorId !in costMap {
        change := config.failureCost;
        costMap := costMap[terminatorId := config.failureCost];
        return;
      }
      var currentCost := costMap[terminatorId];
      var nextCost: uint32 := currentCost + config.failureCost;
      if nextCost > config.maxFailureCost {
        ChangeModulo(config.maxFailureCost, currentCost);
        change := Low16(Minus32(config.maxFailureCost, currentCost));
        costMap := costMap[terminatorId := config.maxFailureCost];
        return;
      }
      change := config.failureCost;
      costMap := costMap[terminatorId := nextCost];
    }

    method Success(terminatorId: string) returns (change: uint16)
      modifies this
      ensures OnlyEntry(old(costMap), costMap, terminatorId, Credited(Entry(old(costMap), terminatorId), config.successCredit).0)
      ensures change == Credited(Entry(old(costMap), terminatorId), config.successCredit).1
    {
      change := SuccessWithCredit(terminatorId, config.successCredit);
    }

    /** An entry of zero stays: the value found is compared as an interface value with the integer 0,
        to which a 16-bit value never compares equal, so that the removal is never reached. */
    method SuccessWithCredit(terminatorId: string, credit: uint16) returns (change: uint16)
      modifies this
      ensures OnlyEntry(old(costMap), costMap, terminatorId, Credited(Entry(old(costMap), terminatorId), credit).0)
      ensures change == Credited(Entry(old(costMap), terminatorId), credit).1
      ensures costMap.Keys == old(costMap).Keys
      ensures terminatorId !in old(costMap) ==> change == 0
      ensures terminatorId in old(costMap) ==>
                var cost := old(costMap)[terminatorId];
                if cost < credit then costMap[terminatorId] == 0 && change == cost
                else costMap[terminatorId] == cost - credit && change == credit
    {
      if terminatorId !in costMap {
        return 0;
      }
      var currentCost := costMap[terminatorId];
      if currentCost < credit {
        change := currentCost;
        costMap := costMap[terminatorId := 0];
        return;
      }
      change := credit;
      costMap := costMap[terminatorId := currentCost - credit];
    }

    method Clear(terminatorId: string)
      modifies this
      ensures OnlyEntry(old(costMap), costMap, terminatorId, None)
    {
      costMap := costMap - {terminatorId};
    }
  }

  /** The dynamic costs of all terminators. */
  class GlobalCosts {
    var costMap: CostMap

    constructor ()
      ensures costMap == map[]
    {
      costMap := map[];
    }

    method UpdateDynamicCost(terminatorId: string, update: uint16 -> uint16)
      modifies this
      ensures costMap == old(costMap)[terminatorId := update(Cost(old(costMap), terminatorId))]
    {
      if terminatorId !in costMap {
        costMap := costMap[terminatorId := update(0)];
      } else {
        costMap := costMap[terminatorId := update(costMap[terminatorId])];
      }
    }

    method ClearCost(terminatorId: string)
      modifies this
      ensures OnlyEntry(old(costMap), costMap, terminatorId, None)
    {
      costMap := costMap - {terminatorId};
    }
  }

  /** As near to `x` as 16 bits can get. */
  function Saturated(x: int): (r: uint16)
    ensures 0 <= x < 0x1_0000 ==> r == x
    ensures x < 0 ==> r == 0
    ensures x >= 0x1_0000 ==> r == 0xFFFF
  {
    if x < 0 then 0 else if x > MAX_UINT16 then MAX_UINT16 else x
  }

  /** Every terminator's dynamic cost moves by `change`, as far as it can. */
  ghost predicate Moved(before: CostMap, after: CostMap, id: string, change: int) {
    forall t :: Cost(after, t) == if t == id then Saturated(Cost(before, t) + change) else Cost(before, t)
  }

  // ----- whole traces -----

  /** What happens to terminators: the three events of dials and sessions, the credit that a timer
      gives, and the two halves of a removal, between which other events may come: the strategy clears
      the ledger, then the store's delete event clears the dynamic cost. */
  datatype Kind =
    | DialFailed
    | DialSucceeded
    | SessionEnded
    | TimedCredit(credit: byte)
    | LedgerCleared
    | CostCleared

  datatype Event = Event(id: string, kind: Kind)

  /** What a trace makes of one terminator: its entry in the ledger and its dynamic cost, which the
      program keeps, and beside them
        `balance`: reported charges less reported credits since the ledger was last cleared;
        `sessions`: dials that succeeded less sessions that ended since the dynamic cost was last cleared;
        `forgiven`: what the dynamic cost keeps of failure costs that are no longer on the ledger,
                    because a timer or the first half of a removal took them off, or if negative what
                    the ledger keeps and the dynamic cost does not. */
  datatype Account = Account(ledger: Option<uint16>, dynamic: uint16, balance: int, sessions: int, forgiven: int)

  const NEW_ACCOUNT := Account(None, 0, 0, 0, 0)

  function Owes(a: Account): uint16 {
    if a.ledger.Some? then a.ledger.value else 0
  }

  /** How an event moves the dynamic cost, if there is room. */
  function Change(c: Config, a: Account, kind: Kind): int {
    match kind
    case DialFailed => Charged(c, a.ledger).1
    case DialSucceeded => c.sessionCost - Credited(a.ledger, c.successCredit).1
    case SessionEnded => 0 - c.sessionCost
    case _ => 0
  }

  function Next(c: Config, a: Account, kind: Kind): Account {
    var moved := Saturated(a.dynamic + Change(c, a, kind));
    match kind
    case DialFailed =>
      var (cost, charge) := Charged(c, a.ledger);
      a.(ledger := Some(cost), dynamic := moved, balance := a.balance + charge)
    case DialSucceeded =>
      var (entry, credit) := Credited(a.ledger, c.successCredit);
      a.(ledger := entry, dynamic := moved, balance := a.balance - credit, sessions := a.sessions + 1)
    case SessionEnded =>
      a.(dynamic := moved, sessions := a.sessions - 1)
    case TimedCredit(timed) =>
      var (entry, credit) := Credited(a.ledger, timed);
      a.(ledger := entry, balance := a.balance - credit, forgiven := a.forgiven + credit)
    case LedgerCleared =>
      a.(ledger := None, balance := 0, forgiven := a.forgiven + Owes(a))
    case CostCleared =>
      a.(dynamic := 0, sessions := 0, forgiven := 0 - Owes(a))
  }

  /** A terminator's account after a trace; events of other terminators do not touch it. */
  function After(c: Config, trace: seq<Event>, id: string): Account {
    if trace == [] then NEW_ACCOUNT
    else
      var before, e := After(c, trace[..|trace| - 1], id), trace[|trace| - 1];
      if e.id == id then Next(c, before, e.kind) else before
  }

  lemma AfterNext(c: Config, trace: seq<Event>, e: Event, id: string)
    ensures After(c, trace + [e], id) ==
            if e.id == id then Next(c, After(c, trace, id), e.kind) else After(c, trace, id)
  {
    assert (trace + [e])[..|trace + [e]| - 1] == trace;
  }

  // ----- the balance of the ledger -----

  lemma ChangeModulo(max: uint16, cost: uint16)
    ensures (Low16(Minus32(max, cost)) - (max - cost)) % 0x1_0000 == 0
  {
    if cost > max {
      assert Minus32(max, cost) == max - cost + TWO_16 * TWO_16;
      Low16Shift(max - cost, TWO_16);
    }
  }

  /** One charge: the ledger moves by what is reported, up to a wrap when it was over the maximum. */
  lemma ChargedModulo(c: Config, a: Account)
    ensures var (cost, charge) := Charged(c, a.ledger);
            && cost == Low16(Owes(a) + charge)
            && (Owes(a) <= c.maxFailureCost && c.failureCost <= c.maxFailureCost ==>
                  cost == Owes(a) + charge <= c.maxFailureCost)
  {
    if a.ledger.Some? && Owes(a) + c.failureCost > c.maxFailureCost {
      DownToMaximum(c.maxFailureCost, Owes(a));
    }
  }

  lemma DownToMaximum(max: uint16, cost: uint16)
    ensures Low16(cost + Low16(Minus32(max, cost))) == max
    ensures cost <= max ==> Low16(Minus32(max, cost)) == max - cost
  {
    if cost > max {
      assert Minus32(max, cost) == max - cost + TWO_16 * TWO_16;
      Low16Shift(max - cost, TWO_16);
    }
    Low16Sum(max - cost, cost);
  }

  lemma Low16Shift(x: int, k: int)
    ensures Low16(x + k * TWO_16) == Low16(x)
  {
    var q := x / TWO_16;
    assert x + k * TWO_16 == (q + k) * TWO_16 + Low16(x);
  }

  lemma Low16Sum(x: int, y: int)
    ensures Low16(Low16(x) + y) == Low16(x + y)
  {
    Low16Shift(x + y, -(x / TWO_16));
  }

  lemma NextModulo(c: Config, a: Account, kind: Kind)
    requires Owes(a) == Low16(a.balance)
    ensures Owes(Next(c, a, kind)) == Low16(Next(c, a, kind).balance)
  {
    Low16Sum(a.balance, Next(c, a, kind).balance - a.balance);
    if kind.DialFailed? {
      ChargedModulo(c, a);
    }
  }

  /** The ledger never loses count: cost and balance agree in their low 16 bits. */
  lemma {:induction false} LedgerModulo(c: Config, trace: seq<Event>, id: string)
    ensures Owes(After(c, trace, id)) == Low16(After(c, trace, id).balance)
  {
    if trace != [] {
      LedgerModulo(c, trace[..|trace| - 1], id);
      NextModulo(c, After(c, trace[..|trace| - 1], id), trace[|trace| - 1].kind);
    }
  }

  ghost predicate LedgerRight(c: Config, a: Account) {
    Owes(a) == a.balance <= c.maxFailureCost
  }

  lemma {:induction false} LedgerKeeps(c: Config, trace: seq<Event>, id: string)
    requires c.failureCost <= c.maxFailureCost
    ensures LedgerRight(c, After(c, trace, id))
  {
    if trace != [] {
      LedgerKeeps(c, trace[..|trace| - 1], id);
      ChargedModulo(c, After(c, trace[..|trace| - 1], id));
    }
  }

  /** Over every trace a terminator's failure cost is its charges less its credits since it was last
      cleared, and within the maximum, if and only if one failure costs no more than the maximum. */
  lemma LedgerExactly(c: Config)
    ensures (forall trace, id :: LedgerRight(c, After(c, trace, id))) <==> c.failureCost <= c.maxFailureCost
  {
    if c.failureCost <= c.maxFailureCost {
      forall trace, id ensures LedgerRight(c, After(c, trace, id)) {
        LedgerKeeps(c, trace, id);
      }
    } else {
      FirstFailureOvercharges(c, "t");
      assert !LedgerRight(c, After(c, [Event("t", DialFailed)], "t"));
    }
  }

  /** The first failure is charged in full; the second then takes the cost down to the maximum and
      reports a charge of almost 2^16. */
  lemma FirstFailureOvercharges(c: Config, id: string)
    requires c.failureCost > c.maxFailureCost
    ensures Owes(After(c, [Event(id, DialFailed)], id)) == c.failureCost
    ensures var two := After(c, [Event(id, DialFailed), Event(id, DialFailed)], id);
            Owes(two) == c.maxFailureCost && two.balance == TWO_16 + c.maxFailureCost
  {
    hide After, Next;
    var e := Event(id, DialFailed);
    AfterNext(c, [], e, id);
    AfterNext(c, [e], e, id);
    assert [] + [e] == [e] && [e] + [e] == [e, e];
    assert After(c, [], id) == NEW_ACCOUNT by { AfterNothing(c, id); }
    TwoFailures(c);
  }

  lemma AfterNothing(c: Config, id: string)
    ensures After(c, [], id) == NEW_ACCOUNT
  {
  }

  lemma TwoFailures(c: Config)
    requires c.failureCost > c.maxFailureCost
    ensures var one := Next(c, NEW_ACCOUNT, DialFailed);
            var two := Next(c, one, DialFailed);
            Owes(one) == c.failureCost && Owes(two) == c.maxFailureCost && two.balance == TWO_16 + c.maxFailureCost
  {
    hide Low16, Minus32;
    Wrapped(c.maxFailureCost, c.failureCost);
  }

  lemma Wrapped(max: uint16, cost: uint16)
    requires cost > max
    ensures Low16(Minus32(max, cost)) == TWO_16 + max - cost
  {
    assert Minus32(max, cost) == TWO_16 + max - cost + (TWO_16 - 1) * TWO_16;
    Low16Shift(TWO_16 + max - cost, TWO_16 - 1);
  }

  // ----- what failures and credits add up to -----

  function Failures(trace: seq<Event>, id: string): nat {
    if trace == [] then 0
    else
      var e := trace[|trace| - 1];
      Failures(trace[..|trace| - 1], id) + if e.id == id && e.kind.DialFailed? then 1 else 0
  }

  /** The credits offered to a terminator. */
  function Credits(c: Config, trace: seq<Event>, id: string): nat {
    if trace == [] then 0
    else
      var e := trace[|trace| - 1];
      Credits(c, trace[..|trace| - 1], id) +
      if e.id != id then 0
      else
        match e.kind
        case DialSucceeded => c.successCredit
        case TimedCredit(credit) => credit
        case _ => 0
  }

  ghost predicate NoCredits(trace: seq<Event>, id: string) {
    forall e :: e in trace && e.id == id ==> e.kind.DialFailed? || e.kind.SessionEnded? || e.kind.CostCleared?
  }

  ghost predicate OnlyCredits(trace: seq<Event>, id: string) {
    forall e :: e in trace && e.id == id ==> !e.kind.DialFailed? && !e.kind.LedgerCleared?
  }

  lemma LastEvent(c: Config, before: seq<Event>, trace: seq<Event>, id: string)
    requires trace != []
    ensures var front, e := trace[..|trace| - 1], trace[|trace| - 1];
            e in trace && After(c, before + trace, id) ==
            if e.id == id then Next(c, After(c, before + front, id), e.kind) else After(c, before + front, id)
  {
    var front, e := trace[..|trace| - 1], trace[|trace| - 1];
    AfterNext(c, before + front, e, id);
    assert before + trace == before + front + [e];
  }

  /** As long as no credit comes between, every failure is charged, until the maximum is reached: from a
      clear on, `n` failures cost the smaller of `n` times one failure and the maximum. */
  lemma {:induction false} FailuresAddUp(c: Config, before: seq<Event>, trace: seq<Event>, id: string)
    requires c.failureCost <= c.maxFailureCost && NoCredits(trace, id)
    ensures var due := Owes(After(c, before, id)) + Failures(trace, id) * c.failureCost;
            Owes(After(c, before + trace, id)) == if due < c.maxFailureCost then due else c.maxFailureCost
  {
    if trace == [] {
      assert before + trace == before && Failures(trace, id) * c.failureCost == 0;
      LedgerKeeps(c, before, id);
    } else {
      hide Next, After, Owes, NoCredits, Failures;
      var front, e := trace[..|trace| - 1], trace[|trace| - 1];
      NoCreditsBefore(trace, id);
      FailuresAddUp(c, before, front, id);
      LastEvent(c, before, trace, id);
      LastFailure(trace, id);
      if e.id == id {
        LedgerKeeps(c, before + front, id);
        NoCreditStep(c, After(c, before + front, id), e.kind);
        if e.kind.DialFailed? {
          OneMoreFailure(Failures(front, id), c.failureCost);
        }
      }
    }
  }

  lemma NoCreditsBefore(trace: seq<Event>, id: string)
    requires trace != [] && NoCredits(trace, id)
    ensures NoCredits(trace[..|trace| - 1], id)
    ensures var e := trace[|trace| - 1];
            e.id == id ==> e.kind.DialFailed? || e.kind.SessionEnded? || e.kind.CostCleared?
  {
    assert trace[|trace| - 1] in trace;
  }

  lemma LastFailure(trace: seq<Event>, id: string)
    requires trace != []
    ensures var e := trace[|trace| - 1];
            Failures(trace, id) == Failures(trace[..|trace| - 1], id) + if e.id == id && e.kind.DialFailed? then 1 else 0
  {
  }

  lemma NoCreditStep(c: Config, a: Account, kind: Kind)
    requires c.failureCost <= c.maxFailureCost && Owes(a) <= c.maxFailureCost
    ensures kind.DialFailed? ==>
              Owes(Next(c, a, kind)) ==
              if Owes(a) + c.failureCost < c.maxFailureCost then Owes(a) + c.failureCost else c.maxFailureCost
    ensures kind.SessionEnded? || kind.CostCleared? ==> Owes(Next(c, a, kind)) == Owes(a)
  {
  }

  lemma OneMoreFailure(n: nat, cost: nat)
    ensures (n + 1) * cost == n * cost + cost && n * cost >= 0
  {
  }

  /** As long as no failure comes between, every credit is taken off, down to zero. */
  lemma {:induction false} CreditsTakeOff(c: Config, before: seq<Event>, trace: seq<Event>, id: string)
    requires OnlyCredits(trace, id)
    ensures var left := Owes(After(c, before, id)) - Credits(c, trace, id);
            Owes(After(c, before + trace, id)) == if left > 0 then left else 0
  {
    if trace == [] {
      assert before + trace == before;
    } else {
      CreditsTakeOff(c, before, trace[..|trace| - 1], id);
      LastEvent(c, before, trace, id);
    }
  }

  // ----- the visitor -----

  class CostVisitor {
    const failureCosts: FailureLedger
    const globalCosts: GlobalCosts
    const sessionCost: uint16

    constructor (failureCosts: FailureLedger, globalCosts: GlobalCosts)
      ensures this.failureCosts == failureCosts && this.globalCosts == globalCosts
      ensures sessionCost == failureCosts.config.sessionCost
    {
      this.failureCosts := failureCosts;
      this.globalCosts := globalCosts;
      this.sessionCost := failureCosts.config.sessionCost;
    }

    method VisitDialFailed(id: string)
      modifies failureCosts, globalCosts
      ensures var (cost, charge) := Charged(failureCosts.config, old(Entry(failureCosts.costMap, id)));
              && OnlyEntry(old(failureCosts.costMap), failureCosts.costMap, id, Some(cost))
              && Moved(old(globalCosts.costMap), globalCosts.costMap, id, charge)
    {
      var change := failureCosts.Failure(id);
      if change > 0 {
        globalCosts.UpdateDynamicCost(id, (cost: uint16) =>
          if cost < MAX_UINT16 - change then cost + change else MAX_UINT16);
      }
    }

    method VisitDialSucceeded(id: string)
      modifies failureCosts, globalCosts
      ensures var (entry, credit) := Credited(old(Entry(failureCosts.costMap, id)), failureCosts.config.successCredit);
              && OnlyEntry(old(failureCosts.costMap), failureCosts.costMap, id, entry)
              && Moved(old(globalCosts.costMap), globalCosts.costMap, id, sessionCost - credit)
    {
      var credit := failureCosts.Success(id);
      var cost := sessionCost;
      if credit != cost {
        globalCosts.UpdateDynamicCost(id, (current: uint16) =>
          if cost > credit then
            var increase := cost - credit;
            if current < MAX_UINT16 - increase then current + increase else MAX_UINT16
          else
            var decrease := credit - cost;
            if decrease > current then 0 else current - decrease);
      }
    }

    method VisitSessionEnded(id: string)
      modifies globalCosts
      ensures Moved(old(globalCosts.costMap), globalCosts.costMap, id, 0 - sessionCost)
    {
      var ended := sessionCost;
      globalCosts.UpdateDynamicCost(id, (cost: uint16) => if cost > ended then cost - ended else 0);
    }

    /** The ledger and the dynamic costs are those of this trace. */
    ghost predicate Reflects(trace: seq<Event>)
      reads failureCosts, globalCosts
    {
      && sessionCost == failureCosts.config.sessionCost
      && forall id ::
           && Entry(failureCosts.costMap, id) == After(failureCosts.config, trace, id).ledger
           && Cost(globalCosts.costMap, id) == After(failureCosts.config, trace, id).dynamic
    }

    /** Every event extends the trace that the ledger and the dynamic costs reflect. */
    method Handle(event: Event, ghost trace: seq<Event>)
      requires Reflects(trace)
      modifies failureCosts, globalCosts
      ensures Reflects(trace + [event])
    {
      forall id ensures After(failureCosts.config, trace + [event], id) ==
                        (var a := After(failureCosts.config, trace, id);
                         if event.id == id then Next(failureCosts.config, a, event.kind) else a) {
        AfterNext(failureCosts.config, trace, event, id);
      }
      match event.kind {
        case DialFailed => VisitDialFailed(event.id);
        case DialSucceeded => VisitDialSucceeded(event.id);
        case SessionEnded => VisitSessionEnded(event.id);
        case TimedCredit(credit) => var _ := failureCosts.SuccessWithCredit(event.id, credit);
        case LedgerCleared => failureCosts.Clear(event.id);
        case CostCleared => globalCosts.ClearCost(event.id);
      }
    }
  }

  // ----- the balance of the dynamic cost -----

  /** Failure cost, forgiven failure cost and the cost of open sessions. */
  function Owed(c: Config, a: Account): int {
    Owes(a) + a.forgiven + c.sessionCost * a.sessions
  }

  ghost predicate OwedFits(c: Config, trace: seq<Event>, id: string) {
    forall k :: 0 <= k <= |trace| ==> 0 <= Owed(c, After(c, trace[..k], id)) <= MAX_UINT16
  }

  ghost predicate DynamicIsOwed(c: Config, trace: seq<Event>, id: string) {
    forall k :: 0 <= k <= |trace| ==> After(c, trace[..k], id).dynamic == Owed(c, After(c, trace[..k], id))
  }

  lemma OwedNext(c: Config, a: Account, kind: Kind)
    requires c.failureCost <= c.maxFailureCost && LedgerRight(c, a)
    ensures Owed(c, Next(c, a, kind)) == if kind.CostCleared? then 0 else Owed(c, a) + Change(c, a, kind)
  {
    ChargedModulo(c, a);
    assert c.sessionCost * (a.sessions + 1) == c.sessionCost * a.sessions + c.sessionCost;
    assert c.sessionCost * (a.sessions - 1) == c.sessionCost * a.sessions - c.sessionCost;
  }

  /** The dynamic cost is, at every moment of a trace, what is owed, if and only if that always fits
      16 bits. */
  lemma DynamicExactly(c: Config, trace: seq<Event>, id: string)
    requires c.failureCost <= c.maxFailureCost
    ensures DynamicIsOwed(c, trace, id) <==> OwedFits(c, trace, id)
  {
    if OwedFits(c, trace, id) {
      forall k | 0 <= k <= |trace| ensures After(c, trace[..k], id).dynamic == Owed(c, After(c, trace[..k], id)) {
        DynamicAt(c, trace, id, k);
      }
    }
  }

  lemma {:induction false} DynamicAt(c: Config, trace: seq<Event>, id: string, k: nat)
    requires c.failureCost <= c.maxFailureCost && k <= |trace| && OwedFits(c, trace, id)
    ensures After(c, trace[..k], id).dynamic == Owed(c, After(c, trace[..k], id))
  {
    if k > 0 {
      DynamicAt(c, trace, id, k - 1);
      LedgerKeeps(c, trace[..k - 1], id);
      assert trace[..k] == trace[..k - 1] + [trace[k - 1]];
      AfterNext(c, trace[..k - 1], trace[k - 1], id);
      OwedNext(c, After(c, trace[..k - 1], id), trace[k - 1].kind);
    } else {
      assert trace[..k] == [];
    }
  }

  // ----- removals -----

  /** The two halves of a removal, as the smart routing strategy has them. */
  function Removal(id: string): seq<Event> {
    [Event(id, LedgerCleared), Event(id, CostCleared)]
  }

  lemma {:induction false} SameRest(c: Config, t1: seq<Event>, t2: seq<Event>, id: string, rest: seq<Event>)
    requires After(c, t1, id) == After(c, t2, id)
    ensures After(c, t1 + rest, id) == After(c, t2 + rest, id)
  {
    hide After;
    if rest == [] {
      assert t1 + rest == t1 && t2 + rest == t2;
    } else {
      var n := |rest| - 1;
      SameRest(c, t1, t2, id, rest[..n]);
      AfterNext(c, t1 + rest[..n], rest[n], id);
      AfterNext(c, t2 + rest[..n], rest[n], id);
      assert t1 + rest == t1 + rest[..n] + [rest[n]] && t2 + rest == t2 + rest[..n] + [rest[n]];
    }
  }

  /** After a removal a terminator's account is that of a new one: of what was before nothing counts. */
  lemma RemovalRestarts(c: Config, before: seq<Event>, id: string, after: seq<Event>)
    ensures After(c, before + Removal(id) + after, id) == After(c, after, id)
  {
    AfterNext(c, before, Removal(id)[0], id);
    AfterNext(c, before + [Removal(id)[0]], Removal(id)[1], id);
    assert before + [Removal(id)[0]] + [Removal(id)[1]] == before + Removal(id);
    SameRest(c, before + Removal(id), [], id, after);
    assert [] + after == after;
  }

  /** The weighted strategy does not clear its ledger: there a terminator that is made again under the
      same id owes what the old one did, without its dynamic cost saying so. */
  lemma LedgerOutlivesCost(c: Config, before: seq<Event>, id: string)
    ensures var a := After(c, before + [Event(id, CostCleared)], id);
            a.dynamic == 0 && a.ledger == After(c, before, id).ledger && a.forgiven == 0 - Owes(a)
  {
    AfterNext(c, before, Event(id, CostCleared), id);
  }

  ghost predicate Uninterrupted(trace: seq<Event>, id: string) {
    forall e :: e in trace && e.id == id ==> e.kind.DialFailed? || e.kind.DialSucceeded? || e.kind.SessionEnded?
  }

  /** Without timed credits, and while it fits, the dynamic cost is the failure cost and the cost of
      the open sessions, from the start or from the last removal on. */
  lemma DynamicIsFailuresAndSessions(c: Config, before: seq<Event>, id: string, trace: seq<Event>)
    requires c.failureCost <= c.maxFailureCost
    requires OwedFits(c, trace, id) && Uninterrupted(trace, id)
    ensures var a := After(c, trace, id);
            && a.dynamic == Owes(a) + c.sessionCost * a.sessions
            && After(c, before + Removal(id) + trace, id) == a
  {
    RemovalRestarts(c, before, id, trace);
    DynamicAt(c, trace, id, |trace|);
    assert trace[..|trace|] == trace;
    NothingForgiven(c, trace, id);
  }

  lemma {:induction false} NothingForgiven(c: Config, trace: seq<Event>, id: string)
    requires Uninterrupted(trace, id)
    ensures After(c, trace, id).forgiven == 0
  {
    if trace != [] {
      NothingForgiven(c, trace[..|trace| - 1], id);
      assert trace[|trace| - 1] in trace;
    }
  }
}
