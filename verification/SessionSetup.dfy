/** Session set-up: the routers of a path are told their routes, their answers are collected, and a
    failed attempt is repeated over whatever path is selected then. */
module SessionSetup {
  /** What a router answers to the route message of one attempt. */
  datatype Status = Status(router: string, attempt: nat, success: bool)

  type Attendance = map<string, bool>

  datatype Outcome = Confirmed | Refused | TimedOut

  function Routers(path: seq<string>): set<string> {
    set r | r in path
  }

  // ----- one attempt -----

  /** Entries for routers of earlier attempts stay as they are. */
  function Started(att: Attendance, path: seq<string>): Attendance {
    map r | r in att.Keys + Routers(path) :: if r in path then false else att[r]
  }

  predicate Fails(s: Status, attempt: nat) {
    !s.success && s.attempt == attempt
  }

  function Noted(att: Attendance, attempt: nat, s: Status): Attendance {
    if s.success && s.attempt == attempt then att[s.router := true] else att
  }

  predicate AllPresent(att: Attendance) {
    forall r :: r in att ==> att[r]
  }

  /** The answers that come before the deadline are taken one by one; after the last one the deadline
      passes. */
  function Collected(att: Attendance, attempt: nat, statuses: seq<Status>): (r: (Attendance, Outcome))
    decreases |statuses|
  {
    if statuses == [] then (att, TimedOut)
    else if Fails(statuses[0], attempt) then (att, Refused)
    else
      var att' := Noted(att, attempt, statuses[0]);
      if AllPresent(att') then (att', Confirmed) else Collected(att', attempt, statuses[1..])
  }

  function Present(att: Attendance, path: seq<string>): set<string> {
    set r | r in path && r in att && att[r]
  }

  class RouteSender {
    var attendance: Attendance

    constructor ()
      ensures attendance == map[]
    {
      attendance := map[];
    }

    /** Sends the messages and collects the answers.  After a failure `cleanups` are the routers that
        have confirmed. */
    method Route(attempt: nat, path: seq<string>, statuses: seq<Status>) returns (outcome: Outcome, cleanups: set<string>)
      modifies this
      ensures (attendance, outcome) == Collected(Started(old(attendance), path), attempt, statuses)
      ensures cleanups == if outcome.Confirmed? then {} else Present(attendance, path)
      ensures outcome.Refused? <==>
                exists i :: 0 <= i < |statuses| && !statuses[i].success && statuses[i].attempt == attempt &&
                            NotComplete(Started(old(attendance), path), attempt, statuses, i)
      ensures path != [] ==>
                (attendance, outcome) == Collected(Started(old(attendance), path), attempt, Own(statuses, attempt))
    {
      RefusedExactly(Started(attendance, path), attempt, statuses);
      if path != [] {
        AlienAnswersIgnored(attendance, attempt, path, statuses);
      }
      Ask(path);
      outcome, cleanups := Collect(attempt, path, statuses);
    }

    /** Every router of the path gets an entry that says that it has not confirmed. */
    method Ask(path: seq<string>)
      modifies this
      ensures attendance == Started(old(attendance), path)
    {
      for i := 0 to |path|
        invariant forall r :: r in attendance <==> r in old(attendance) || r in path[..i]
        invariant forall r :: r in attendance ==> attendance[r] == if r in path[..i] then false else old(attendance)[r]
      {
        assert path[..i + 1] == path[..i] + [path[i]];
        attendance := attendance[path[i] := false];
      }
      assert path[..|path|] == path;
    }

    method Collect(attempt: nat, path: seq<string>, statuses: seq<Status>) returns (outcome: Outcome, cleanups: set<string>)
      modifies this
      ensures (attendance, outcome) == Collected(old(attendance), attempt, statuses)
      ensures cleanups == if outcome.Confirmed? then {} else Present(attendance, path)
    {
      ghost var result := Collected(attendance, attempt, statuses);
      for i := 0 to |statuses|
        invariant result == Collected(attendance, attempt, statuses[i..])
      {
        var status := statuses[i];
        assert statuses[i..][0] == status && statuses[i..][1..] == statuses[i + 1..];
        if status.success {
          if status.attempt == attempt {
            attendance := attendance[status.router := true];
          }
        } else {
          if status.attempt == attempt {
            cleanups := Cleanups(path);
            return Refused, cleanups;
          }
        }
        var allPresent := true;
        var left := attendance.Keys;
        while left != {}
          invariant left <= attendance.Keys
          invariant allPresent <==> forall r :: r in attendance && r !in left ==> attendance[r]
          decreases |left|
        {
          var r :| r in left;
          if !attendance[r] {
            allPresent := false;
          }
          left := left - {r};
        }
        if allPresent {
          return Confirmed, {};
        }
      }
      cleanups := Cleanups(path);
      return TimedOut, cleanups;
    }

    method Cleanups(path: seq<string>) returns (cleanups: set<string>)
      ensures cleanups == Present(attendance, path)
    {
      cleanups := {};
      for i := 0 to |path|
        invariant cleanups == Present(attendance, path[..i])
      {
        assert path[..i + 1] == path[..i] + [path[i]];
        if path[i] in attendance && attendance[path[i]] {
          cleanups := cleanups + {path[i]};
        }
      }
      assert path[..|path|] == path;
    }
  }

  // ----- what an attempt's outcome means -----

  predicate Confirms(statuses: seq<Status>, attempt: nat, r: string) {
    Status(r, attempt, true) in statuses
  }

  /** Router `r` confirms this attempt, and no answer before that refuses this attempt. */
  ghost predicate ConfirmsInTime(statuses: seq<Status>, attempt: nat, r: string) {
    exists j :: 0 <= j < |statuses| && statuses[j] == Status(r, attempt, true) && NoRefusal(statuses, attempt, j)
  }

  /** None of the first `n` answers is a failure of this very attempt. */
  ghost predicate NoRefusal(statuses: seq<Status>, attempt: nat, n: nat) {
    forall i :: 0 <= i < n && i < |statuses| ==> statuses[i].success || statuses[i].attempt != attempt
  }

  lemma InTimeFirst(statuses: seq<Status>, attempt: nat, r: string)
    requires statuses != []
    ensures ConfirmsInTime(statuses, attempt, r) <==>
            statuses[0] == Status(r, attempt, true) ||
            ((statuses[0].success || statuses[0].attempt != attempt) && ConfirmsInTime(statuses[1..], attempt, r))
  {
    var rest := statuses[1..];
    assert NoRefusal(statuses, attempt, 0);
    if ConfirmsInTime(statuses, attempt, r) {
      var j :| 0 <= j < |statuses| && statuses[j] == Status(r, attempt, true) && NoRefusal(statuses, attempt, j);
      if j > 0 {
        assert rest[j - 1] == statuses[j];
        assert forall i :: 0 <= i < |rest| ==> rest[i] == statuses[i + 1];
        assert NoRefusal(rest, attempt, j - 1);
      }
    }
    if (statuses[0].success || statuses[0].attempt != attempt) && ConfirmsInTime(rest, attempt, r) {
      var j :| 0 <= j < |rest| && rest[j] == Status(r, attempt, true) && NoRefusal(rest, attempt, j);
      assert statuses[j + 1] == rest[j];
      forall i | 0 <= i < j + 1 ensures statuses[i].success || statuses[i].attempt != attempt {
        assert i > 0 ==> rest[i - 1] == statuses[i];
      }
      assert NoRefusal(statuses, attempt, j + 1);
    }
  }

  lemma PrefixConfirms(statuses: seq<Status>, n: nat, attempt: nat, r: string)
    requires n <= |statuses|
    ensures Confirms(statuses[..n], attempt, r) ==> Confirms(statuses, attempt, r)
  {
  }

  lemma ConfirmsFirst(statuses: seq<Status>, attempt: nat, r: string)
    requires statuses != []
    ensures Confirms(statuses, attempt, r) <==>
            statuses[0] == Status(r, attempt, true) || Confirms(statuses[1..], attempt, r)
  {
    assert statuses == [statuses[0]] + statuses[1..];
  }

  /** An attempt that does not succeed leaves exactly the entries that were confirmed before the first
      refusal. */
  lemma {:induction false} FailedAttempt(att: Attendance, attempt: nat, statuses: seq<Status>, r: string)
    requires !Collected(att, attempt, statuses).1.Confirmed?
    ensures var att' := Collected(att, attempt, statuses).0;
            (r in att' && att'[r]) <==> (r in att && att[r]) || ConfirmsInTime(statuses, attempt, r)
    decreases |statuses|
  {
    if statuses != [] && !Fails(statuses[0], attempt) {
      FailedAttempt(Noted(att, attempt, statuses[0]), attempt, statuses[1..], r);
      InTimeFirst(statuses, attempt, r);
    }
  }

  ghost predicate EveryoneBy(att: Attendance, attempt: nat, statuses: seq<Status>, n: nat)
    requires n <= |statuses|
  {
    && n > 0
    && NoRefusal(statuses, attempt, n)
    && (forall r :: r in att ==> att[r] || Confirms(statuses[..n], attempt, r))
  }

  /** An attempt succeeds if and only if at some moment before the first refusal every router with an
      entry has confirmed this very attempt, or its entry is true from an earlier attempt. */
  lemma {:induction false} SucceedsExactly(att: Attendance, attempt: nat, statuses: seq<Status>)
    ensures Collected(att, attempt, statuses).1.Confirmed? <==>
            exists n :: 0 <= n <= |statuses| && EveryoneBy(att, attempt, statuses, n)
    decreases |statuses|
  {
    if statuses != [] {
      var first, rest := statuses[0], statuses[1..];
      var att' := Noted(att, attempt, first);
      SucceedsExactly(att', attempt, rest);
      if !Fails(first, attempt) {
        FirstStatus(att, attempt, statuses);
        if AllPresent(att') {
          assert EveryoneBy(att, attempt, statuses, 1);
        } else {
          forall n | 0 <= n <= |rest| && EveryoneBy(att', attempt, rest, n) ensures EveryoneBy(att, attempt, statuses, n + 1) {
            OneMoreStatus(att, attempt, statuses, n);
          }
          forall n | 0 <= n <= |statuses| && EveryoneBy(att, attempt, statuses, n)
            ensures n > 1 && EveryoneBy(att', attempt, rest, n - 1)
          {
            OneMoreStatus(att, attempt, statuses, n - 1);
          }
        }
      }
    }
  }

  lemma FirstStatus(att: Attendance, attempt: nat, statuses: seq<Status>)
    requires statuses != [] && !Fails(statuses[0], attempt)
    ensures EveryoneBy(att, attempt, statuses, 1) <==> AllPresent(Noted(att, attempt, statuses[0]))
  {
    assert statuses[..1] == [statuses[0]];
    forall r ensures Confirms(statuses[..1], attempt, r) <==> statuses[0] == Status(r, attempt, true) {
      ConfirmsFirst(statuses[..1], attempt, r);
      assert statuses[..1][1..] == [];
    }
    var att' := Noted(att, attempt, statuses[0]);
    assert forall r :: r in att ==> r in att';
  }

  lemma OneMoreStatus(att: Attendance, attempt: nat, statuses: seq<Status>, n: nat)
    requires n < |statuses| && !Fails(statuses[0], attempt)
    ensures n > 0 ==> (EveryoneBy(att, attempt, statuses, n + 1) <==>
                       EveryoneBy(Noted(att, attempt, statuses[0]), attempt, statuses[1..], n))
  {
    assert statuses[..n + 1][1..] == statuses[1..][..n];
    forall r ensures Confirms(statuses[..n + 1], attempt, r) <==>
                     statuses[0] == Status(r, attempt, true) || Confirms(statuses[1..][..n], attempt, r) {
      ConfirmsFirst(statuses[..n + 1], attempt, r);
    }
    assert forall i {:trigger statuses[i]} :: 1 <= i < n + 1 ==> statuses[1..][i - 1] == statuses[i];
  }

  /** A success means that every router of this path has confirmed this very attempt. */
  lemma SuccessIsConfirmed(att: Attendance, attempt: nat, path: seq<string>, statuses: seq<Status>, r: string)
    requires Collected(Started(att, path), attempt, statuses).1.Confirmed? && r in path
    ensures Confirms(statuses, attempt, r)
  {
    SucceedsExactly(Started(att, path), attempt, statuses);
    var n :| 0 <= n <= |statuses| && EveryoneBy(Started(att, path), attempt, statuses, n);
    assert r in Started(att, path) && Status(r, attempt, true) in statuses[..n];
  }

  /** An entry that is false when an attempt begins over another path keeps it from succeeding, unless
      that router confirms this attempt too, of which it was not told. */
  lemma StaleEntryBlocks(att: Attendance, attempt: nat, path: seq<string>, statuses: seq<Status>, stale: string)
    requires stale in att && !att[stale]
    requires !Confirms(statuses, attempt, stale)
    ensures !Collected(Started(att, path), attempt, statuses).1.Confirmed?
  {
    SucceedsExactly(Started(att, path), attempt, statuses);
    assert stale in Started(att, path);
    forall n | 0 <= n <= |statuses| ensures !EveryoneBy(Started(att, path), attempt, statuses, n) {
      assert Confirms(statuses[..n], attempt, stale) ==> Confirms(statuses, attempt, stale);
    }
  }

  /** Entries are never dropped, and only the routers that an attempt asks or that confirm it get one. */
  lemma {:induction false} EntriesAfter(att: Attendance, attempt: nat, statuses: seq<Status>, r: string)
    requires !Collected(att, attempt, statuses).1.Confirmed?
    ensures r in Collected(att, attempt, statuses).0 <==>
            r in att || ConfirmsInTime(statuses, attempt, r)
    decreases |statuses|
  {
    if statuses != [] && !Fails(statuses[0], attempt) {
      EntriesAfter(Noted(att, attempt, statuses[0]), attempt, statuses[1..], r);
      InTimeFirst(statuses, attempt, r);
    }
  }

  // ----- answers to other attempts -----

  /** The answers to this attempt, in order. */
  function Own(statuses: seq<Status>, attempt: nat): seq<Status>
    decreases |statuses|
  {
    if statuses == [] then []
    else (if statuses[0].attempt == attempt then [statuses[0]] else []) + Own(statuses[1..], attempt)
  }

  lemma {:induction false} OwnDecide(att: Attendance, attempt: nat, statuses: seq<Status>)
    requires !AllPresent(att)
    ensures Collected(att, attempt, statuses) == Collected(att, attempt, Own(statuses, attempt))
    decreases |statuses|
  {
    if statuses != [] {
      var own, att' := Own(statuses, attempt), Noted(att, attempt, statuses[0]);
      if statuses[0].attempt == attempt {
        assert own[0] == statuses[0] && own[1..] == Own(statuses[1..], attempt);
        if !AllPresent(att') {
          OwnDecide(att', attempt, statuses[1..]);
        }
      } else {
        assert own == Own(statuses[1..], attempt) && att' == att;
        OwnDecide(att, attempt, statuses[1..]);
      }
    }
  }

  /** Answers to other attempts, refusals and confirmations alike, make no difference: outcome and
      attendance are those of the answers to this attempt alone. */
  lemma AlienAnswersIgnored(att: Attendance, attempt: nat, path: seq<string>, statuses: seq<Status>)
    requires path != []
    ensures Collected(Started(att, path), attempt, statuses) ==
            Collected(Started(att, path), attempt, Own(statuses, attempt))
  {
    assert path[0] in Started(att, path) && !Started(att, path)[path[0]];
    OwnDecide(Started(att, path), attempt, statuses);
  }

  lemma {:induction false} RefusalEnds(att: Attendance, attempt: nat, statuses: seq<Status>)
    ensures NoRefusal(statuses, attempt, |statuses|) ==> !Collected(att, attempt, statuses).1.Refused?
    ensures !NoRefusal(statuses, attempt, |statuses|) ==> !Collected(att, attempt, statuses).1.TimedOut?
    decreases |statuses|
  {
    if statuses != [] {
      var rest := statuses[1..];
      assert forall i :: 0 <= i < |rest| ==> rest[i] == statuses[i + 1];
      RefusalEnds(Noted(att, attempt, statuses[0]), attempt, rest);
    }
  }

  ghost predicate NotComplete(att: Attendance, attempt: nat, statuses: seq<Status>, i: nat)
    requires i < |statuses|
  {
    forall n :: 0 <= n <= i ==> !EveryoneBy(att, attempt, statuses, n)
  }

  lemma CompleteBeforeRefusal(att: Attendance, attempt: nat, statuses: seq<Status>, i: nat, n: nat)
    requires i < |statuses| && n <= |statuses|
    ensures EveryoneBy(att, attempt, statuses, n) && !statuses[i].success && statuses[i].attempt == attempt ==> n <= i
  {
  }

  /** An attempt is refused if and only if some answer to this very attempt refuses it and the answers
      before that one do not complete it. */
  lemma RefusedExactly(att: Attendance, attempt: nat, statuses: seq<Status>)
    ensures Collected(att, attempt, statuses).1.Refused? <==>
            exists i :: 0 <= i < |statuses| && !statuses[i].success && statuses[i].attempt == attempt &&
                        NotComplete(att, attempt, statuses, i)
  {
    SucceedsExactly(att, attempt, statuses);
    RefusalEnds(att, attempt, statuses);
    if Collected(att, attempt, statuses).1.Refused? {
      var i :| 0 <= i < |statuses| && !(statuses[i].success || statuses[i].attempt != attempt);
      assert NotComplete(att, attempt, statuses, i);
    }
    if i :| 0 <= i < |statuses| && !statuses[i].success && statuses[i].attempt == attempt &&
            NotComplete(att, attempt, statuses, i) {
      forall n | 0 <= n <= |statuses| ensures !EveryoneBy(att, attempt, statuses, n) {
        CompleteBeforeRefusal(att, attempt, statuses, i, n);
      }
    }
  }

  // ----- all attempts -----

  /** What an attempt finds: no service, terminator, path or link, or else a path and the answers. */
  datatype Try = NoCircuit | Over(path: seq<string>, statuses: seq<Status>)

  datatype End = Created(path: seq<string>) | Exhausted | GivenUp

  /** How it ended, after how many attempts, and which routers were told to drop their routes. */
  datatype SessionResult = SessionResult(end: End, attempts: nat, unrouted: set<string>)

  function MaxAttempts(retries: nat): nat {
    if retries == 0 then 1 else retries
  }

  function CreatedFrom(attempt: nat, att: Attendance, cleanups: set<string>, retries: nat, tries: seq<Try>): SessionResult
    requires attempt < MaxAttempts(retries) <= |tries|
    decreases MaxAttempts(retries) - attempt
  {
    match tries[attempt]
    case NoCircuit => SessionResult(GivenUp, attempt + 1, {})
    case Over(path, statuses) =>
      var (att', outcome) := Collected(Started(att, path), attempt, statuses);
      if outcome.Confirmed? then SessionResult(Created(path), attempt + 1, cleanups - Routers(path))
      else
        var cleanups' := cleanups + Present(att', path);
        if attempt + 1 < retries then CreatedFrom(attempt + 1, att', cleanups', retries, tries)
        else SessionResult(Exhausted, attempt + 1, cleanups')
  }

  function SetUp(retries: nat, tries: seq<Try>): SessionResult
    requires MaxAttempts(retries) <= |tries|
  {
    CreatedFrom(0, map[], {}, retries, tries)
  }

  /** The retry loop.  `tries` is what the selection and the routers of each attempt come up with. */
  method CreateSession(retries: nat, tries: seq<Try>) returns (r: SessionResult)
    requires MaxAttempts(retries) <= |tries|
    ensures r == SetUp(retries, tries)
  {
    var attempt := 0;
    var allCleanups: set<string> := {};
    var rs := new RouteSender();
    while true
      invariant attempt < MaxAttempts(retries) <= |tries|
      invariant SetUp(retries, tries) == CreatedFrom(attempt, rs.attendance, allCleanups, retries, tries)
      decreases MaxAttempts(retries) - attempt
    {
      match tries[attempt] {
        case NoCircuit =>
          return SessionResult(GivenUp, attempt + 1, {});
        case Over(path, statuses) =>
          var outcome, cleanups := rs.Route(attempt, path, statuses);
          allCleanups := allCleanups + cleanups;
          if !outcome.Confirmed? {
            attempt := attempt + 1;
            if attempt < retries {
              continue;
            }
            var unrouted := SendUnroutes(allCleanups, {});
            return SessionResult(Exhausted, attempt, unrouted);
          }
          var unrouted := SendUnroutes(allCleanups, Routers(path));
          return SessionResult(Created(path), attempt + 1, unrouted);
      }
    }
  }

  /** One unroute for each router that is not used. */
  method SendUnroutes(cleanups: set<string>, usedRouters: set<string>) returns (sent: set<string>)
    ensures sent == cleanups - usedRouters
  {
    sent := {};
    var left := cleanups;
    while left != {}
      invariant left <= cleanups && sent == cleanups - usedRouters - left
      decreases |left|
    {
      var r :| r in left;
      if r !in usedRouters {
        sent := sent + {r};
      }
      left := left - {r};
    }
  }

  // ----- what the answers alone say about the attendance -----

  /** Attempt `i` asks router `r`. */
  predicate Asks(tries: seq<Try>, i: nat, r: string) {
    i < |tries| && tries[i].Over? && r in tries[i].path
  }

  /** Router `r` confirms attempt `i` before that attempt is refused. */
  ghost predicate Holds(tries: seq<Try>, i: nat, r: string) {
    i < |tries| && tries[i].Over? && ConfirmsInTime(tries[i].statuses, i, r)
  }

  /** Some attempt before `k` has asked the router or was confirmed by it. */
  ghost predicate Known(tries: seq<Try>, k: nat, r: string) {
    exists i :: 0 <= i < k && (Asks(tries, i, r) || Holds(tries, i, r))
  }

  /** The router has confirmed an attempt before `k` and has not been asked again since, up to `last`. */
  ghost predicate Standing(tries: seq<Try>, k: nat, last: int, r: string) {
    exists i :: 0 <= i < k && Holds(tries, i, r) && forall j :: i < j <= last ==> !Asks(tries, j, r)
  }

  /** The attendance when attempt `k` begins. */
  function Table(tries: seq<Try>, k: nat): Attendance
    requires k <= |tries|
  {
    if k == 0 then map[]
    else
      match tries[k - 1]
      case NoCircuit => Table(tries, k - 1)
      case Over(path, statuses) => Collected(Started(Table(tries, k - 1), path), k - 1, statuses).0
  }

  ghost predicate Passes(tries: seq<Try>, k: nat)
    requires k < |tries|
  {
    tries[k].Over? && Collected(Started(Table(tries, k), tries[k].path), k, tries[k].statuses).1.Confirmed?
  }

  /** Before attempt `k` a router has an entry if and only if it was asked or has confirmed, and the
      entry is true if and only if it has confirmed since it was last asked. */
  lemma {:induction false} TableExactly(tries: seq<Try>, k: nat, r: string)
    requires k <= |tries| && forall i :: 0 <= i < k ==> !Passes(tries, i)
    ensures r in Table(tries, k) <==> Known(tries, k, r)
    ensures r in Table(tries, k) && Table(tries, k)[r] <==> Standing(tries, k, k - 1, r)
  {
    if k > 0 {
      var n := k - 1;
      TableExactly(tries, n, r);
      KnownNext(tries, n, r);
      StandingNext(tries, n, r);
      if tries[n].Over? {
        assert !Passes(tries, n);
        var begun := Started(Table(tries, n), tries[n].path);
        EntriesAfter(begun, n, tries[n].statuses, r);
        FailedAttempt(begun, n, tries[n].statuses, r);
      }
    }
  }

  lemma KnownNext(tries: seq<Try>, n: nat, r: string)
    ensures Known(tries, n + 1, r) <==> Known(tries, n, r) || Asks(tries, n, r) || Holds(tries, n, r)
  {
  }

  lemma StandingNext(tries: seq<Try>, n: nat, r: string)
    ensures Standing(tries, n + 1, n, r) <==> Holds(tries, n, r) || (Standing(tries, n, n - 1, r) && !Asks(tries, n, r))
  {
  }

  /** Before any refusal of attempt `k`, among its first `n` answers, every router that was ever asked
      or has ever confirmed has confirmed attempt `k`, or its earlier confirmation still stands. */
  ghost predicate CompleteBy(tries: seq<Try>, k: nat, n: nat)
    requires k < |tries| && tries[k].Over? && n <= |tries[k].statuses|
  {
    var statuses := tries[k].statuses;
    && n > 0
    && NoRefusal(statuses, k, n)
    && (forall r :: Known(tries, k, r) || Asks(tries, k, r) ==> Standing(tries, k, k, r) || Confirms(statuses[..n], k, r))
  }

  ghost predicate Succeeds(tries: seq<Try>, k: nat)
    requires k < |tries|
  {
    tries[k].Over? && exists n :: 0 <= n <= |tries[k].statuses| && CompleteBy(tries, k, n)
  }

  lemma StandingUnlessAsked(tries: seq<Try>, k: nat, r: string)
    ensures Standing(tries, k, k, r) <==> Standing(tries, k, k - 1, r) && !Asks(tries, k, r)
  {
    if Standing(tries, k, k - 1, r) && !Asks(tries, k, r) {
      var i :| 0 <= i < k && Holds(tries, i, r) && forall j :: i < j <= k - 1 ==> !Asks(tries, j, r);
      assert forall j :: i < j <= k ==> !Asks(tries, j, r);
    }
  }

  lemma BeganWith(tries: seq<Try>, k: nat, r: string)
    requires k < |tries| && tries[k].Over? && forall i :: 0 <= i < k ==> !Passes(tries, i)
    ensures var begun := Started(Table(tries, k), tries[k].path);
            && (r in begun <==> Known(tries, k, r) || Asks(tries, k, r))
            && (r in begun && begun[r] <==> Standing(tries, k, k, r))
  {
    TableExactly(tries, k, r);
    StandingUnlessAsked(tries, k, r);
  }

  /** Whether an attempt succeeds can be told from the answers to it and to those before it. */
  lemma PassesExactly(tries: seq<Try>, k: nat)
    requires k < |tries| && forall i :: 0 <= i < k ==> !Passes(tries, i)
    ensures Passes(tries, k) <==> Succeeds(tries, k)
  {
    if tries[k].Over? {
      var begun, statuses := Started(Table(tries, k), tries[k].path), tries[k].statuses;
      SucceedsExactly(begun, k, statuses);
      forall r ensures (r in begun <==> Known(tries, k, r) || Asks(tries, k, r)) &&
                       (r in begun && begun[r] <==> Standing(tries, k, k, r)) {
        BeganWith(tries, k, r);
      }
      forall n | 0 <= n <= |statuses| ensures EveryoneBy(begun, k, statuses, n) <==> CompleteBy(tries, k, n) {
      }
    }
  }

  // ----- how set-up ends -----

  /** Every attempt before `k` finds a circuit and does not succeed. */
  ghost predicate AllFail(tries: seq<Try>, k: nat)
    requires k <= |tries|
  {
    forall i :: 0 <= i < k ==> tries[i].Over? && !Succeeds(tries, i)
  }

  lemma {:induction false} NonePass(tries: seq<Try>, k: nat)
    requires k <= |tries| && AllFail(tries, k)
    ensures forall i :: 0 <= i < k ==> !Passes(tries, i)
  {
    if k > 0 {
      NonePass(tries, k - 1);
      PassesExactly(tries, k - 1);
    }
  }

  /** Attempt `i` asked the router and was confirmed by it before it was refused. */
  ghost predicate HeldRoute(tries: seq<Try>, i: nat, r: string) {
    Asks(tries, i, r) && Holds(tries, i, r)
  }

  ghost predicate HeldBefore(tries: seq<Try>, k: nat, r: string) {
    exists i :: 0 <= i < k && HeldRoute(tries, i, r)
  }

  lemma FailedTryHolds(tries: seq<Try>, k: nat, r: string)
    requires k < |tries| && tries[k].Over? && !Passes(tries, k)
    ensures var att := Collected(Started(Table(tries, k), tries[k].path), k, tries[k].statuses).0;
            r in Present(att, tries[k].path) <==> HeldRoute(tries, k, r)
  {
    FailedAttempt(Started(Table(tries, k), tries[k].path), k, tries[k].statuses, r);
  }

  lemma HeldNext(tries: seq<Try>, k: nat, r: string)
    ensures HeldBefore(tries, k + 1, r) <==> HeldBefore(tries, k, r) || HeldRoute(tries, k, r)
  {
  }

  /** What the answers say about the result. */
  ghost predicate EndsRight(retries: nat, tries: seq<Try>, s: SessionResult)
    requires MaxAttempts(retries) <= |tries|
  {
    && 0 < s.attempts <= MaxAttempts(retries)
    && var last := s.attempts - 1;
       match s.end
       case GivenUp => AllFail(tries, last) && tries[last].NoCircuit?
       case Exhausted => s.attempts == MaxAttempts(retries) && AllFail(tries, s.attempts)
       case Created(path) => AllFail(tries, last) && Succeeds(tries, last) && path == tries[last].path
  }

  ghost predicate UnroutesRight(tries: seq<Try>, s: SessionResult, r: string)
    requires s.attempts > 0
  {
    r in s.unrouted <==>
    match s.end
    case GivenUp => false
    case Exhausted => HeldBefore(tries, s.attempts, r)
    case Created(path) => r !in path && HeldBefore(tries, s.attempts - 1, r)
  }

  lemma {:induction false} EndsFrom(attempt: nat, att: Attendance, cleanups: set<string>, retries: nat, tries: seq<Try>)
    requires attempt < MaxAttempts(retries) <= |tries|
    requires AllFail(tries, attempt) && att == Table(tries, attempt)
    requires forall r :: r in cleanups <==> HeldBefore(tries, attempt, r)
    ensures EndsRight(retries, tries, CreatedFrom(attempt, att, cleanups, retries, tries))
    ensures forall r :: UnroutesRight(tries, CreatedFrom(attempt, att, cleanups, retries, tries), r)
    decreases MaxAttempts(retries) - attempt
  {
    NonePass(tries, attempt);
    PassesExactly(tries, attempt);
    if tries[attempt].Over? && !Passes(tries, attempt) {
      var path := tries[attempt].path;
      var att' := Collected(Started(att, path), attempt, tries[attempt].statuses).0;
      var cleanups' := cleanups + Present(att', path);
      forall r ensures r in cleanups' <==> HeldBefore(tries, attempt + 1, r) {
        FailedTryHolds(tries, attempt, r);
        HeldNext(tries, attempt, r);
      }
      if attempt + 1 < retries {
        EndsFrom(attempt + 1, att', cleanups', retries, tries);
      }
    }
  }

  /** How set-up ends, on the answers alone: the first attempt that succeeds or finds no circuit ends
      it, and when there is none it ends with the last attempt allowed. */
  lemma EndsExactly(retries: nat, tries: seq<Try>, k: nat)
    requires k < MaxAttempts(retries) <= |tries|
    ensures var s := SetUp(retries, tries);
            && 0 < s.attempts <= MaxAttempts(retries)
            && (s.end.Created? && s.attempts == k + 1 <==> AllFail(tries, k) && Succeeds(tries, k))
            && (s.end.Created? && s.attempts == k + 1 ==> s.end.path == tries[k].path)
            && (s.end.GivenUp? && s.attempts == k + 1 <==> AllFail(tries, k) && tries[k].NoCircuit?)
            && (s.end.Exhausted? <==> AllFail(tries, MaxAttempts(retries)))
            && (s.end.Exhausted? ==> s.attempts == MaxAttempts(retries))
            && MaxAttempts(retries) == if retries > 1 then retries else 1
  {
    EndsFrom(0, map[], {}, retries, tries);
    var last := SetUp(retries, tries).attempts - 1;
    if last < k {
      FailedAt(tries, k, last);
    } else if k < last {
      FailedAt(tries, last, k);
    }
    FailedAt(tries, MaxAttempts(retries), last);
    FailedAt(tries, MaxAttempts(retries), k);
  }

  lemma FailedAt(tries: seq<Try>, k: nat, i: nat)
    requires i < k <= |tries|
    ensures AllFail(tries, k) ==> tries[i].Over? && !Succeeds(tries, i)
  {
  }

  /** After a success an unroute goes to every router that an earlier attempt asked, that confirmed it
      before it was refused, and that is not on the final path, and to no other; when all attempts have
      failed, to every router that any of them asked and that confirmed it before it was refused; and
      to nobody when an attempt finds no circuit. */
  lemma UnroutesExactly(retries: nat, tries: seq<Try>, r: string)
    requires MaxAttempts(retries) <= |tries|
    ensures SetUp(retries, tries).attempts > 0 && UnroutesRight(tries, SetUp(retries, tries), r)
  {
    EndsFrom(0, map[], {}, retries, tries);
  }

  // ----- what may go wrong -----

  /** A router that was asked and from then on never confirms keeps every later attempt from succeeding,
      also those over paths that it is not on and whose routers all confirm. */
  lemma NeverConfirmedBlocks(retries: nat, tries: seq<Try>, i: nat, r: string)
    requires i < MaxAttempts(retries) <= |tries| && Asks(tries, i, r)
    requires forall k :: i <= k < MaxAttempts(retries) && tries[k].Over? ==> !Confirms(tries[k].statuses, k, r)
    ensures SetUp(retries, tries).end.Created? ==> SetUp(retries, tries).attempts <= i
  {
    EndsFrom(0, map[], {}, retries, tries);
    forall k | i <= k < MaxAttempts(retries) ensures !Succeeds(tries, k) {
      NeverSucceeds(tries, i, k, r);
    }
  }

  lemma NeverSucceeds(tries: seq<Try>, i: nat, k: nat, r: string)
    requires i <= k < |tries| && Asks(tries, i, r)
    requires forall j :: i <= j <= k && tries[j].Over? ==> !Confirms(tries[j].statuses, j, r)
    ensures !Succeeds(tries, k)
  {
    NotStanding(tries, i, k, r);
    assert Known(tries, k, r) || Asks(tries, k, r);
    if tries[k].Over? {
      forall n | 0 <= n <= |tries[k].statuses| ensures !CompleteBy(tries, k, n) {
        PrefixConfirms(tries[k].statuses, n, k, r);
      }
    }
  }

  lemma NotStanding(tries: seq<Try>, i: nat, k: nat, r: string)
    requires i <= k && Asks(tries, i, r)
    requires forall j :: i <= j < k && j < |tries| && tries[j].Over? ==> !Confirms(tries[j].statuses, j, r)
    ensures !Standing(tries, k, k, r)
  {
    forall j | 0 <= j < k ensures !(Holds(tries, j, r) && forall l :: j < l <= k ==> !Asks(tries, l, r)) {
    }
  }

  /** That happens: router b refuses the first attempt; all routers of the second one's path confirm it,
      yet set-up fails. */
  lemma RetryFailsNeedlessly()
    ensures var tries := [Over(["a", "b"], [Status("a", 0, true), Status("b", 0, false)]),
                          Over(["a", "c"], [Status("a", 1, true), Status("c", 1, true)])];
            && SetUp(2, tries).end.Exhausted?
            && forall r :: r in tries[1].path ==> Confirms(tries[1].statuses, 1, r)
  {
    var tries := [Over(["a", "b"], [Status("a", 0, true), Status("b", 0, false)]),
                  Over(["a", "c"], [Status("a", 1, true), Status("c", 1, true)])];
    assert "b" in tries[0].path && tries[1].statuses[0] == Status("a", 1, true) && tries[1].statuses[1] == Status("c", 1, true);
    NeverConfirmedBlocks(2, tries, 0, "b");
    EndsFrom(0, map[], {}, 2, tries);
  }

  // ----- routes that no session uses -----

  /** Router `r` confirms attempt `i`, and its answer comes during attempt `j`. */
  predicate Answers(tries: seq<Try>, i: nat, j: nat, r: string) {
    j < |tries| && tries[j].Over? && Confirms(tries[j].statuses, i, r)
  }

  /** One of the first `n` attempts asked the router, and during these attempts, at once or late, before
      or after a refusal, its answer has come that it has installed the route. */
  ghost predicate Installed(tries: seq<Try>, n: nat, r: string) {
    exists i, j :: 0 <= i <= j < n && Asks(tries, i, r) && Answers(tries, i, j, r)
  }

  /** The router has installed a route, is not on the final path and got no unroute. */
  ghost predicate LeftBehind(tries: seq<Try>, s: SessionResult, r: string) {
    Installed(tries, s.attempts, r) && r !in s.unrouted && !(s.end.Created? && r in s.end.path)
  }

  /** The router has installed a route, but every such answer came after the attempt that it belongs to
      had ended, by a refusal or by its deadline: no attempt took notice of it. */
  ghost predicate Unnoticed(tries: seq<Try>, n: nat, r: string) {
    Installed(tries, n, r) && !HeldBefore(tries, n, r)
  }

  /** All attempts before `k` fail, some router has installed a route for one of them, and attempt `k`
      finds no service, terminator, path or link. */
  ghost predicate NoCircuitAfterRoutes(tries: seq<Try>, k: nat)
    requires k < |tries|
  {
    AllFail(tries, k) && tries[k].NoCircuit? && exists r :: Installed(tries, k, r)
  }

  /** Attempt `k` is the first to succeed, and there is an unnoticed route off its path. */
  ghost predicate SuccessAfterUnnoticed(tries: seq<Try>, k: nat)
    requires k < |tries|
  {
    AllFail(tries, k) && Succeeds(tries, k) && exists r :: Unnoticed(tries, k + 1, r) && r !in tries[k].path
  }

  /** All `n` attempts fail, and there is an unnoticed route. */
  ghost predicate FailureAfterUnnoticed(tries: seq<Try>, n: nat)
    requires n <= |tries|
  {
    AllFail(tries, n) && exists r :: Unnoticed(tries, n, r)
  }

  lemma HeldIsInstalled(tries: seq<Try>, n: nat, r: string)
    requires HeldBefore(tries, n, r)
    ensures Installed(tries, n, r)
  {
    var i :| 0 <= i < n && HeldRoute(tries, i, r);
    assert Asks(tries, i, r) && Answers(tries, i, i, r);
  }

  lemma InstalledBeforeNone(tries: seq<Try>, k: nat, r: string)
    requires k < |tries| && tries[k].NoCircuit?
    ensures Installed(tries, k + 1, r) <==> Installed(tries, k, r)
  {
    if Installed(tries, k + 1, r) {
      var i, j :| 0 <= i <= j < k + 1 && Asks(tries, i, r) && Answers(tries, i, j, r);
      assert j < k;
    }
  }

  /** Which routers are left behind, by the way set-up ends. */
  lemma LeftBehindBy(retries: nat, tries: seq<Try>, r: string)
    requires MaxAttempts(retries) <= |tries|
    ensures var s := SetUp(retries, tries);
            s.attempts > 0 &&
            (LeftBehind(tries, s, r) <==>
             match s.end
             case GivenUp => Installed(tries, s.attempts - 1, r)
             case Exhausted => Unnoticed(tries, s.attempts, r)
             case Created(path) => Unnoticed(tries, s.attempts, r) && r !in path)
  {
    EndsFrom(0, map[], {}, retries, tries);
    var s := SetUp(retries, tries);
    assert UnroutesRight(tries, s, r);
    HeldNext(tries, s.attempts - 1, r);
    if s.end.GivenUp? {
      InstalledBeforeNone(tries, s.attempts - 1, r);
    }
  }

  /** When set-up is over, some router keeps a route that no session uses if and only if a retry finds no
      circuit after a route was installed, or an answer came too late for its attempt and set-up ends,
      well or badly, without that router on the final path. */
  lemma RoutesLeftBehind(retries: nat, tries: seq<Try>)
    requires MaxAttempts(retries) <= |tries|
    ensures (exists r :: LeftBehind(tries, SetUp(retries, tries), r)) <==>
            || (exists k :: 0 <= k < MaxAttempts(retries) && NoCircuitAfterRoutes(tries, k))
            || (exists k :: 0 <= k < MaxAttempts(retries) && SuccessAfterUnnoticed(tries, k))
            || FailureAfterUnnoticed(tries, MaxAttempts(retries))
  {
    var s := SetUp(retries, tries);
    EndsFrom(0, map[], {}, retries, tries);
    if r :| LeftBehind(tries, s, r) {
      LeftBehindBy(retries, tries, r);
      match s.end
      case GivenUp => assert NoCircuitAfterRoutes(tries, s.attempts - 1);
      case Exhausted => assert FailureAfterUnnoticed(tries, MaxAttempts(retries));
      case Created(_) => assert SuccessAfterUnnoticed(tries, s.attempts - 1);
    }
    if k :| 0 <= k < MaxAttempts(retries) && NoCircuitAfterRoutes(tries, k) {
      EndsExactly(retries, tries, k);
      var r :| Installed(tries, k, r);
      LeftBehindBy(retries, tries, r);
    }
    if k :| 0 <= k < MaxAttempts(retries) && SuccessAfterUnnoticed(tries, k) {
      EndsExactly(retries, tries, k);
      var r :| Unnoticed(tries, k + 1, r) && r !in tries[k].path;
      LeftBehindBy(retries, tries, r);
    }
    if FailureAfterUnnoticed(tries, MaxAttempts(retries)) {
      EndsExactly(retries, tries, 0);
      var r :| Unnoticed(tries, MaxAttempts(retries), r);
      LeftBehindBy(retries, tries, r);
    }
  }

  /** An answer too late: b refuses the first attempt, and only then a answers that it has installed its
      route, which is taken as alien by the second attempt, over another path. */
  lemma LateAnswerLeavesRoute()
    ensures var tries := [Over(["a", "b"], [Status("b", 0, false)]),
                          Over(["c", "d"], [Status("a", 0, true), Status("c", 1, true), Status("d", 1, true)])];
            SetUp(2, tries).end.Exhausted? && LeftBehind(tries, SetUp(2, tries), "a")
  {
    var tries := [Over(["a", "b"], [Status("b", 0, false)]),
                  Over(["c", "d"], [Status("a", 0, true), Status("c", 1, true), Status("d", 1, true)])];
    assert tries[0].path[0] == "a" && tries[0].path[1] == "b" && tries[1].statuses[0] == Status("a", 0, true);
    assert Asks(tries, 0, "a") && Answers(tries, 0, 1, "a");
    assert !HeldRoute(tries, 0, "a") && !HeldRoute(tries, 1, "a");
    NeverConfirmedBlocks(2, tries, 0, "b");
    EndsFrom(0, map[], {}, 2, tries);
    LeftBehindBy(2, tries, "a");
  }

  /** And without a retry: the same router, whose answer nobody waits for any more. */
  lemma UnreadAnswerLeavesRoute()
    ensures var tries := [Over(["a", "b"], [Status("b", 0, false), Status("a", 0, true)])];
            SetUp(1, tries).end.Exhausted? && LeftBehind(tries, SetUp(1, tries), "a")
  {
    var tries := [Over(["a", "b"], [Status("b", 0, false), Status("a", 0, true)])];
    assert tries[0].path[0] == "a" && tries[0].path[1] == "b" && tries[0].statuses[1] == Status("a", 0, true);
    assert Asks(tries, 0, "a") && Answers(tries, 0, 0, "a");
    assert tries[0].statuses[0] == Status("b", 0, false);
    assert !HeldRoute(tries, 0, "a");
    NeverConfirmedBlocks(1, tries, 0, "b");
    EndsFrom(0, map[], {}, 1, tries);
    LeftBehindBy(1, tries, "a");
  }

  /** That happens too: router a confirms the first attempt, b refuses it, and the second finds no path. */
  lemma GivenUpLeavesRoutes()
    ensures var tries := [Over(["a", "b"], [Status("a", 0, true), Status("b", 0, false)]), NoCircuit];
            LeftBehind(tries, SetUp(2, tries), "a")
  {
    var statuses := [Status("a", 0, true), Status("b", 0, false)];
    var tries := [Over(["a", "b"], statuses), NoCircuit];
    assert "a" in tries[0].path && "b" in tries[0].path;
    assert statuses[0] == Status("a", 0, true) && NoRefusal(statuses, 0, 0);
    assert HeldRoute(tries, 0, "a") && HeldBefore(tries, 1, "a");
    HeldIsInstalled(tries, 1, "a");
    NeverConfirmedBlocks(2, tries, 0, "b");
    EndsFrom(0, map[], {}, 2, tries);
    LeftBehindBy(2, tries, "a");
  }
}
