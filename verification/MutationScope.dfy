/** Collection-scoped asynchronous work: tokens, freezing, pending operations and draining,
as a transition system over every order of completions. */
module MutationScope {
  import opened Sequences
  import opened Options

  datatype Token = Token(epoch: nat, owner: Option<string>)

  datatype Reason = StaleCollection | Failure(message: string)

  datatype Outcome = Fulfilled(value: string) | Rejected(reason: Reason)

  /** A drain: the snapshot it awaits, what it awaited before that, and the first failure. */
  datatype Drain =
    | Idle
    | Waiting(snapshot: seq<nat>, awaited: seq<nat>, turns: nat, failure: Option<Reason>)
    | Returned(awaited: seq<nat>, turns: nat)
    | Threw(awaited: seq<nat>, turns: nat, reason: Reason)

  /** Operations are numbered as they are registered; `pending` keeps insertion order, and
      `outcomes` holds what the registered promises settled to. */
  datatype Scope = Scope(
    epoch: nat,
    owner: Option<string>,
    frozen: bool,
    pending: seq<nat>,
    tokens: seq<Token>,
    outcomes: map<nat, Outcome>,
    drain: Drain)

  const START := Scope(0, None, false, [], [], map[], Idle)

  datatype Event =
    | ChangeOwner(owner: Option<string>)
    | Freeze
    | Unfreeze
    | Register(token: Token)              // also the second half of an accepted `run`
    | Resolve(op: nat, value: string)     // the operation's own promise was fulfilled
    | Reject(op: nat, message: string)    // or rejected
    | Forget(op: nat)                     // its `finally` callback
    | DrainStart
    | DrainTurn                           // all of the awaited snapshot has settled

  function TokenOf(s: Scope): Token { Token(s.epoch, s.owner) }

  predicate Owns(s: Scope, t: Token) { t.epoch == s.epoch && t.owner == s.owner }

  predicate IsCurrent(s: Scope, t: Token) { !s.frozen && Owns(s, t) }

  /** The reason of the first rejected operation among `ops`. */
  function FirstRejection(outcomes: map<nat, Outcome>, ops: seq<nat>): Option<Reason> {
    if ops == [] then None
    else if ops[0] in outcomes && outcomes[ops[0]].Rejected? then Some(outcomes[ops[0]].reason)
    else FirstRejection(outcomes, ops[1..])
  }

  /** When an event can happen. A promise settles once, after it was registered; its
      `finally` runs after that, and before a drain that awaited it resumes, because it
      was attached first. */
  predicate Enabled(s: Scope, e: Event) {
    match e
    case Resolve(op, _) => op < |s.tokens| && op !in s.outcomes
    case Reject(op, _) => op < |s.tokens| && op !in s.outcomes
    case Forget(op) => op in s.outcomes
    case DrainStart => !s.drain.Waiting?
    case DrainTurn => s.drain.Waiting? && forall i | 0 <= i < |s.drain.snapshot| ::
                        s.drain.snapshot[i] in s.outcomes && s.drain.snapshot[i] !in s.pending
    case _ => true
  }

  /** The head of the loop in `drain`, after some turns. */
  function Continue(s: Scope, awaited: seq<nat>, turns: nat, failure: Option<Reason>): Drain {
    if s.pending != [] then Waiting(s.pending, awaited, turns, failure)
    else if failure.Some? then Threw(awaited, turns, failure.value)
    else Returned(awaited, turns)
  }

  function Step(s: Scope, e: Event): Scope
    requires Enabled(s, e)
  {
    match e
    case ChangeOwner(owner) => s.(epoch := s.epoch + 1, owner := owner)
    case Freeze => s.(frozen := true)
    case Unfreeze => s.(frozen := false)
    case Register(token) => s.(pending := s.pending + [|s.tokens|], tokens := s.tokens + [token])
    case Resolve(op, value) =>
      s.(outcomes := s.outcomes[op := if Owns(s, s.tokens[op]) then Fulfilled(value) else Rejected(StaleCollection)])
    case Reject(op, message) => s.(outcomes := s.outcomes[op := Rejected(Failure(message))])
    case Forget(op) => s.(pending := Without(s.pending, op))
    case DrainStart => s.(drain := Continue(s, [], 0, None))
    case DrainTurn =>
      var d := s.drain;
      s.(drain := Continue(s, d.awaited + d.snapshot, d.turns + 1,
                           if d.failure.Some? then d.failure else FirstRejection(s.outcomes, d.snapshot)))
  }

  predicate LegalRun(s: Scope, run: seq<Event>)
    decreases |run|
  {
    run == [] || (Enabled(s, run[0]) && LegalRun(Step(s, run[0]), run[1..]))
  }

  function Run(s: Scope, run: seq<Event>): Scope
    requires LegalRun(s, run)
    decreases |run|
  {
    if run == [] then s else Run(Step(s, run[0]), run[1..])
  }

  predicate LeadsTo(s: Scope, run: seq<Event>, t: Scope) {
    LegalRun(s, run) && Run(s, run) == t
  }

  // ---- Publication ----

  function OwnerChanges(run: seq<Event>): nat {
    if run == [] then 0 else (if run[0].ChangeOwner? then 1 else 0) + OwnerChanges(run[1..])
  }

  lemma {:induction false} EpochCountsChanges(s: Scope, run: seq<Event>)
    requires LegalRun(s, run)
    ensures Run(s, run).epoch == s.epoch + OwnerChanges(run)
    ensures OwnerChanges(run) == 0 ==> Run(s, run).owner == s.owner
    decreases |run|
  {
    if run != [] { EpochCountsChanges(Step(s, run[0]), run[1..]); }
  }

  /** A token taken before a run is still owned after it exactly when the run changed no
      owner, even if the same owner came back. */
  lemma {:induction false} TokenSurvivesIff(s: Scope, run: seq<Event>)
    requires LegalRun(s, run)
    ensures Owns(Run(s, run), TokenOf(s)) <==> OwnerChanges(run) == 0
    ensures IsCurrent(Run(s, run), TokenOf(s)) <==> OwnerChanges(run) == 0 && !Run(s, run).frozen
  {
    EpochCountsChanges(s, run);
  }

  /** The owner is the one of the last change. */
  lemma {:induction false} OwnerIsLast(s: Scope, run: seq<Event>, i: nat)
    requires LegalRun(s, run) && i <= |run| && forall j | i <= j < |run| :: !run[j].ChangeOwner?
    ensures i == 0 ==> Run(s, run).owner == s.owner
    ensures i > 0 && run[i - 1].ChangeOwner? ==> Run(s, run).owner == run[i - 1].owner
    decreases |run|
  {
    if run != [] { OwnerIsLast(Step(s, run[0]), run[1..], if i == 0 then 0 else i - 1); }
  }

  /** The scope is frozen exactly when it was frozen after it was last unfrozen. */
  lemma {:induction false} FrozenIsLast(s: Scope, run: seq<Event>, i: nat)
    requires LegalRun(s, run) && i <= |run| && forall j | i <= j < |run| :: !run[j].Freeze? && !run[j].Unfreeze?
    ensures i == 0 ==> Run(s, run).frozen == s.frozen
    ensures i > 0 && (run[i - 1].Freeze? || run[i - 1].Unfreeze?) ==> Run(s, run).frozen == run[i - 1].Freeze?
    decreases |run|
  {
    if run != [] { FrozenIsLast(Step(s, run[0]), run[1..], if i == 0 then 0 else i - 1); }
  }

  lemma {:induction false} TokensStay(s: Scope, run: seq<Event>, op: nat)
    requires LegalRun(s, run) && op < |s.tokens|
    ensures op < |Run(s, run).tokens| && Run(s, run).tokens[op] == s.tokens[op]
    ensures op in s.outcomes ==> op in Run(s, run).outcomes && Run(s, run).outcomes[op] == s.outcomes[op]
    decreases |run|
  {
    if run != [] { TokensStay(Step(s, run[0]), run[1..], op); }
  }

  /** No stale publication. An operation registered under a token, at any time after the
      token was taken, publishes the value its promise brings exactly when no owner change
      happened since the token was taken; otherwise it is rejected as stale. The outcome
      never changes afterwards. */
  lemma {:induction false} PublicationIsCurrent(s: Scope, before: seq<Event>, between: seq<Event>, value: string,
                                                behind: seq<Event>)
    requires LegalRun(s, before)
    requires LegalRun(Step(Run(s, before), Register(TokenOf(s))), between)
    requires var t := Run(Step(Run(s, before), Register(TokenOf(s))), between);
             var op := |Run(s, before).tokens|;
             Enabled(t, Resolve(op, value)) && LegalRun(Step(t, Resolve(op, value)), behind)
    ensures var t := Run(Step(Run(s, before), Register(TokenOf(s))), between);
            var op := |Run(s, before).tokens|;
            var end := Run(Step(t, Resolve(op, value)), behind);
            op in end.outcomes &&
            end.outcomes[op] == if OwnerChanges(before) + OwnerChanges(between) == 0 then Fulfilled(value)
                                else Rejected(StaleCollection)
  {
    var a := Run(s, before);
    var b := Step(a, Register(TokenOf(s)));
    var op := |a.tokens|;
    var t := Run(b, between);
    EpochCountsChanges(s, before);
    EpochCountsChanges(b, between);
    TokensStay(b, between, op);
    TokensStay(Step(t, Resolve(op, value)), behind, op);
  }

  /** A rejected promise is a rejection with its own reason for ever, whoever owns the scope. */
  lemma {:induction false} RejectionPasses(s: Scope, op: nat, message: string, behind: seq<Event>)
    requires Enabled(s, Reject(op, message)) && LegalRun(Step(s, Reject(op, message)), behind)
    ensures var end := Run(Step(s, Reject(op, message)), behind);
            op in end.outcomes && end.outcomes[op] == Rejected(Failure(message))
  {
    TokensStay(Step(s, Reject(op, message)), behind, op);
  }

  // ---- Draining ----

  /** What every reachable scope satisfies: pending operations are registered, listed once,
      and every operation that has not settled is among them; a drain has awaited only
      settled, forgotten operations, none twice, and its failure
      is the first rejection among them. */
  ghost predicate Valid(s: Scope) {
    Registered(s) && DrainSound(s)
  }

  ghost predicate Registered(s: Scope) {
    && NoDuplicates(s.pending)
    && (forall i | 0 <= i < |s.pending| :: s.pending[i] < |s.tokens|)
    && (forall op | op in s.outcomes :: op < |s.tokens|)
    && (forall op: nat | op < |s.tokens| :: op in s.outcomes || op in s.pending)
  }

  ghost predicate DrainSound(s: Scope) {
    match s.drain
    case Idle => true
    case Waiting(snapshot, awaited, turns, failure) =>
      && Awaited(s, awaited, turns) && failure == FirstRejection(s.outcomes, awaited)
      && NoDuplicates(awaited + snapshot) && snapshot != []
      && (forall i | 0 <= i < |snapshot| :: snapshot[i] < |s.tokens|)
    case Returned(awaited, turns) => Awaited(s, awaited, turns) && FirstRejection(s.outcomes, awaited) == None
    case Threw(awaited, turns, reason) =>
      Awaited(s, awaited, turns) && FirstRejection(s.outcomes, awaited) == Some(reason)
  }

  /** Operations awaited to the end in `turns` turns. */
  ghost predicate Awaited(s: Scope, awaited: seq<nat>, turns: nat) {
    && turns <= |awaited| && NoDuplicates(awaited)
    && forall i | 0 <= i < |awaited| :: awaited[i] in s.outcomes && awaited[i] !in s.pending && awaited[i] < |s.tokens|
  }

  lemma {:induction false} WithoutElements(pending: seq<nat>, op: nat)
    ensures forall x :: x in Without(pending, op) <==> x in pending && x != op
  {
    if pending != [] { WithoutElements(pending[1..], op); }
  }

  lemma {:induction false} WithoutDistinct(pending: seq<nat>, op: nat)
    requires NoDuplicates(pending)
    ensures NoDuplicates(Without(pending, op))
  {
    if pending != [] {
      WithoutDistinct(pending[1..], op);
      WithoutElements(pending[1..], op);
      assert pending[0] !in Without(pending[1..], op);
    }
  }

  /** The first rejection is that of an operation before which none was rejected. */
  lemma {:induction false} FirstRejectionMeans(outcomes: map<nat, Outcome>, ops: seq<nat>, i: nat)
    requires i <= |ops| && forall j | 0 <= j < i :: !(ops[j] in outcomes && outcomes[ops[j]].Rejected?)
    ensures i == |ops| ==> FirstRejection(outcomes, ops) == None
    ensures i < |ops| && ops[i] in outcomes && outcomes[ops[i]].Rejected? ==>
              FirstRejection(outcomes, ops) == Some(outcomes[ops[i]].reason)
    decreases |ops|
  {
    if i > 0 { FirstRejectionMeans(outcomes, ops[1..], i - 1); }
  }

  lemma {:induction false} FirstRejectionConcat(outcomes: map<nat, Outcome>, a: seq<nat>, b: seq<nat>)
    ensures FirstRejection(outcomes, a + b) ==
            if FirstRejection(outcomes, a).Some? then FirstRejection(outcomes, a) else FirstRejection(outcomes, b)
  {
    if a == [] {
      assert a + b == b;
    } else {
      assert (a + b)[1..] == a[1..] + b;
      FirstRejectionConcat(outcomes, a[1..], b);
    }
  }

  lemma {:induction false} FirstRejectionStable(m: map<nat, Outcome>, n: map<nat, Outcome>, ops: seq<nat>)
    requires forall i | 0 <= i < |ops| :: ops[i] in m && ops[i] in n && m[ops[i]] == n[ops[i]]
    ensures FirstRejection(m, ops) == FirstRejection(n, ops)
  {
    if ops != [] { FirstRejectionStable(m, n, ops[1..]); }
  }

  lemma {:induction false} RegisterKeepsValid(s: Scope, token: Token)
    requires Valid(s)
    ensures Valid(Step(s, Register(token)))
  {
    var t := Step(s, Register(token));
    if !s.drain.Idle? {
      var awaited := s.drain.awaited;
      assert forall i | 0 <= i < |awaited| :: awaited[i] !in t.pending;
    }
  }

  lemma {:induction false} SettleKeepsValid(s: Scope, op: nat, outcome: Outcome)
    requires Valid(s) && op < |s.tokens| && op !in s.outcomes
    ensures Valid(s.(outcomes := s.outcomes[op := outcome]))
  {
    if !s.drain.Idle? {
      FirstRejectionStable(s.outcomes, s.outcomes[op := outcome], s.drain.awaited);
    }
  }

  lemma {:induction false} ForgetKeepsValid(s: Scope, op: nat)
    requires Valid(s) && op in s.outcomes
    ensures Valid(s.(pending := Without(s.pending, op)))
  {
    WithoutElements(s.pending, op);
    WithoutDistinct(s.pending, op);
    var rest := Without(s.pending, op);
    assert forall i | 0 <= i < |rest| :: rest[i] in s.pending;
  }

  lemma {:induction false} TurnKeepsValid(s: Scope)
    requires Valid(s) && Enabled(s, DrainTurn)
    ensures Valid(Step(s, DrainTurn))
  {
    var d := s.drain;
    var all := d.awaited + d.snapshot;
    FirstRejectionConcat(s.outcomes, d.awaited, d.snapshot);
    assert Awaited(s, all, d.turns + 1);
    assert NoDuplicates(all + s.pending) by {
      forall i | 0 <= i < |all| ensures all[i] !in s.pending {}
    }
  }

  lemma {:induction false} StepKeepsValid(s: Scope, e: Event)
    requires Valid(s) && Enabled(s, e)
    ensures Valid(Step(s, e))
  {
    match e
    case Register(token) => RegisterKeepsValid(s, token);
    case Resolve(op, value) =>
      SettleKeepsValid(s, op, if Owns(s, s.tokens[op]) then Fulfilled(value) else Rejected(StaleCollection));
    case Reject(op, message) => SettleKeepsValid(s, op, Rejected(Failure(message)));
    case Forget(op) => ForgetKeepsValid(s, op);
    case DrainTurn => TurnKeepsValid(s);
    case DrainStart => DrainStartKeepsValid(s);
    case ChangeOwner(_) => FlagsKeepValid(s, e);
    case Freeze => FlagsKeepValid(s, e);
    case Unfreeze => FlagsKeepValid(s, e);
  }

  lemma {:induction false} FlagsKeepValid(s: Scope, e: Event)
    requires Valid(s) && Enabled(s, e) && (e.ChangeOwner? || e.Freeze? || e.Unfreeze?)
    ensures Valid(Step(s, e))
  {}

  lemma {:induction false} DrainStartKeepsValid(s: Scope)
    requires Valid(s) && Enabled(s, DrainStart)
    ensures Valid(Step(s, DrainStart))
  {
    assert [] + s.pending == s.pending;
  }

  lemma {:induction false} RunKeepsValid(s: Scope, run: seq<Event>)
    requires Valid(s) && LegalRun(s, run)
    ensures Valid(Run(s, run))
    decreases |run|
  {
    if run != [] {
      StepKeepsValid(s, run[0]);
      RunKeepsValid(Step(s, run[0]), run[1..]);
    }
  }

  /** Every scope that any sequence of events leads to. */
  lemma {:induction false} ReachableIsValid(run: seq<Event>)
    requires LegalRun(START, run)
    ensures Valid(Run(START, run))
  {
    RunKeepsValid(START, run);
  }

  predicate Finished(d: Drain) { d.Returned? || d.Threw? }

  predicate Ended(s: Scope) { Finished(s.drain) && s.pending == [] }

  /** A run in which a drain came to its end went through a moment at which it had ended,
      nothing was pending and every operation registered until then had settled. */
  lemma {:induction false} DrainEndsEmpty(s: Scope, run: seq<Event>)
    requires Valid(s) && LegalRun(s, run) && !Finished(s.drain) && Finished(Run(s, run).drain)
    ensures exists n :: 0 <= n <= |run| && LegalRun(s, run[..n]) && AllSettled(Run(s, run[..n]))
    decreases |run|
  {
    var t := Step(s, run[0]);
    StepKeepsValid(s, run[0]);
    if Finished(t.drain) {
      RunFirst(s, run, 0);
    } else {
      DrainEndsEmpty(t, run[1..]);
      var n :| 0 <= n <= |run[1..]| && LegalRun(t, run[1..][..n]) && AllSettled(Run(t, run[1..][..n]));
      RunFirst(s, run, n);
    }
  }

  lemma {:induction false} RunFirst(s: Scope, run: seq<Event>, n: nat)
    requires n < |run| && Enabled(s, run[0]) && LegalRun(Step(s, run[0]), run[1..][..n])
    ensures LegalRun(s, run[..n + 1]) && Run(s, run[..n + 1]) == Run(Step(s, run[0]), run[1..][..n])
  {
    assert run[..n + 1][1..] == run[1..][..n];
  }

  ghost predicate AllSettled(s: Scope) {
    Ended(s) && forall op: nat | op < |s.tokens| :: op in s.outcomes
  }

  /** What was pending when the drain began is the first thing it awaits. */
  predicate CoversStart(d: Drain, start: seq<nat>) {
    match d
    case Idle => false
    case Waiting(snapshot, awaited, _, _) => start <= awaited + snapshot
    case Returned(awaited, _) => start <= awaited
    case Threw(awaited, _, _) => start <= awaited
  }

  lemma {:induction false} RunCoversStart(s: Scope, run: seq<Event>, start: seq<nat>)
    requires LegalRun(s, run) && CoversStart(s.drain, start)
    requires forall i | 0 <= i < |run| :: run[i] != DrainStart
    ensures CoversStart(Run(s, run).drain, start)
    decreases |run|
  {
    if run != [] {
      assert run[0] != DrainStart;
      RunCoversStart(Step(s, run[0]), run[1..], start);
    }
  }

  lemma {:induction false} NoRejection(outcomes: map<nat, Outcome>, ops: seq<nat>)
    requires FirstRejection(outcomes, ops) == None && forall i | 0 <= i < |ops| :: ops[i] in outcomes
    ensures forall i | 0 <= i < |ops| :: outcomes[ops[i]].Fulfilled?
  {
    if ops != [] {
      NoRejection(outcomes, ops[1..]);
      assert forall i | 0 < i < |ops| :: ops[i] == ops[1..][i - 1];
    }
  }

  /** What a finished drain tells. If it returned, every operation it awaited was fulfilled,
      all that were pending at its start among them; if it threw, the reason is that of the
      first rejection in the order awaited. */
  lemma {:induction false} DrainOutcome(s: Scope, run: seq<Event>)
    requires Valid(s) && !s.drain.Waiting? && LegalRun(Step(s, DrainStart), run)
    requires forall i | 0 <= i < |run| :: run[i] != DrainStart
    ensures var end := Run(Step(s, DrainStart), run);
            && !end.drain.Idle?
            && end.drain.turns <= |end.tokens|
            && (Finished(end.drain) ==> s.pending <= end.drain.awaited)
            && (end.drain.Returned? ==>
                  forall i | 0 <= i < |end.drain.awaited| ::
                    end.drain.awaited[i] in end.outcomes && end.outcomes[end.drain.awaited[i]].Fulfilled?)
            && (end.drain.Threw? ==>
                  Some(end.drain.reason) == FirstRejection(end.outcomes, end.drain.awaited))
  {
    var begun := Step(s, DrainStart);
    StepKeepsValid(s, DrainStart);
    RunKeepsValid(begun, run);
    assert [] + s.pending == s.pending;
    RunCoversStart(begun, run, s.pending);
    var end := Run(begun, run);
    Pigeonhole(end.drain.awaited, |end.tokens|);
    if end.drain.Returned? { NoRejection(end.outcomes, end.drain.awaited); }
  }

  // ---- The order of registration ----

  predicate Ascending(ops: seq<nat>) {
    forall i, j | 0 <= i < j < |ops| :: ops[i] < ops[j]
  }

  /** Operations are pending and awaited in the order in which they were registered. */
  ghost predicate InOrder(s: Scope) {
    && Ascending(s.pending)
    && match s.drain
       case Idle => true
       case Waiting(snapshot, awaited, _, _) => Ascending(awaited + snapshot) && RestIsLater(s, snapshot)
       case Returned(awaited, _) => Ascending(awaited)
       case Threw(awaited, _, _) => Ascending(awaited)
  }

  /** What is pending and not awaited was registered after all that is. */
  ghost predicate RestIsLater(s: Scope, snapshot: seq<nat>) {
    forall op, i | op in s.pending && op !in snapshot && 0 <= i < |snapshot| :: snapshot[i] < op
  }

  lemma {:induction false} WithoutAscending(pending: seq<nat>, op: nat)
    requires Ascending(pending)
    ensures Ascending(Without(pending, op))
  {
    if pending != [] {
      WithoutAscending(pending[1..], op);
      WithoutElements(pending[1..], op);
      var rest := Without(pending[1..], op);
      forall i | 0 <= i < |rest| ensures pending[0] < rest[i] { assert rest[i] in pending[1..]; }
    }
  }

  lemma {:induction false} TurnKeepsOrder(s: Scope)
    requires Valid(s) && InOrder(s) && Enabled(s, DrainTurn)
    ensures InOrder(Step(s, DrainTurn))
  {
    var d := s.drain;
    var all := d.awaited + d.snapshot;
    assert all[|d.awaited|] == d.snapshot[0];
    forall i, j | 0 <= i < |all| && 0 <= j < |s.pending| ensures all[i] < s.pending[j] {
      assert s.pending[j] in s.pending && s.pending[j] !in d.snapshot;
      if i < |d.awaited| { assert all[i] < d.snapshot[0] < s.pending[j]; }
    }
    assert Ascending(all + s.pending);
  }

  lemma {:induction false} StepKeepsOrder(s: Scope, e: Event)
    requires Valid(s) && InOrder(s) && Enabled(s, e)
    ensures InOrder(Step(s, e))
  {
    match e
    case DrainTurn => TurnKeepsOrder(s);
    case DrainStart => assert [] + s.pending == s.pending;
    case Forget(op) =>
      WithoutAscending(s.pending, op);
      WithoutElements(s.pending, op);
    case _ =>
  }

  lemma {:induction false} RunKeepsOrder(s: Scope, run: seq<Event>)
    requires Valid(s) && InOrder(s) && LegalRun(s, run)
    ensures InOrder(Run(s, run))
    decreases |run|
  {
    if run != [] {
      StepKeepsValid(s, run[0]);
      StepKeepsOrder(s, run[0]);
      RunKeepsOrder(Step(s, run[0]), run[1..]);
    }
  }

  lemma {:induction false} FirstRejectionAt(outcomes: map<nat, Outcome>, ops: seq<nat>) returns (i: nat)
    requires FirstRejection(outcomes, ops).Some?
    ensures i < |ops| && ops[i] in outcomes && outcomes[ops[i]] == Rejected(FirstRejection(outcomes, ops).value)
    ensures forall j | 0 <= j < i :: !(ops[j] in outcomes && outcomes[ops[j]].Rejected?)
  {
    if ops[0] in outcomes && outcomes[ops[0]].Rejected? {
      i := 0;
    } else {
      var k := FirstRejectionAt(outcomes, ops[1..]);
      i := k + 1;
      assert forall j | 0 < j < i :: ops[j] == ops[1..][j - 1];
    }
  }

  /** A drain that threw gives the failure of the operation that was registered first among
      all it awaited that failed, in whatever order they settled. */
  lemma {:induction false} DrainThrowsEarliest(run: seq<Event>) returns (op: nat)
    requires LegalRun(START, run) && Run(START, run).drain.Threw?
    ensures var end := Run(START, run);
            && op in end.drain.awaited && op in end.outcomes && end.outcomes[op] == Rejected(end.drain.reason)
            && forall other | other in end.drain.awaited && other < op ::
                 other in end.outcomes && end.outcomes[other].Fulfilled?
  {
    ReachableIsValid(run);
    RunKeepsOrder(START, run);
    var end := Run(START, run);
    var awaited := end.drain.awaited;
    var i := FirstRejectionAt(end.outcomes, awaited);
    op := awaited[i];
    forall other | other in awaited && other < op ensures other in end.outcomes && end.outcomes[other].Fulfilled? {
      var j :| 0 <= j < |awaited| && awaited[j] == other;
      assert j < i;
    }
  }

  // ---- A drain ends ----

  /** Events that bring a drain nearer to its end: an operation settles, a pending one is
      forgotten, or the drain takes a turn. */
  predicate Progresses(s: Scope, e: Event) {
    && Enabled(s, e)
    && (e.Resolve? || e.Reject? || (e.Forget? && e.op in s.pending) || e.DrainTurn?)
  }

  /** Neither a new operation nor a new drain. */
  predicate Closing(e: Event) { !e.Register? && !e.DrainStart? }

  function Turns(d: Drain): nat { if d.Idle? then 0 else d.turns }

  /** How many such events can still happen: operations to settle, operations to forget, and
      turns, of which there is at most one for each operation. */
  function Work(s: Scope): int {
    (|s.tokens| - |s.outcomes|) + |s.pending| + (|s.tokens| - Turns(s.drain))
  }

  lemma {:induction false} WorkNotNegative(s: Scope)
    requires Valid(s)
    ensures Work(s) >= 0
  {
    SubsetSize(s.outcomes.Keys, UpTo(|s.tokens|));
    if !s.drain.Idle? { Pigeonhole(s.drain.awaited, |s.tokens|); }
  }

  /** A waiting drain is never stuck: something it needs can happen next. */
  lemma {:induction false} ProgressPossible(s: Scope) returns (e: Event)
    requires Valid(s) && s.drain.Waiting?
    ensures Progresses(s, e)
  {
    var snapshot := s.drain.snapshot;
    if i :| 0 <= i < |snapshot| && snapshot[i] !in s.outcomes {
      e := Resolve(snapshot[i], "");
    } else if i :| 0 <= i < |snapshot| && snapshot[i] in s.pending {
      e := Forget(snapshot[i]);
    } else {
      e := DrainTurn;
    }
  }

  lemma {:induction false} WithoutLength(pending: seq<nat>, op: nat)
    ensures |Without(pending, op)| <= |pending|
    ensures op in pending ==> |Without(pending, op)| < |pending|
  {
    if pending != [] { WithoutLength(pending[1..], op); }
  }

  /** Every such event uses up work, and nothing else that may happen adds any. */
  lemma {:induction false} ProgressLowersWork(s: Scope, e: Event)
    requires Enabled(s, e) && Closing(e)
    ensures Work(Step(s, e)) <= Work(s)
    ensures Progresses(s, e) ==> Work(Step(s, e)) < Work(s)
  {
    if e.Forget? { WithoutLength(s.pending, e.op); }
  }

  /** How many events of a run bring the drain nearer to its end. */
  function ProgressCount(s: Scope, run: seq<Event>): nat
    requires LegalRun(s, run)
    decreases |run|
  {
    if run == [] then 0
    else (if Progresses(s, run[0]) then 1 else 0) + ProgressCount(Step(s, run[0]), run[1..])
  }

  lemma {:induction false} RunUsesWork(s: Scope, run: seq<Event>)
    requires Valid(s) && LegalRun(s, run) && (forall i | 0 <= i < |run| :: Closing(run[i]))
    requires s.drain.Waiting? || Ended(s)
    ensures ProgressCount(s, run) + Work(Run(s, run)) <= Work(s)
    ensures Run(s, run).drain.Waiting? || Ended(Run(s, run))
    decreases |run|
  {
    if run != [] {
      assert Closing(run[0]);
      StepKeepsValid(s, run[0]);
      ProgressLowersWork(s, run[0]);
      RunUsesWork(Step(s, run[0]), run[1..]);
    }
  }

  /** Termination. From any scope in which a drain waits, through any run that registers no
      more operations: only so many events can bring the drain nearer to its end, and a run
      that can have no further one (every promise settled, every callback done) has ended
      it, with nothing pending and every registered operation settled. */
  lemma {:induction false} DrainTerminates(s: Scope, run: seq<Event>)
    requires Valid(s) && s.drain.Waiting? && LegalRun(s, run)
    requires forall i | 0 <= i < |run| :: Closing(run[i])
    ensures ProgressCount(s, run) <= Work(s)
    ensures var end := Run(s, run);
            (forall e :: !Progresses(end, e)) ==> AllSettled(end)
  {
    RunUsesWork(s, run);
    RunKeepsValid(s, run);
    var end := Run(s, run);
    WorkNotNegative(end);
    if end.drain.Waiting? {
      var e := ProgressPossible(end);
    }
  }

  /** Such a run exists from every waiting drain. */
  lemma {:induction false} DrainCanEnd(s: Scope) returns (run: seq<Event>)
    requires Valid(s) && s.drain.Waiting?
    ensures LegalRun(s, run) && (forall i | 0 <= i < |run| :: Closing(run[i]))
    ensures Finished(Run(s, run).drain)
    decreases Work(s)
  {
    WorkNotNegative(s);
    var e := ProgressPossible(s);
    var t := Step(s, e);
    StepKeepsValid(s, e);
    ProgressLowersWork(s, e);
    WorkNotNegative(t);
    var rest: seq<Event> := [];
    if t.drain.Waiting? { rest := DrainCanEnd(t); }
    run := [e] + rest;
    assert run[1..] == rest;
  }

  // ---- The class ----

  class CollectionMutationScope {
    var epoch: nat
    var owner: Option<string>
    var frozen: bool
    var pending: seq<nat>
    var tokens: seq<Token>
    var outcomes: map<nat, Outcome>
    var drain: Drain

    ghost function Snapshot(): Scope
      reads this
    {
      Scope(epoch, owner, frozen, pending, tokens, outcomes, drain)
    }

    constructor ()
      ensures Snapshot() == START && Valid(Snapshot())
    {
      epoch, owner, frozen, pending, tokens, outcomes, drain := 0, None, false, [], [], map[], Idle;
    }

    method CurrentToken() returns (t: Token)
      ensures t == TokenOf(Snapshot())
    {
      t := Token(epoch, owner);
    }

    /** A token taken at any earlier moment is current exactly when the scope is not frozen and
        no owner change happened since. */
    method IsTokenCurrent(t: Token) returns (r: bool)
      ensures r <==> IsCurrent(Snapshot(), t)
      ensures forall taken, since | LeadsTo(taken, since, Snapshot()) && TokenOf(taken) == t ::
                r <==> !frozen && OwnerChanges(since) == 0
    {
      forall taken, since | LeadsTo(taken, since, Snapshot()) && TokenOf(taken) == t
        ensures IsCurrent(Snapshot(), t) <==> !frozen && OwnerChanges(since) == 0
      {
        TokenSurvivesIff(taken, since);
      }
      r := !frozen && t.epoch == epoch && t.owner == owner;
    }

    method Freeze()
      modifies this`frozen
      ensures Snapshot() == Step(old(Snapshot()), Event.Freeze)
    {
      if frozen { return; }
      frozen := true;
    }

    method Unfreeze()
      modifies this`frozen
      ensures Snapshot() == Step(old(Snapshot()), Event.Unfreeze)
    {
      if !frozen { return; }
      frozen := false;
    }

    method ChangeOwner(collection: Option<string>) returns (t: Token)
      modifies this`epoch, this`owner
      ensures Snapshot() == Step(old(Snapshot()), Event.ChangeOwner(collection))
      ensures t == TokenOf(Snapshot()) && !Owns(Snapshot(), TokenOf(old(Snapshot())))
    {
      epoch := epoch + 1;
      owner := collection;
      t := CurrentToken();
    }

    /** `run`: nothing is accepted while frozen; otherwise the operation is registered under
        the token of this moment. */
    method Run() returns (op: Option<nat>)
      requires Valid(Snapshot())
      modifies this`pending, this`tokens
      ensures old(frozen) ==> op == None && Snapshot() == old(Snapshot())
      ensures !old(frozen) ==>
                && op == Some(old(|tokens|))
                && Snapshot() == Step(old(Snapshot()), Event.Register(TokenOf(old(Snapshot()))))
      ensures Valid(Snapshot())
    {
      if frozen {
        return None;
      }
      var token := CurrentToken();
      var id := Register(token);
      op := Some(id);
    }

    method Register(token: Token) returns (op: nat)
      requires Valid(Snapshot())
      modifies this`pending, this`tokens
      ensures op == old(|tokens|) && Snapshot() == Step(old(Snapshot()), Event.Register(token))
      ensures Valid(Snapshot())
    {
      RegisterKeepsValid(Snapshot(), token);
      op := |tokens|;
      tokens := tokens + [token];
      pending := pending + [op];
    }

    /** The `then` callback of a registered promise. */
    method Resolve(op: nat, value: string)
      requires Valid(Snapshot()) && Enabled(Snapshot(), Event.Resolve(op, value))
      modifies this`outcomes
      ensures Snapshot() == Step(old(Snapshot()), Event.Resolve(op, value))
      ensures Valid(Snapshot())
    {
      StepKeepsValid(Snapshot(), Event.Resolve(op, value));
      var token := tokens[op];
      if token.epoch != epoch || token.owner != owner {
        outcomes := outcomes[op := Rejected(StaleCollection)];
      } else {
        outcomes := outcomes[op := Fulfilled(value)];
      }
    }

    /** A rejection passes the `then` callback by. */
    method Reject(op: nat, message: string)
      requires Valid(Snapshot()) && Enabled(Snapshot(), Event.Reject(op, message))
      modifies this`outcomes
      ensures Snapshot() == Step(old(Snapshot()), Event.Reject(op, message))
      ensures Valid(Snapshot())
    {
      StepKeepsValid(Snapshot(), Event.Reject(op, message));
      outcomes := outcomes[op := Rejected(Failure(message))];
    }

    /** The `finally` callback of a registered promise. */
    method Forget(op: nat)
      requires Valid(Snapshot()) && op in outcomes
      modifies this`pending
      ensures Snapshot() == Step(old(Snapshot()), Event.Forget(op))
      ensures Valid(Snapshot())
    {
      StepKeepsValid(Snapshot(), Event.Forget(op));
      pending := Without(pending, op);
    }

    /** `drain` up to its first await. */
    method DrainBegin()
      requires Valid(Snapshot()) && Enabled(Snapshot(), DrainStart)
      modifies this`drain
      ensures Snapshot() == Step(old(Snapshot()), DrainStart)
      ensures Valid(Snapshot())
    {
      StepKeepsValid(Snapshot(), DrainStart);
      drain := if pending != [] then Waiting(pending, [], 0, None) else Returned([], 0);
    }

    /** `drain` resumed with the outcomes of its snapshot: scan them for the first failure,
        then await what is pending now, or end. */
    method DrainResume()
      requires Valid(Snapshot()) && Enabled(Snapshot(), DrainTurn)
      modifies this`drain
      ensures Snapshot() == Step(old(Snapshot()), DrainTurn)
      ensures Valid(Snapshot())
    {
      StepKeepsValid(Snapshot(), DrainTurn);
      var d := drain;
      var failure := d.failure;
      assert d.snapshot[0..] == d.snapshot;
      for i := 0 to |d.snapshot|
        invariant drain == d
        invariant (if failure.Some? then failure else FirstRejection(outcomes, d.snapshot[i..])) ==
                  (if d.failure.Some? then d.failure else FirstRejection(outcomes, d.snapshot))
      {
        assert d.snapshot[i..][1..] == d.snapshot[i + 1..];
        var outcome := outcomes[d.snapshot[i]];
        if failure.None? && outcome.Rejected? {
          failure := Some(outcome.reason);
        }
      }
      assert d.snapshot[|d.snapshot|..] == [];
      var awaited := d.awaited + d.snapshot;
      if pending != [] {
        drain := Waiting(pending, awaited, d.turns + 1, failure);
      } else if failure.Some? {
        drain := Threw(awaited, d.turns + 1, failure.value);
      } else {
        drain := Returned(awaited, d.turns + 1);
      }
    }
  }
}
