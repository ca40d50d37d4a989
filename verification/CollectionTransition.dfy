/** Leaving a collection while uploads are under way: the mutation scope is frozen and
drained before the uploader's reservations are thrown away. */
module CollectionTransition {
  import opened Options
  import opened MutationScope
  import Uploads = AttachmentUpload

  /** A transition freezes the scope, saves what is open, drains, changes the collection and
      then clears the workspace. */
  datatype Phase = Settled | Saving | Draining | Changing | Cleared

  /** `uploading` are the scope operations that upload files, `holder` the operation of each
      upload in flight. */
  datatype State = State(
    scope: Scope,
    uploads: Uploads.Uploads,
    uploading: set<nat>,
    holder: map<nat, nat>,
    phase: Phase)

  const OPENED := State(START, Uploads.EMPTY, {}, map[], Settled)

  datatype Action =
    | Accept                                                   // an upload gesture
    | Upload(op: nat, target: Uploads.Target, copy: nat)       // one of its files starts
    | Land(id: nat, current: bool)                             // and is uploaded
    | Fail(id: nat)                                            // or fails
    | Work(token: Token)                                       // any other registered work
    | Settle(e: Event)                                         // an operation settles or is forgotten
    | Inventory(paths: set<string>)
    | Freeze                                                   // a leave dialog freezes the scope
    | Unfreeze                                                 // and unfreezes it
    | Begin                                                    // a transition starts
    | Drain
    | Turn
    | Clear(owner: Option<string>)                             // the collection changed
    | Reopen                                                   // the transition is over

  predicate Unused(s: State, op: nat) {
    forall id | id in s.uploads.flights && id in s.holder :: s.holder[id] != op
  }

  predicate Enabled(f: Uploads.Folding, s: State, a: Action) {
    && Uploads.Valid(s.uploads)
    && match a
       case Accept => !s.scope.frozen
       case Upload(op, target, copy) =>
         && op in s.uploading && op !in s.scope.outcomes
         && Uploads.Enabled(f, s.uploads, Uploads.Begin(target, copy))
       case Land(id, _) => id in s.uploads.flights
       case Fail(id) => id in s.uploads.flights
       case Work(_) => true
       case Settle(e) =>
         && (e.Resolve? || e.Reject? || e.Forget?) && MutationScope.Enabled(s.scope, e)
         && (!e.Forget? ==> Unused(s, e.op))
       case Inventory(_) => true
       case Freeze => true
       case Unfreeze => true
       case Begin => s.phase == Settled
       case Drain => s.phase == Saving && !s.scope.drain.Waiting?
       case Turn => s.phase == Draining && MutationScope.Enabled(s.scope, DrainTurn)
       case Clear(_) => s.phase == Changing
       case Reopen => s.phase == Changing || s.phase == Cleared
  }

  /** After a step of the drain: still waiting, done, or failed, in which case the transition
      gives up and unfreezes. */
  function Drained(s: State, scope: Scope): State {
    if scope.drain.Returned? then s.(scope := scope, phase := Changing)
    else if scope.drain.Threw? then s.(scope := scope.(frozen := false), phase := Settled)
    else s.(scope := scope, phase := Draining)
  }

  function Step(f: Uploads.Folding, s: State, a: Action): State
    requires Enabled(f, s, a)
  {
    match a
    case Accept =>
      s.(scope := MutationScope.Step(s.scope, Register(TokenOf(s.scope))),
         uploading := s.uploading + {|s.scope.tokens|})
    case Upload(op, target, copy) =>
      s.(uploads := Uploads.Step(f, s.uploads, Uploads.Begin(target, copy)), holder := s.holder[s.uploads.next := op])
    case Land(id, current) => s.(uploads := Uploads.Step(f, s.uploads, Uploads.Finish(id, current)))
    case Fail(id) => s.(uploads := Uploads.Step(f, s.uploads, Uploads.Fail(id)))
    case Work(token) => s.(scope := MutationScope.Step(s.scope, Register(token)))
    case Settle(e) => s.(scope := MutationScope.Step(s.scope, e))
    case Inventory(paths) => s.(uploads := Uploads.Step(f, s.uploads, Uploads.Refresh(paths)))
    case Freeze => s.(scope := s.scope.(frozen := true))
    case Unfreeze => s.(scope := s.scope.(frozen := false))
    case Begin => s.(scope := s.scope.(frozen := true), phase := Saving)
    case Drain => Drained(s, MutationScope.Step(s.scope, DrainStart))
    case Turn => Drained(s, MutationScope.Step(s.scope, DrainTurn))
    case Clear(owner) =>
      s.(uploads := Uploads.Renewed(s.uploads), scope := MutationScope.Step(s.scope, ChangeOwner(owner)),
         phase := Cleared)
    case Reopen => s.(scope := s.scope.(frozen := false), phase := Settled)
  }

  // ---- What every run keeps ----

  /** Every upload in flight belongs to an upload operation that has not settled. */
  ghost predicate Valid(s: State) {
    MutationScope.Valid(s.scope) && Uploads.Valid(s.uploads) && Held(s) && DrainPhase(s)
  }

  ghost predicate Held(s: State) {
    && (forall op | op in s.uploading :: op < |s.scope.tokens|)
    && (forall id | id in s.uploads.flights ::
          id in s.holder && s.holder[id] in s.uploading && s.holder[id] !in s.scope.outcomes)
  }

  predicate DrainPhase(s: State) { s.phase == Draining <==> s.scope.drain.Waiting? }

  lemma {:induction false} DrainedKeepsValid(s: State, scope: Scope)
    requires Valid(s) && MutationScope.Valid(scope) && scope.tokens == s.scope.tokens
    requires scope.outcomes == s.scope.outcomes && scope.frozen == s.scope.frozen && !scope.drain.Idle?
    requires s.phase == Saving || s.phase == Draining
    ensures Valid(Drained(s, scope))
  {}

  lemma {:induction false} ScopeKeepsValid(s: State, e: Event)
    requires Valid(s) && MutationScope.Enabled(s.scope, e)
    requires e.Register? || ((e.Resolve? || e.Reject?) && Unused(s, e.op)) || e.Forget?
    ensures Valid(s.(scope := MutationScope.Step(s.scope, e)))
  {
    MutationScope.StepKeepsValid(s.scope, e);
  }

  lemma {:induction false} UploadsKeepValid(f: Uploads.Folding, s: State, e: Uploads.Event)
    requires Valid(s) && Uploads.Enabled(f, s.uploads, e) && (e.Finish? || e.Fail? || e.Refresh?)
    ensures Valid(s.(uploads := Uploads.Step(f, s.uploads, e)))
  {
    Uploads.StepKeepsValid(f, s.uploads, e);
  }

  lemma {:induction false} UploadKeepsValid(f: Uploads.Folding, s: State, a: Action)
    requires Valid(s) && Enabled(f, s, a) && a.Upload?
    ensures Valid(Step(f, s, a))
  {
    Uploads.StepKeepsValid(f, s.uploads, Uploads.Begin(a.target, a.copy));
  }

  lemma {:induction false} AcceptKeepsValid(f: Uploads.Folding, s: State)
    requires Valid(s) && Enabled(f, s, Accept)
    ensures Valid(Step(f, s, Accept))
  {
    ScopeKeepsValid(s, Register(TokenOf(s.scope)));
  }

  lemma {:induction false} ClearKeepsValid(f: Uploads.Folding, s: State, a: Action)
    requires Valid(s) && Enabled(f, s, a) && a.Clear?
    ensures Valid(Step(f, s, a))
  {
    MutationScope.StepKeepsValid(s.scope, ChangeOwner(a.owner));
    Uploads.RenewedValid(s.uploads);
  }

  lemma {:induction false} FreezeKeepsValid(f: Uploads.Folding, s: State, a: Action)
    requires Valid(s) && Enabled(f, s, a) && (a.Freeze? || a.Unfreeze? || a.Begin? || a.Reopen?)
    ensures Valid(Step(f, s, a))
  {
    MutationScope.StepKeepsValid(s.scope, MutationScope.Freeze);
    MutationScope.StepKeepsValid(s.scope, MutationScope.Unfreeze);
  }

  lemma {:induction false} StepKeepsValid(f: Uploads.Folding, s: State, a: Action)
    requires Valid(s) && Enabled(f, s, a)
    ensures Valid(Step(f, s, a))
  {
    match a
    case Accept => AcceptKeepsValid(f, s);
    case Upload(_, _, _) => UploadKeepsValid(f, s, a);
    case Land(id, current) => UploadsKeepValid(f, s, Uploads.Finish(id, current));
    case Fail(id) => UploadsKeepValid(f, s, Uploads.Fail(id));
    case Work(token) => ScopeKeepsValid(s, Register(token));
    case Settle(e) => ScopeKeepsValid(s, e);
    case Inventory(paths) => UploadsKeepValid(f, s, Uploads.Refresh(paths));
    case Drain =>
      MutationScope.StepKeepsValid(s.scope, DrainStart);
      DrainedKeepsValid(s, MutationScope.Step(s.scope, DrainStart));
    case Turn =>
      MutationScope.StepKeepsValid(s.scope, DrainTurn);
      DrainedKeepsValid(s, MutationScope.Step(s.scope, DrainTurn));
    case Clear(_) => ClearKeepsValid(f, s, a);
    case _ => FreezeKeepsValid(f, s, a);
  }

  predicate LegalRun(f: Uploads.Folding, s: State, run: seq<Action>)
    decreases |run|
  {
    run == [] || (Enabled(f, s, run[0]) && LegalRun(f, Step(f, s, run[0]), run[1..]))
  }

  function Run(f: Uploads.Folding, s: State, run: seq<Action>): State
    requires LegalRun(f, s, run)
    decreases |run|
  {
    if run == [] then s else Run(f, Step(f, s, run[0]), run[1..])
  }

  lemma {:induction false} RunKeepsValid(f: Uploads.Folding, s: State, run: seq<Action>)
    requires Valid(s) && LegalRun(f, s, run)
    ensures Valid(Run(f, s, run))
    decreases |run|
  {
    if run != [] {
      StepKeepsValid(f, s, run[0]);
      RunKeepsValid(f, Step(f, s, run[0]), run[1..]);
    }
  }

  lemma {:induction false} OpenedIsValid()
    ensures Valid(OPENED)
  {}

  // ---- When the workspace may be cleared ----

  /** The scope is frozen and every upload operation has settled: what a caller can look at
      before clearing. */
  predicate Safe(s: State) {
    s.scope.frozen && forall op | op in s.uploading :: op in s.scope.outcomes
  }

  /** What goes on beside a transition, apart from lifting its freeze. */
  predicate Beside(a: Action) {
    a.Accept? || a.Upload? || a.Land? || a.Fail? || a.Work? || a.Settle? || a.Inventory? || a.Freeze?
  }

  lemma {:induction false} SafeHasNoFlight(s: State)
    requires Valid(s) && Safe(s)
    ensures s.uploads.flights == map[]
  {
    forall id | id in s.uploads.flights ensures false {}
  }

  lemma {:induction false} BesideKeepsSafe(f: Uploads.Folding, s: State, a: Action)
    requires Valid(s) && Safe(s) && Enabled(f, s, a) && Beside(a)
    ensures Safe(Step(f, s, a)) && Step(f, s, a).phase == s.phase
  {}

  /** A run beside the transition after which an upload is in flight. */
  ghost predicate LeavesUpload(f: Uploads.Folding, s: State, run: seq<Action>) {
    && LegalRun(f, s, run) && (forall i | 0 <= i < |run| :: Beside(run[i]))
    && Run(f, s, run).uploads.flights != map[]
  }

  lemma {:induction false} SafeStaysWithoutUpload(f: Uploads.Folding, s: State, run: seq<Action>)
    requires Valid(s) && Safe(s)
    ensures !LeavesUpload(f, s, run)
    decreases |run|
  {
    SafeHasNoFlight(s);
    if run != [] && Enabled(f, s, run[0]) && Beside(run[0]) {
      StepKeepsValid(f, s, run[0]);
      BesideKeepsSafe(f, s, run[0]);
      SafeStaysWithoutUpload(f, Step(f, s, run[0]), run[1..]);
    }
  }

  lemma {:induction false} LeavesFirst(f: Uploads.Folding, s: State, a: Action, rest: seq<Action>)
    requires Enabled(f, s, a) && Beside(a) && LeavesUpload(f, Step(f, s, a), rest)
    ensures LeavesUpload(f, s, [a] + rest)
  {
    assert ([a] + rest)[1..] == rest;
  }

  /** An unsettled upload operation can start an upload of any name. */
  lemma {:induction false} OperationUploads(f: Uploads.Folding, s: State, op: nat, t: Uploads.Target)
    returns (copy: nat)
    requires Uploads.KeepsNumbers(f) && Valid(s) && op in s.uploading && op !in s.scope.outcomes
    ensures Enabled(f, s, Upload(op, t, copy))
    ensures LeavesUpload(f, s, [Upload(op, t, copy)])
  {
    copy := Uploads.FreeCopy(f, t, Uploads.Occupied(s.uploads), 1);
    var a := Upload(op, t, copy);
    assert s.uploads.next in Step(f, s, a).uploads.flights;
    LeavesFirst(f, s, a, []);
    assert [a] + [] == [a];
  }

  /** While it is not safe an upload can be under way when the workspace is cleared, for a
      file of any name. */
  lemma {:induction false} UnsafeLeavesUpload(f: Uploads.Folding, s: State, t: Uploads.Target)
    returns (run: seq<Action>)
    requires Uploads.KeepsNumbers(f) && Valid(s) && !Safe(s)
    ensures LeavesUpload(f, s, run)
  {
    if !s.scope.frozen {
      var u := Step(f, s, Accept);
      AcceptOpens(f, s);
      var copy := OperationUploads(f, u, |s.scope.tokens|, t);
      LeavesFirst(f, s, Accept, [Upload(|s.scope.tokens|, t, copy)]);
      run := [Accept] + [Upload(|s.scope.tokens|, t, copy)];
    } else {
      var op :| op in s.uploading && op !in s.scope.outcomes;
      var copy := OperationUploads(f, s, op, t);
      run := [Upload(op, t, copy)];
    }
  }

  lemma {:induction false} AcceptOpens(f: Uploads.Folding, s: State)
    requires Valid(s) && !s.scope.frozen
    ensures Enabled(f, s, Accept) && Valid(Step(f, s, Accept)) && Step(f, s, Accept).phase == s.phase
    ensures var u, op := Step(f, s, Accept), |s.scope.tokens|; op in u.uploading && op !in u.scope.outcomes
    ensures Step(f, s, Accept).uploads == s.uploads
  {
    AcceptKeepsValid(f, s);
  }

  /** The exact condition for no upload to be in flight: whatever goes on before the workspace
      is cleared, none can be, if and only if the state is safe. */
  lemma {:induction false} SafeIff(f: Uploads.Folding, s: State)
    requires Uploads.KeepsNumbers(f) && Valid(s)
    ensures Safe(s) <==> !exists run :: LeavesUpload(f, s, run)
  {
    if Safe(s) {
      forall run ensures !LeavesUpload(f, s, run) { SafeStaysWithoutUpload(f, s, run); }
    } else {
      var run := UnsafeLeavesUpload(f, s, Uploads.Target("", "", "", ""));
    }
  }

  // ---- Uploads stay apart ----

  predicate Collided(s: State) {
    exists i, j :: && i in s.uploads.flights && j in s.uploads.flights && i != j
                   && s.uploads.flights[i].key == s.uploads.flights[j].key
  }

  lemma {:induction false} CurrentDoNotCollide(s: State)
    requires Valid(s) && Uploads.AllCurrent(s.uploads)
    ensures !Collided(s)
  {}

  lemma {:induction false} StepKeepsCurrent(f: Uploads.Folding, s: State, a: Action)
    requires Valid(s) && Enabled(f, s, a) && Uploads.AllCurrent(s.uploads)
    requires a.Clear? ==> s.uploads.flights == map[]
    ensures Uploads.AllCurrent(Step(f, s, a).uploads)
  {}

  /** Every clearing of the run happens in a safe state. */
  predicate ClearsSafely(f: Uploads.Folding, s: State, run: seq<Action>)
    requires LegalRun(f, s, run)
    decreases |run|
  {
    run == [] || ((run[0].Clear? ==> Safe(s)) && ClearsSafely(f, Step(f, s, run[0]), run[1..]))
  }

  lemma {:induction false} RunKeepsCurrent(f: Uploads.Folding, s: State, run: seq<Action>)
    requires Valid(s) && LegalRun(f, s, run) && ClearsSafely(f, s, run) && Uploads.AllCurrent(s.uploads)
    ensures Uploads.AllCurrent(Run(f, s, run).uploads) && !Collided(Run(f, s, run))
    decreases |run|
  {
    if run == [] {
      CurrentDoNotCollide(s);
    } else {
      if run[0].Clear? { SafeHasNoFlight(s); }
      StepKeepsValid(f, s, run[0]);
      StepKeepsCurrent(f, s, run[0]);
      RunKeepsCurrent(f, Step(f, s, run[0]), run[1..]);
    }
  }

  /** Through every run of uploads and transitions that clears the workspace only when it is
      safe, all uploads in flight hold different paths. */
  lemma {:induction false} UploadsStayApart(f: Uploads.Folding, run: seq<Action>)
    requires LegalRun(f, OPENED, run) && ClearsSafely(f, OPENED, run)
    ensures !Collided(Run(f, OPENED, run))
  {
    OpenedIsValid();
    RunKeepsCurrent(f, OPENED, run);
  }

  /** A run that goes on beside the transition, clears the workspace once, and then goes on
      in any way without clearing it again. */
  predicate ClearsOnce(run: seq<Action>) {
    && run != []
    && if run[0].Clear? then NeverClears(run[1..]) else Beside(run[0]) && ClearsOnce(run[1..])
  }

  predicate NeverClears(run: seq<Action>) {
    run == [] || (!run[0].Clear? && NeverClears(run[1..]))
  }

  ghost predicate Collides(f: Uploads.Folding, s: State, run: seq<Action>) {
    LegalRun(f, s, run) && Collided(Run(f, s, run))
  }

  lemma {:induction false} NeverClearsSafely(f: Uploads.Folding, s: State, run: seq<Action>)
    requires LegalRun(f, s, run) && NeverClears(run)
    ensures ClearsSafely(f, s, run)
    decreases |run|
  {
    if run != [] { NeverClearsSafely(f, Step(f, s, run[0]), run[1..]); }
  }

  lemma {:induction false} SafeDoesNotCollide(f: Uploads.Folding, s: State, run: seq<Action>)
    requires Valid(s) && Safe(s) && ClearsOnce(run)
    ensures !Collides(f, s, run)
    decreases |run|
  {
    SafeHasNoFlight(s);
    if Enabled(f, s, run[0]) {
      var t := Step(f, s, run[0]);
      StepKeepsValid(f, s, run[0]);
      StepKeepsCurrent(f, s, run[0]);
      if !run[0].Clear? {
        BesideKeepsSafe(f, s, run[0]);
        SafeDoesNotCollide(f, t, run[1..]);
      } else if LegalRun(f, t, run[1..]) {
        NeverClearsSafely(f, t, run[1..]);
        RunKeepsCurrent(f, t, run[1..]);
      }
    }
  }

  lemma {:induction false} CollidesFirst(f: Uploads.Folding, s: State, a: Action, rest: seq<Action>)
    requires Enabled(f, s, a) && Collides(f, Step(f, s, a), rest)
    ensures Collides(f, s, [a] + rest)
  {
    assert ([a] + rest)[1..] == rest;
  }

  lemma {:induction false} ClearsFirst(a: Action, rest: seq<Action>)
    ensures !a.Clear? && NeverClears(rest) ==> NeverClears([a] + rest)
    ensures a.Clear? && NeverClears(rest) ==> ClearsOnce([a] + rest)
    ensures Beside(a) && ClearsOnce(rest) ==> ClearsOnce([a] + rest)
  {
    assert ([a] + rest)[1..] == rest;
  }

  lemma {:induction false} OnceFirst(f: Uploads.Folding, s: State, a: Action, rest: seq<Action>)
    returns (run: seq<Action>)
    requires Enabled(f, s, a) && Beside(a) && ClearsOnce(rest) && Collides(f, Step(f, s, a), rest)
    ensures ClearsOnce(run) && Collides(f, s, run)
  {
    CollidesFirst(f, s, a, rest);
    ClearsFirst(a, rest);
    run := [a] + rest;
  }

  /** Upload `id` flies, and the search for its name would end at its own path. */
  ghost predicate Taken(f: Uploads.Folding, s: State, id: nat, t: Uploads.Target, copy: nat) {
    && id in s.uploads.flights && s.uploads.flights[id].key == f.fold(Uploads.Candidate(t, copy))
    && Uploads.Valid(s.uploads) && Uploads.Enabled(f, s.uploads, Uploads.Begin(t, copy))
  }

  lemma {:induction false} UploadCollides(f: Uploads.Folding, s: State, op: nat, id: nat, t: Uploads.Target, copy: nat)
    requires Valid(s) && op in s.uploading && op !in s.scope.outcomes && Taken(f, s, id, t, copy)
    ensures NeverClears([Upload(op, t, copy)]) && Collides(f, s, [Upload(op, t, copy)])
  {
    var a := Upload(op, t, copy);
    var u := Step(f, s, a);
    assert id in u.uploads.flights && s.uploads.next in u.uploads.flights && id != s.uploads.next;
    assert Collided(u);
    CollidesFirst(f, s, a, []);
    ClearsFirst(a, []);
    assert [a] + [] == [a];
  }

  /** After the clearing the scope is opened again, and the next upload of the name collides. */
  lemma {:induction false} ReopenedCollides(f: Uploads.Folding, s: State, id: nat, t: Uploads.Target, copy: nat)
    returns (run: seq<Action>)
    requires Valid(s) && s.phase == Cleared && Taken(f, s, id, t, copy)
    ensures NeverClears(run) && Collides(f, s, run)
  {
    var reopened := Step(f, s, Reopen);
    StepKeepsValid(f, s, Reopen);
    AcceptOpens(f, reopened);
    var op := |reopened.scope.tokens|;
    UploadCollides(f, Step(f, reopened, Accept), op, id, t, copy);
    run := [Upload(op, t, copy)];
    CollidesFirst(f, reopened, Accept, run);
    ClearsFirst(Accept, run);
    run := [Accept] + run;
    CollidesFirst(f, s, Reopen, run);
    ClearsFirst(Reopen, run);
    run := [Reopen] + run;
  }

  /** A clearing while an upload flies whose earlier names are all in the inventory. */
  lemma {:induction false} ClearCollides(f: Uploads.Folding, s: State, id: nat, t: Uploads.Target, copy: nat,
                                         owner: Option<string>)
    returns (run: seq<Action>)
    requires Valid(s) && s.phase == Changing && id in s.uploads.flights
    requires s.uploads.flights[id].key == f.fold(Uploads.Candidate(t, copy))
    requires s.uploads.flights[id].key !in s.uploads.inventory
    requires forall k | 1 <= k < copy :: f.fold(Uploads.Candidate(t, k)) in s.uploads.inventory
    ensures ClearsOnce(run) && Collides(f, s, run)
  {
    Uploads.EarlyResetCollides(f, s.uploads, id, t, copy);
    StepKeepsValid(f, s, Clear(owner));
    run := ReopenedCollides(f, Step(f, s, Clear(owner)), id, t, copy);
    CollidesFirst(f, s, Clear(owner), run);
    ClearsFirst(Clear(owner), run);
    run := [Clear(owner)] + run;
  }

  function Names(f: Uploads.Folding, t: Uploads.Target, copy: nat): set<string> {
    set k | 1 <= k < copy :: f.fold(Uploads.Candidate(t, k))
  }

  lemma {:induction false} OperationCollides(f: Uploads.Folding, s: State, op: nat, t: Uploads.Target,
                                             owner: Option<string>)
    returns (run: seq<Action>)
    requires Uploads.KeepsNumbers(f) && Valid(s) && s.phase == Changing
    requires op in s.uploading && op !in s.scope.outcomes
    ensures ClearsOnce(run) && Collides(f, s, run)
  {
    var copy := OperationUploads(f, s, op, t);
    var flying := Step(f, s, Upload(op, t, copy));
    StepKeepsValid(f, s, Upload(op, t, copy));
    var paths := Names(f, t, copy);
    StepKeepsValid(f, flying, Inventory(paths));
    run := ClearCollides(f, Step(f, flying, Inventory(paths)), s.uploads.next, t, copy, owner);
    run := OnceFirst(f, flying, Inventory(paths), run);
    run := OnceFirst(f, s, Upload(op, t, copy), run);
  }

  /** From every unsafe state between drain and clearing, for a file of any name: a run that
      ends with two uploads in flight on one path. */
  lemma {:induction false} UnsafeCollides(f: Uploads.Folding, s: State, t: Uploads.Target, owner: Option<string>)
    returns (run: seq<Action>)
    requires Uploads.KeepsNumbers(f) && Valid(s) && s.phase == Changing && !Safe(s)
    ensures ClearsOnce(run) && Collides(f, s, run)
  {
    if !s.scope.frozen {
      AcceptOpens(f, s);
      run := OperationCollides(f, Step(f, s, Accept), |s.scope.tokens|, t, owner);
      run := OnceFirst(f, s, Accept, run);
    } else {
      var op :| op in s.uploading && op !in s.scope.outcomes;
      run := OperationCollides(f, s, op, t, owner);
    }
  }

  /** The exact condition for uploads to stay apart across a clearing: no run that clears the
      workspace once from here leads to two uploads on one path, if and only if it is safe. */
  lemma {:induction false} ApartIffSafe(f: Uploads.Folding, s: State)
    requires Uploads.KeepsNumbers(f) && Valid(s) && s.phase == Changing
    ensures Safe(s) <==> !exists run :: ClearsOnce(run) && Collides(f, s, run)
  {
    if Safe(s) {
      forall run | ClearsOnce(run) ensures !Collides(f, s, run) { SafeDoesNotCollide(f, s, run); }
    } else {
      var run := UnsafeCollides(f, s, Uploads.Target("", "", "", ""), None);
    }
  }

  // ---- Transitions and leave dialogs ----

  /** Before its drain has ended a transition is frozen, and between drain and clearing it is
      safe. */
  predicate PhaseSafe(s: State) {
    && (s.phase == Saving || s.phase == Draining ==> s.scope.frozen)
    && (s.phase == Changing ==> Safe(s))
  }

  /** The freeze is lifted from outside only while no transition is under way. */
  predicate UnfreezesAtRest(f: Uploads.Folding, s: State, run: seq<Action>)
    requires LegalRun(f, s, run)
    decreases |run|
  {
    run == [] || ((run[0].Unfreeze? ==> s.phase == Settled) && UnfreezesAtRest(f, Step(f, s, run[0]), run[1..]))
  }

  lemma {:induction false} AllSettledIsSafe(s: State, scope: Scope)
    requires Held(s) && MutationScope.Valid(scope) && scope.tokens == s.scope.tokens && scope.pending == []
    ensures forall op | op in s.uploading :: op in scope.outcomes
  {}

  lemma {:induction false} DrainKeepsPhaseSafe(f: Uploads.Folding, s: State, a: Action)
    requires Valid(s) && Enabled(f, s, a) && PhaseSafe(s) && (a.Drain? || a.Turn?)
    ensures PhaseSafe(Step(f, s, a))
  {
    var e := if a.Drain? then DrainStart else DrainTurn;
    MutationScope.StepKeepsValid(s.scope, e);
    var scope := MutationScope.Step(s.scope, e);
    if scope.pending == [] { AllSettledIsSafe(s, scope); }
  }

  lemma {:induction false} StepKeepsPhaseSafe(f: Uploads.Folding, s: State, a: Action)
    requires Valid(s) && Enabled(f, s, a) && PhaseSafe(s) && (a.Unfreeze? ==> s.phase == Settled)
    ensures PhaseSafe(Step(f, s, a))
  {
    if a.Drain? || a.Turn? { DrainKeepsPhaseSafe(f, s, a); }
  }

  /** Freezing and draining make the clearing safe, as long as nothing else lifts the freeze
      of a transition under way. */
  lemma {:induction false} TransitionsClearSafely(f: Uploads.Folding, s: State, run: seq<Action>)
    requires Valid(s) && PhaseSafe(s) && LegalRun(f, s, run) && UnfreezesAtRest(f, s, run)
    ensures ClearsSafely(f, s, run)
    decreases |run|
  {
    if run != [] {
      StepKeepsValid(f, s, run[0]);
      StepKeepsPhaseSafe(f, s, run[0]);
      TransitionsClearSafely(f, Step(f, s, run[0]), run[1..]);
    }
  }

  /** Where no leave dialog takes part, the scope is frozen exactly while a transition is under
      way: one that is over, or whose drain failed, accepts work again. */
  lemma {:induction false} FrozenExactlyDuring(f: Uploads.Folding, s: State, run: seq<Action>)
    requires LegalRun(f, s, run) && (forall i | 0 <= i < |run| :: !run[i].Freeze? && !run[i].Unfreeze?)
    requires s.scope.frozen <==> s.phase != Settled
    ensures Run(f, s, run).scope.frozen <==> Run(f, s, run).phase != Settled
    decreases |run|
  {
    if run != [] {
      assert !run[0].Freeze? && !run[0].Unfreeze?;
      FrozenExactlyDuring(f, Step(f, s, run[0]), run[1..]);
    }
  }

  function Clearings(run: seq<Action>): nat {
    if run == [] then 0 else (if run[0].Clear? then 1 else 0) + Clearings(run[1..])
  }

  lemma {:induction false} EpochCountsClearings(f: Uploads.Folding, s: State, run: seq<Action>)
    requires LegalRun(f, s, run)
    ensures Run(f, s, run).scope.epoch == s.scope.epoch + Clearings(run)
    ensures Clearings(run) == 0 ==> Run(f, s, run).scope.owner == s.scope.owner
    decreases |run|
  {
    if run != [] { EpochCountsClearings(f, Step(f, s, run[0]), run[1..]); }
  }

  /** Work begun before a clearing, and only such work, can no longer publish its result, even
      if the same collection is opened again. */
  lemma {:induction false} ClearingMakesStale(f: Uploads.Folding, s: State, run: seq<Action>)
    requires LegalRun(f, s, run)
    ensures Owns(Run(f, s, run).scope, TokenOf(s.scope)) <==> forall i | 0 <= i < |run| :: !run[i].Clear?
  {
    EpochCountsClearings(f, s, run);
    ClearingsCounted(run);
  }

  lemma {:induction false} ClearingsCounted(run: seq<Action>)
    ensures Clearings(run) == 0 <==> forall i | 0 <= i < |run| :: !run[i].Clear?
  {
    if run != [] {
      ClearingsCounted(run[1..]);
      assert forall i | 0 < i < |run| :: run[i] == run[1..][i - 1];
      assert forall i | 0 <= i < |run[1..]| :: run[1..][i] == run[i + 1];
    }
  }

  // ---- A run of both is a run of each ----

  /** What an action is for the scope. */
  function ScopeEvents(s: State, a: Action): seq<Event> {
    match a
    case Accept => [Register(TokenOf(s.scope))]
    case Work(token) => [Register(token)]
    case Settle(e) => [e]
    case Freeze => [Event.Freeze]
    case Unfreeze => [Event.Unfreeze]
    case Begin => [Event.Freeze]
    case Drain => [DrainStart]
    case Turn => [DrainTurn] + (if DrainFails(s.scope) then [Event.Unfreeze] else [])
    case Clear(owner) => [ChangeOwner(owner)]
    case Reopen => [Event.Unfreeze]
    case _ => []
  }

  predicate DrainFails(scope: Scope) {
    MutationScope.Enabled(scope, DrainTurn) && MutationScope.Step(scope, DrainTurn).drain.Threw?
  }

  /** What an action is for the uploader. */
  function UploadEvents(a: Action): seq<Uploads.Event> {
    match a
    case Upload(_, target, copy) => [Uploads.Begin(target, copy)]
    case Land(id, current) => [Uploads.Finish(id, current)]
    case Fail(id) => [Uploads.Event.Fail(id)]
    case Inventory(paths) => [Uploads.Refresh(paths)]
    case Clear(_) => [Uploads.Reset]
    case _ => []
  }

  function ScopeTrace(f: Uploads.Folding, s: State, run: seq<Action>): seq<Event>
    requires LegalRun(f, s, run)
    decreases |run|
  {
    if run == [] then [] else ScopeEvents(s, run[0]) + ScopeTrace(f, Step(f, s, run[0]), run[1..])
  }

  function UploadTrace(run: seq<Action>): seq<Uploads.Event> {
    if run == [] then [] else UploadEvents(run[0]) + UploadTrace(run[1..])
  }

  lemma {:induction false} OneEvent(s: Scope, e: Event)
    requires MutationScope.Enabled(s, e)
    ensures LeadsTo(s, [e], MutationScope.Step(s, e))
  {
    assert [e][1..] == [];
  }

  lemma {:induction false} LeadsOn(s: Scope, first: seq<Event>, t: Scope, second: seq<Event>, u: Scope)
    requires LeadsTo(s, first, t) && LeadsTo(t, second, u)
    ensures LeadsTo(s, first + second, u)
    decreases |first|
  {
    if first == [] {
      assert first + second == second;
    } else {
      LeadsOn(MutationScope.Step(s, first[0]), first[1..], t, second, u);
      assert (first + second)[1..] == first[1..] + second;
    }
  }

  lemma {:induction false} ScopeMoves(f: Uploads.Folding, s: State, a: Action)
    requires Enabled(f, s, a)
    ensures LeadsTo(s.scope, ScopeEvents(s, a), Step(f, s, a).scope)
  {
    var events := ScopeEvents(s, a);
    if events != [] {
      OneEvent(s.scope, events[0]);
      if |events| == 2 {
        var turned := MutationScope.Step(s.scope, DrainTurn);
        OneEvent(turned, Event.Unfreeze);
        LeadsOn(s.scope, [DrainTurn], turned, [Event.Unfreeze], turned.(frozen := false));
      } else {
        assert events == [events[0]];
      }
    }
  }

  /** Every run is a run of the scope, so all that holds of the scope's runs holds here. */
  lemma {:induction false} ScopeRuns(f: Uploads.Folding, s: State, run: seq<Action>)
    requires LegalRun(f, s, run)
    ensures LeadsTo(s.scope, ScopeTrace(f, s, run), Run(f, s, run).scope)
    decreases |run|
  {
    if run != [] {
      var t := Step(f, s, run[0]);
      ScopeMoves(f, s, run[0]);
      ScopeRuns(f, t, run[1..]);
      LeadsOn(s.scope, ScopeEvents(s, run[0]), t.scope, ScopeTrace(f, t, run[1..]), Run(f, s, run).scope);
    }
  }

  lemma {:induction false} UploaderMoves(f: Uploads.Folding, s: State, a: Action)
    requires Valid(s) && Enabled(f, s, a) && (a.Clear? ==> Safe(s))
    ensures UploadEvents(a) == [] ==> Step(f, s, a).uploads == s.uploads
    ensures UploadEvents(a) != [] ==>
              && UploadEvents(a) == [UploadEvents(a)[0]]
              && Uploads.Enabled(f, s.uploads, UploadEvents(a)[0])
              && Step(f, s, a).uploads == Uploads.Step(f, s.uploads, UploadEvents(a)[0])
  {
    if a.Clear? { SafeHasNoFlight(s); }
  }

  lemma {:induction false} UploaderGoesOn(f: Uploads.Folding, u: Uploads.Uploads, e: Uploads.Event,
                                          rest: seq<Uploads.Event>)
    requires Uploads.Valid(u) && Uploads.Enabled(f, u, e) && Uploads.Valid(Uploads.Step(f, u, e))
    requires Uploads.LegalRun(f, Uploads.Step(f, u, e), rest)
    ensures Uploads.LegalRun(f, u, [e] + rest)
    ensures Uploads.Run(f, u, [e] + rest) == Uploads.Run(f, Uploads.Step(f, u, e), rest)
  {
    assert ([e] + rest)[0] == e && ([e] + rest)[1..] == rest;
  }

  /** And a run of the uploader, if the workspace is cleared only in safe states. */
  lemma {:induction false} UploaderRuns(f: Uploads.Folding, s: State, run: seq<Action>)
    requires Valid(s) && LegalRun(f, s, run) && ClearsSafely(f, s, run)
    ensures Uploads.LegalRun(f, s.uploads, UploadTrace(run))
    ensures Uploads.Run(f, s.uploads, UploadTrace(run)) == Run(f, s, run).uploads
    decreases |run|
  {
    if run != [] {
      var t := Step(f, s, run[0]);
      StepKeepsValid(f, s, run[0]);
      UploaderRuns(f, t, run[1..]);
      UploaderMoves(f, s, run[0]);
      var events, rest := UploadEvents(run[0]), UploadTrace(run[1..]);
      if events == [] {
        assert events + rest == rest;
      } else {
        UploaderGoesOn(f, s.uploads, events[0], rest);
      }
    }
  }

  predicate Leads(f: Uploads.Folding, s: State, a: Action, t: State) {
    Enabled(f, s, a) && Step(f, s, a) == t
  }

  /** Unsafe states between drain and clearing are reached, from any state at rest: a leave
      dialog that was draining when the transition began lifts the freeze when it is done. */
  lemma {:induction false} LeaveDialogUnfreezes(f: Uploads.Folding, s: State)
    requires Valid(s) && s.phase == Settled && s.scope.pending == []
    ensures var frozen := s.(scope := s.scope.(frozen := true));
            var begun := frozen.(phase := Saving);
            var drained := begun.(scope := frozen.scope.(drain := Returned([], 0)), phase := Changing);
            var lifted := drained.(scope := drained.scope.(frozen := false));
            && Leads(f, s, Action.Freeze, frozen) && Leads(f, frozen, Begin, begun)
            && Leads(f, begun, Drain, drained) && Leads(f, drained, Action.Unfreeze, lifted)
            && lifted.phase == Changing && !Safe(lifted)
  {}
}
