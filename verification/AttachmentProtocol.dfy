/** Paste and drop uploads as a transition system: every order in which the writer edits,
files are dropped, and uploads start, arrive, fail, are retried or are discarded. */
module AttachmentProtocol {
  import opened ChangeSets
  import opened Options
  import opened PendingAttachments

  /** The view's document and job list, the plugin's own fields, and (for the statements
      only) the ids whose reference was inserted, oldest first. */
  datatype State = State(
    doc: seq<Cell>,
    jobs: seq<Job>,
    sequence: nat,
    destroyed: bool,
    enabled: bool,
    inserted: seq<nat>)

  datatype Action =
    | Edit(changes: Changes)                     // any transaction of the writer
    | Drop(files: seq<string>, position: nat)    // paste or drop
    | Begin(id: nat)                             // a run starts: first try or retry
    | Arrive(id: nat, reference: string)         // an upload of this job resolved
    | Fail(id: nat, message: string)             // an upload of this job rejected
    | Discard(id: nat)                           // the Remove button
    | SetEnabled(on: bool)                       // read-only state or missing uploader
    | Close                                      // the view is destroyed

  function Text(cells: seq<Cell>): (t: string)
    ensures |t| == |cells| && forall i | 0 <= i < |t| :: t[i] == cells[i].ch
  {
    seq(|cells|, i requires 0 <= i < |cells| => cells[i].ch)
  }

  function Cells(text: string, origin: Origin): (cells: seq<Cell>)
    ensures |cells| == |text| && forall i | 0 <= i < |text| :: cells[i] == Cell(text[i], origin)
  {
    seq(|text|, i requires 0 <= i < |text| => Cell(text[i], origin))
  }

  const GAP: string := "\n\n"

  /** The text inserted for a reference: blank lines only where the neighbouring
      character exists and is not already a line break. */
  function BlockInsertion(doc: string, from: nat, to: nat, reference: string): string
    requires from <= to <= |doc|
  {
    (if from > 0 && doc[from - 1] != '\n' then GAP else "")
    + reference
    + (if to < |doc| && doc[to] != '\n' then GAP else "")
  }

  predicate PositionsInside(jobs: seq<Job>, length: nat) {
    forall i | 0 <= i < |jobs| :: jobs[i].position <= length
  }

  function Dispatch(s: State, cs: Changes, effects: seq<Effect>): State
    requires OldLength(cs) == |s.doc| && PositionsInside(s.jobs, |s.doc|)
  {
    s.(doc := Apply(s.doc, cs), jobs := Update(s.jobs, cs, effects))
  }

  /** A transaction with effects only. */
  function Announce(s: State, effects: seq<Effect>): State
    requires PositionsInside(s.jobs, |s.doc|)
  {
    assert OldLength<Cell>(Unchanged(|s.doc|)) == |s.doc| by { UnchangedEffect(s.doc, 0, 1); }
    Dispatch(s, Unchanged(|s.doc|), effects)
  }

  function NewJobs(files: seq<string>, position: nat, sequence: nat): seq<Effect> {
    if files == [] then []
    else [Change(Job(sequence + 1, position, files[0], None))] + NewJobs(files[1..], position, sequence + 1)
  }

  function Inserted(s: State, job: Job, reference: string): (cells: seq<Cell>)
    requires job.position <= |s.doc|
    ensures Text(cells) == BlockInsertion(Text(s.doc), job.position, job.position, reference)
    ensures forall i | 0 <= i < |cells| :: cells[i].origin == Upload(job.id)
  {
    Cells(BlockInsertion(Text(s.doc), job.position, job.position, reference), Upload(job.id))
  }

  /** What the writer's transactions contain, and where files can be dropped. */
  predicate Legal(s: State, a: Action) {
    match a
    case Edit(cs) => OldLength(cs) == |s.doc| && AllInserted(cs, (c: Cell) => c.origin == Writer)
    case Drop(_, position) => position <= |s.doc|
    case _ => true
  }

  function Step(s: State, a: Action): State
    requires PositionsInside(s.jobs, |s.doc|) && Legal(s, a)
  {
    match a
    case Edit(cs) => Dispatch(s, cs, [])
    case Drop(files, position) =>
      if s.destroyed || !s.enabled || files == [] then s
      else Announce(s, NewJobs(files, position, s.sequence)).(sequence := s.sequence + |files|)
    case Begin(id) =>
      var job := Find(s.jobs, id);
      if s.destroyed || !s.enabled || job.None? then s
      else Announce(s, [Change(job.value.(error := None))])
    case Arrive(id, reference) =>
      var job := Find(s.jobs, id);
      if s.destroyed || job.None? then s
      else if !s.enabled then Announce(s, [Change(job.value.(error := Some(NotEditable)))])
      else Insert(s, job.value, reference)
    case Fail(id, message) =>
      var job := Find(s.jobs, id);
      if s.destroyed || job.None? then s
      else Announce(s, [Change(job.value.(error := Some(Transfer(message))))])
    case Discard(id) =>
      if s.destroyed || !s.enabled then s else Announce(s, [Remove(id)])
    case SetEnabled(on) => s.(enabled := on)
    case Close => s.(destroyed := true)
  }

  function Insert(s: State, job: Job, reference: string): State
    requires PositionsInside(s.jobs, |s.doc|) && job.position <= |s.doc|
  {
    var text := Inserted(s, job, reference);
    assert OldLength(Insertion(|s.doc|, job.position, text)) == |s.doc| by {
      InsertionEffect(s.doc, job.position, text, 0, 1);
    }
    Dispatch(s, Insertion(|s.doc|, job.position, text), [Remove(job.id)]).(inserted := s.inserted + [job.id])
  }

  /** Whether the action is an arrival that reaches the document. */
  predicate Lands(s: State, a: Action) {
    a.Arrive? && !s.destroyed && s.enabled && Find(s.jobs, a.id).Some?
  }

  // ---- The reachable states ----

  ghost predicate Valid(s: State) {
    JobsSound(s) && LogSound(s)
  }

  /** Pending jobs have different ids that were given out, anchors inside the document, and
      have inserted nothing. */
  ghost predicate JobsSound(s: State) {
    && DistinctIds(s.jobs)
    && (forall i | 0 <= i < |s.jobs| ::
          1 <= s.jobs[i].id <= s.sequence && s.jobs[i].position <= |s.doc| && s.jobs[i].id !in s.inserted)
  }

  /** No job inserted twice, and uploaded text comes from jobs that did. */
  ghost predicate LogSound(s: State) {
    && (forall i | 0 <= i < |s.inserted| :: 1 <= s.inserted[i] <= s.sequence)
    && (forall i, j | 0 <= i < j < |s.inserted| :: s.inserted[i] != s.inserted[j])
    && (forall i | 0 <= i < |s.doc| && s.doc[i].origin.Upload? :: s.doc[i].origin.id in s.inserted)
  }

  /** A document with no uploads yet. */
  function Opened(text: string): (s: State)
    ensures Valid(s) && Text(s.doc) == text && s.jobs == [] && !s.destroyed && s.enabled
  {
    State(Cells(text, Writer), [], 0, false, true, [])
  }

  // ---- The job list as a map ----

  /** What becomes of the anchor of job `k`, told without lists, sections or sides: an
      arrival of job `i` moves exactly the anchors behind it, two anchors at the same
      place being ordered by id. */
  function AnchorAfter(s: State, a: Action, k: nat): Option<Job>
    requires PositionsInside(s.jobs, |s.doc|) && Legal(s, a)
  {
    var before := Find(s.jobs, k);
    match a
    case Edit(cs) =>
      if before.None? || Touched(cs, before.value.position) then None
      else Some(before.value.(position := MapPos(cs, before.value.position, 1)))
    case Drop(files, position) =>
      if !s.destroyed && s.enabled && s.sequence < k <= s.sequence + |files| then
        Some(Job(k, position, files[k - s.sequence - 1], None))
      else before
    case Begin(id) =>
      if k == id && before.Some? && !s.destroyed && s.enabled then Some(before.value.(error := None)) else before
    case Arrive(id, reference) =>
      if Lands(s, a) then
        var arrived := Find(s.jobs, id).value;
        if k == id || before.None? then None
        else if Ahead(before.value, arrived) then before
        else Some(before.value.(position := before.value.position + |Inserted(s, arrived, reference)|))
      else if k == id && before.Some? && !s.destroyed then Some(before.value.(error := Some(NotEditable)))
      else before
    case Fail(id, message) =>
      if k == id && before.Some? && !s.destroyed then Some(before.value.(error := Some(Transfer(message)))) else before
    case Discard(id) => if k == id && !s.destroyed && s.enabled then None else before
    case SetEnabled(_) => before
    case Close => before
  }

  /** The order of two anchors in the document. */
  predicate Ahead(a: Job, b: Job) {
    a.position < b.position || (a.position == b.position && a.id < b.id)
  }

  lemma {:induction false} FindPosition(s: State, k: nat)
    requires Valid(s) && Find(s.jobs, k).Some?
    ensures Find(s.jobs, k).value.position <= |s.doc| && 1 <= k <= s.sequence && k !in s.inserted
  {}

  lemma {:induction false} MovedUnchanged(s: State, jobs: seq<Job>, completed: Option<nat>)
    requires PositionsInside(jobs, |s.doc|) && OldLength<Cell>(Unchanged(|s.doc|)) == |s.doc|
    ensures Moved(jobs, Unchanged(|s.doc|), completed) == jobs
  {
    if jobs != [] {
      MovedUnchanged(s, jobs[1..], completed);
      UnchangedEffect(s.doc, jobs[0].position, Side(jobs[0].id, completed));
    }
  }

  lemma {:induction false} AnnounceEffect(s: State, effects: seq<Effect>)
    requires PositionsInside(s.jobs, |s.doc|)
    ensures Announce(s, effects) == s.(jobs := PerformAll(s.jobs, effects))
  {
    UnchangedEffect(s.doc, 0, 1);
    MovedUnchanged(s, s.jobs, Completed(effects));
  }

  lemma {:induction false} AnnounceOne(s: State, effect: Effect, k: nat)
    requires PositionsInside(s.jobs, |s.doc|)
    ensures Announce(s, [effect]) == s.(jobs := Perform(s.jobs, effect))
    ensures Find(Announce(s, [effect]).jobs, k) ==
            match effect
            case Remove(id) => if k == id then None else Find(s.jobs, k)
            case Change(job) => if k == job.id then Some(job) else Find(s.jobs, k)
  {
    AnnounceEffect(s, [effect]);
    assert [effect][1..] == [];
    assert PerformAll(Perform(s.jobs, effect), []) == Perform(s.jobs, effect);
    FindPerform(s.jobs, effect, k);
  }

  lemma {:induction false} NewJobsFirst(files: seq<string>, position: nat, sequence: nat)
    requires files != []
    ensures NewJobs(files, position, sequence) != []
    ensures NewJobs(files, position, sequence)[0] == Change(Job(sequence + 1, position, files[0], None))
    ensures NewJobs(files, position, sequence)[1..] == NewJobs(files[1..], position, sequence + 1)
  {}

  lemma {:induction false} FindNewJobs(jobs: seq<Job>, files: seq<string>, position: nat, sequence: nat, k: nat)
    ensures Find(PerformAll(jobs, NewJobs(files, position, sequence)), k) ==
            if sequence < k <= sequence + |files| then Some(Job(k, position, files[k - sequence - 1], None))
            else Find(jobs, k)
    decreases |files|
  {
    if files != [] {
      var first := Change(Job(sequence + 1, position, files[0], None));
      NewJobsFirst(files, position, sequence);
      FindNewJobs(Perform(jobs, first), files[1..], position, sequence + 1, k);
      FindPerform(jobs, first, k);
    }
  }

  lemma {:induction false} FindInsert(s: State, job: Job, reference: string, k: nat)
    requires Valid(s) && Find(s.jobs, job.id) == Some(job)
    ensures job.position <= |s.doc|
    ensures Insert(s, job, reference).doc == s.doc[..job.position] + Inserted(s, job, reference) + s.doc[job.position..]
    ensures Find(Insert(s, job, reference).jobs, k) ==
            var before := Find(s.jobs, k);
            if k == job.id || before.None? then None
            else if Ahead(before.value, job) then before
            else Some(before.value.(position := before.value.position + |Inserted(s, job, reference)|))
  {
    FindPosition(s, job.id);
    var text := Inserted(s, job, reference);
    InsertionEffect(s.doc, job.position, text, 0, 1);
    FindShifted(s, job, text, k);
  }

  lemma {:induction false} FindShifted(s: State, job: Job, text: seq<Cell>, k: nat)
    requires Valid(s) && job.position <= |s.doc| && OldLength(Insertion(|s.doc|, job.position, text)) == |s.doc|
    ensures var before := Find(s.jobs, k);
            Find(Update(s.jobs, Insertion(|s.doc|, job.position, text), [Remove(job.id)]), k) ==
            if k == job.id || before.None? then None
            else if Ahead(before.value, job) then before
            else Some(before.value.(position := before.value.position + |text|))
  {
    FindCompleted(s.jobs, Insertion(|s.doc|, job.position, text), job.id, k);
    if Find(s.jobs, k).Some? {
      FindPosition(s, k);
      InsertionEffect(s.doc, job.position, text, Find(s.jobs, k).value.position, Side(k, Some(job.id)));
    }
  }

  lemma {:induction false} FindCompleted(jobs: seq<Job>, cs: Changes, id: nat, k: nat)
    requires forall i | 0 <= i < |jobs| :: jobs[i].position <= OldLength(cs)
    requires DistinctIds(jobs)
    ensures var before := Find(jobs, k);
            Find(Update(jobs, cs, [Remove(id)]), k) ==
            if k == id || before.None? || Touched(cs, before.value.position) then None
            else Some(before.value.(position := MapPos(cs, before.value.position, Side(k, Some(id)))))
  {
    var moved := Moved(jobs, cs, Some(id));
    var effects := [Remove(id)];
    assert Completed(effects) == Some(id) && effects[1..] == [];
    assert Update(jobs, cs, effects) == PerformAll(Perform(moved, effects[0]), []) == Perform(moved, effects[0]);
    FindPerform(moved, effects[0], k);
    FindMoved(jobs, cs, Some(id), k);
  }

  lemma {:induction false} FindArrived(s: State, a: Action, k: nat)
    requires Valid(s) && Legal(s, a) && a.Arrive?
    ensures Find(Step(s, a).jobs, k) == AnchorAfter(s, a, k)
  {
    var job := Find(s.jobs, a.id);
    if Lands(s, a) {
      FindInsert(s, job.value, a.reference, k);
    } else if job.Some? {
      AnnounceOne(s, Change(job.value.(error := Some(NotEditable))), k);
    }
  }

  lemma {:induction false} FindDropped(s: State, a: Action, k: nat)
    requires Valid(s) && Legal(s, a) && a.Drop?
    ensures Find(Step(s, a).jobs, k) == AnchorAfter(s, a, k)
  {
    AnnounceEffect(s, NewJobs(a.files, a.position, s.sequence));
    FindNewJobs(s.jobs, a.files, a.position, s.sequence, k);
  }

  /** The list with its filters, pushes and mapped positions refines the map of
      `AnchorAfter`. */
  lemma {:induction false} FindAfter(s: State, a: Action, k: nat)
    requires Valid(s) && Legal(s, a)
    ensures Find(Step(s, a).jobs, k) == AnchorAfter(s, a, k)
  {
    match a
    case Edit(cs) => FindMoved(s.jobs, cs, None, k);
    case Drop(_, _) => FindDropped(s, a, k);
    case Arrive(_, _) => FindArrived(s, a, k);
    case Begin(id) =>
      var job := Find(s.jobs, id);
      if job.Some? { AnnounceOne(s, Change(job.value.(error := None)), k); }
    case Fail(id, message) =>
      var job := Find(s.jobs, id);
      if job.Some? { AnnounceOne(s, Change(job.value.(error := Some(Transfer(message)))), k); }
    case Discard(id) => AnnounceOne(s, Remove(id), k);
    case SetEnabled(_) =>
    case Close =>
  }

  // ---- Every step keeps the states valid ----

  /** An edit drops a pending job exactly when it deletes or replaces a stretch that the anchor
      is in or borders on. Any other job stays as it is, before the same cell or at the end. */
  lemma {:induction false} EditDropsExactly(s: State, cs: Changes, k: nat)
    requires Valid(s) && Legal(s, Edit(cs)) && Find(s.jobs, k).Some?
    ensures var p := Find(s.jobs, k).value.position;
            Find(Step(s, Edit(cs)).jobs, k).None? <==>
            exists i :: && 0 <= i < |cs| && cs[i].Replace? && cs[i].len > 0
                        && OldLength(cs[..i]) <= p <= OldLength(cs[..i]) + cs[i].len
    ensures var job, t := Find(s.jobs, k).value, Step(s, Edit(cs));
            var job' := Find(t.jobs, k);
            job'.Some? ==>
              && job'.value == job.(position := job'.value.position) && job'.value.position <= |t.doc|
              && (job.position < |s.doc| ==>
                    job'.value.position < |t.doc| && t.doc[job'.value.position] == s.doc[job.position])
              && (job.position == |s.doc| ==> job'.value.position == |t.doc|)
  {
    var job := Find(s.jobs, k).value;
    FindPosition(s, k);
    FindAfter(s, Edit(cs), k);
    TouchedMeans(cs, job.position);
    if !Touched(cs, job.position) {
      MapPosKeepsNeighbours(s.doc, cs, job.position, 1);
      if job.position == |s.doc| { RightEdge(s.doc, cs, 1); }
    }
  }

  lemma {:induction false} DistinctAfter(s: State, a: Action)
    requires Valid(s) && Legal(s, a)
    ensures DistinctIds(Step(s, a).jobs)
  {
    match a
    case Edit(cs) => MovedIds(s.jobs, cs, None);
    case Drop(files, position) =>
      AnnounceEffect(s, NewJobs(files, position, s.sequence));
      PerformAllIds(s.jobs, NewJobs(files, position, s.sequence));
    case Arrive(id, reference) =>
      if Lands(s, a) {
        var job := Find(s.jobs, id).value;
        var text := Inserted(s, job, reference);
        InsertionEffect(s.doc, job.position, text, 0, 1);
        MovedIds(s.jobs, Insertion(|s.doc|, job.position, text), Some(id));
        PerformAllIds(Moved(s.jobs, Insertion(|s.doc|, job.position, text), Some(id)), [Remove(id)]);
      } else if Find(s.jobs, id).Some? {
        PerformIds(s.jobs, Change(Find(s.jobs, id).value.(error := Some(NotEditable))));
        AnnounceOne(s, Change(Find(s.jobs, id).value.(error := Some(NotEditable))), 0);
      }
    case Begin(id) =>
      if Find(s.jobs, id).Some? {
        PerformIds(s.jobs, Change(Find(s.jobs, id).value.(error := None)));
        AnnounceOne(s, Change(Find(s.jobs, id).value.(error := None)), 0);
      }
    case Fail(id, message) =>
      if Find(s.jobs, id).Some? {
        PerformIds(s.jobs, Change(Find(s.jobs, id).value.(error := Some(Transfer(message)))));
        AnnounceOne(s, Change(Find(s.jobs, id).value.(error := Some(Transfer(message)))), 0);
      }
    case Discard(id) =>
      PerformIds(s.jobs, Remove(id));
      AnnounceOne(s, Remove(id), 0);
    case SetEnabled(_) =>
    case Close =>
  }

  /** The document, the log and the counter after a step. */
  lemma {:induction false} DocumentAfter(s: State, a: Action)
    requires Valid(s) && Legal(s, a)
    ensures var t := Step(s, a);
            && s.sequence <= t.sequence
            && (!Lands(s, a) ==> t.inserted == s.inserted)
            && (!Lands(s, a) && !a.Edit? ==> t.doc == s.doc)
            && (a.Edit? ==> t.doc == Apply(s.doc, a.changes))
            && (Lands(s, a) ==>
                  var job := Find(s.jobs, a.id).value;
                  && job.position <= |s.doc|
                  && t.inserted == s.inserted + [a.id]
                  && t.doc == s.doc[..job.position] + Inserted(s, job, a.reference) + s.doc[job.position..])
  {
    match a
    case Edit(cs) =>
    case Drop(files, position) => AnnounceEffect(s, NewJobs(files, position, s.sequence));
    case Arrive(id, reference) =>
      if Lands(s, a) {
        FindInsert(s, Find(s.jobs, id).value, reference, 0);
      } else if Find(s.jobs, id).Some? {
        AnnounceOne(s, Change(Find(s.jobs, id).value.(error := Some(NotEditable))), 0);
      }
    case Begin(id) =>
      if Find(s.jobs, id).Some? { AnnounceOne(s, Change(Find(s.jobs, id).value.(error := None)), 0); }
    case Fail(id, message) =>
      if Find(s.jobs, id).Some? {
        AnnounceOne(s, Change(Find(s.jobs, id).value.(error := Some(Transfer(message)))), 0);
      }
    case Discard(id) => AnnounceOne(s, Remove(id), 0);
    case SetEnabled(_) =>
    case Close =>
  }

  /** A pending job was pending before under the same id, or is new. */
  lemma {:induction false} PendingAfter(s: State, a: Action, k: nat)
    requires Valid(s) && Legal(s, a) && Find(Step(s, a).jobs, k).Some?
    ensures Find(s.jobs, k).Some? || s.sequence < k
    ensures 1 <= k <= Step(s, a).sequence
    ensures Find(Step(s, a).jobs, k).value.position <= |Step(s, a).doc|
    ensures k !in Step(s, a).inserted
  {
    FindAfter(s, a, k);
    DocumentAfter(s, a);
    if Find(s.jobs, k).Some? {
      FindPosition(s, k);
      if a.Edit? && !Touched(a.changes, Find(s.jobs, k).value.position) {
        MapPosInDocument(s.doc, a.changes, Find(s.jobs, k).value.position, 1);
      }
    }
  }

  lemma {:induction false} OriginsAfter(s: State, a: Action)
    requires Valid(s) && Legal(s, a)
    ensures All(Step(s, a).doc, (c: Cell) => c.origin.Upload? ==> c.origin.id in Step(s, a).inserted)
  {
    DocumentAfter(s, a);
    var t := Step(s, a);
    var P := (c: Cell) => c.origin.Upload? ==> c.origin.id in t.inserted;
    if a.Edit? {
      assert AllInserted(a.changes, P) by {
        forall i | 0 <= i < |a.changes| && a.changes[i].Replace? ensures All(a.changes[i].inserted, P) {
          assert All(a.changes[i].inserted, (c: Cell) => c.origin == Writer);
        }
      }
      ApplyKeepsAll(s.doc, a.changes, P);
    }
  }

  /** Every step leads from valid states to valid states: anchors stay inside the
      document, ids are never reused, nothing is inserted twice. */
  lemma {:induction false} StepKeepsValid(s: State, a: Action)
    requires Valid(s) && Legal(s, a)
    ensures Valid(Step(s, a))
  {
    var t := Step(s, a);
    DistinctAfter(s, a);
    DocumentAfter(s, a);
    forall i | 0 <= i < |t.jobs|
      ensures 1 <= t.jobs[i].id <= t.sequence && t.jobs[i].position <= |t.doc| && t.jobs[i].id !in t.inserted
    {
      FindMember(t.jobs, i);
      PendingAfter(s, a, t.jobs[i].id);
    }
    if Lands(s, a) {
      FindPosition(s, a.id);
    }
    OriginsAfter(s, a);
  }

  lemma {:induction false} FindMember(jobs: seq<Job>, i: nat)
    requires DistinctIds(jobs) && i < |jobs|
    ensures Find(jobs, jobs[i].id) == Some(jobs[i])
  {
    if i > 0 {
      FindMember(jobs[1..], i - 1);
    }
  }
}
