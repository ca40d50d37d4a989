/** The editor's `pendingAttachments` field: a list of anchored upload jobs that every
transaction filters, maps and then edits by its effects. */
module PendingAttachments {
  import opened ChangeSets
  import opened Options

  /** Who put a character into the document: the writer, or the upload with this id.
      Provenance is only looked at by the statements about text order. */
  datatype Origin = Writer | Upload(id: nat)

  datatype Cell = Cell(ch: char, origin: Origin)

  datatype Failure = NotEditable | Transfer(message: string)

  datatype Job = Job(id: nat, position: nat, file: string, error: Option<Failure>)

  datatype Effect = Change(job: Job) | Remove(id: nat)

  type Changes = seq<Section<Cell>>

  // ---- The field's update ----

  /** The id named by the first removal effect of the transaction. */
  function Completed(effects: seq<Effect>): Option<nat> {
    if effects == [] then None
    else if effects[0].Remove? then Some(effects[0].id)
    else Completed(effects[1..])
  }

  function Side(id: nat, completed: Option<nat>): int {
    if completed.Some? && id < completed.value then -1 else 1
  }

  /** Drop the jobs whose anchor a deletion reaches and move the others. */
  function Moved(jobs: seq<Job>, cs: Changes, completed: Option<nat>): seq<Job>
    requires forall i | 0 <= i < |jobs| :: jobs[i].position <= OldLength(cs)
  {
    if jobs == [] then []
    else
      var rest := Moved(jobs[1..], cs, completed);
      var job := jobs[0];
      if Touched(cs, job.position) then rest
      else [job.(position := MapPos(cs, job.position, Side(job.id, completed)))] + rest
  }

  function WithoutJob(jobs: seq<Job>, id: nat): seq<Job> {
    if jobs == [] then []
    else if jobs[0].id == id then WithoutJob(jobs[1..], id)
    else [jobs[0]] + WithoutJob(jobs[1..], id)
  }

  function Perform(jobs: seq<Job>, effect: Effect): seq<Job> {
    match effect
    case Remove(id) => WithoutJob(jobs, id)
    case Change(job) => WithoutJob(jobs, job.id) + [job]
  }

  function PerformAll(jobs: seq<Job>, effects: seq<Effect>): seq<Job>
    decreases |effects|
  {
    if effects == [] then jobs else PerformAll(Perform(jobs, effects[0]), effects[1..])
  }

  /** The field value after a transaction with changes `cs` and these effects. */
  function Update(jobs: seq<Job>, cs: Changes, effects: seq<Effect>): seq<Job>
    requires forall i | 0 <= i < |jobs| :: jobs[i].position <= OldLength(cs)
  {
    PerformAll(Moved(jobs, cs, Completed(effects)), effects)
  }

  // ---- The list read as a partial map from ids to jobs ----

  function Find(jobs: seq<Job>, id: nat): (r: Option<Job>)
    ensures r.Some? ==> r.value in jobs && r.value.id == id
    ensures r.None? ==> forall i | 0 <= i < |jobs| :: jobs[i].id != id
  {
    if jobs == [] then None
    else if jobs[0].id == id then Some(jobs[0])
    else Find(jobs[1..], id)
  }

  predicate DistinctIds(jobs: seq<Job>) {
    forall i, j | 0 <= i < j < |jobs| :: jobs[i].id != jobs[j].id
  }

  lemma {:induction false} FindWithout(jobs: seq<Job>, id: nat, k: nat)
    ensures Find(WithoutJob(jobs, id), k) == if k == id then None else Find(jobs, k)
  {
    if jobs != [] {
      FindWithout(jobs[1..], id, k);
    }
  }

  lemma {:induction false} FindAppend(jobs: seq<Job>, job: Job, k: nat)
    ensures Find(jobs + [job], k) ==
            if Find(jobs, k).Some? then Find(jobs, k) else if job.id == k then Some(job) else None
  {
    if jobs != [] {
      FindAppend(jobs[1..], job, k);
      assert (jobs + [job])[1..] == jobs[1..] + [job];
    }
  }

  lemma {:induction false} FindPerform(jobs: seq<Job>, effect: Effect, k: nat)
    ensures Find(Perform(jobs, effect), k) ==
            match effect
            case Remove(id) => if k == id then None else Find(jobs, k)
            case Change(job) => if k == job.id then Some(job) else Find(jobs, k)
  {
    match effect
    case Remove(id) => FindWithout(jobs, id, k);
    case Change(job) =>
      FindWithout(jobs, job.id, k);
      FindAppend(WithoutJob(jobs, job.id), job, k);
  }

  lemma {:induction false} FindMoved(jobs: seq<Job>, cs: Changes, completed: Option<nat>, k: nat)
    requires forall i | 0 <= i < |jobs| :: jobs[i].position <= OldLength(cs)
    requires DistinctIds(jobs)
    ensures Find(Moved(jobs, cs, completed), k) ==
            match Find(jobs, k)
            case None => None
            case Some(job) =>
              if Touched(cs, job.position) then None
              else Some(job.(position := MapPos(cs, job.position, Side(k, completed))))
  {
    if jobs != [] {
      FindMoved(jobs[1..], cs, completed, k);
      if jobs[0].id == k {
        assert Find(jobs[1..], k).None?;
      }
    }
  }

  // ---- The order of the list ----

  predicate HasId(jobs: seq<Job>, id: nat) {
    jobs != [] && (jobs[0].id == id || HasId(jobs[1..], id))
  }

  /** A job of the one id stands before a job of the other. */
  predicate ListedBefore(jobs: seq<Job>, a: nat, b: nat) {
    jobs != [] && ((jobs[0].id == a && HasId(jobs[1..], b)) || ListedBefore(jobs[1..], a, b))
  }

  lemma {:induction false} ListedBeforeLast(jobs: seq<Job>, last: Job, a: nat, b: nat)
    ensures HasId(jobs + [last], b) <==> last.id == b || HasId(jobs, b)
    ensures ListedBefore(jobs + [last], a, b) <==> (last.id == b && HasId(jobs, a)) || ListedBefore(jobs, a, b)
  {
    if jobs == [] {
      assert jobs + [last] == [last];
    } else {
      ListedBeforeLast(jobs[1..], last, a, b);
      assert (jobs + [last])[1..] == jobs[1..] + [last];
    }
  }

  lemma {:induction false} WithoutKeepsOrder(jobs: seq<Job>, id: nat, a: nat, b: nat)
    ensures HasId(WithoutJob(jobs, id), a) <==> a != id && HasId(jobs, a)
    ensures HasId(WithoutJob(jobs, id), b) <==> b != id && HasId(jobs, b)
    ensures ListedBefore(WithoutJob(jobs, id), a, b) <==> a != id && b != id && ListedBefore(jobs, a, b)
  {
    if jobs != [] { WithoutKeepsOrder(jobs[1..], id, a, b); }
  }

  /** An effect leaves the other jobs in their order; a new or changed job goes to the end. */
  lemma {:induction false} PerformOrder(jobs: seq<Job>, effect: Effect, a: nat, b: nat)
    ensures ListedBefore(Perform(jobs, effect), a, b) <==>
            match effect
            case Remove(id) => a != id && b != id && ListedBefore(jobs, a, b)
            case Change(job) => a != job.id && if b == job.id then HasId(jobs, a) else ListedBefore(jobs, a, b)
  {
    match effect
    case Remove(id) => WithoutKeepsOrder(jobs, id, a, b);
    case Change(job) =>
      WithoutKeepsOrder(jobs, job.id, a, b);
      ListedBeforeLast(WithoutJob(jobs, job.id), job, a, b);
  }

  // ---- Ids stay distinct ----

  lemma {:induction false} WithoutIds(jobs: seq<Job>, id: nat)
    requires DistinctIds(jobs)
    ensures DistinctIds(WithoutJob(jobs, id))
  {
    if jobs != [] {
      WithoutIds(jobs[1..], id);
      FindWithout(jobs[1..], id, jobs[0].id);
      assert Find(jobs[1..], jobs[0].id).None?;
    }
  }

  lemma {:induction false} PerformIds(jobs: seq<Job>, effect: Effect)
    requires DistinctIds(jobs)
    ensures DistinctIds(Perform(jobs, effect))
  {
    match effect
    case Remove(id) => WithoutIds(jobs, id);
    case Change(job) =>
      WithoutIds(jobs, job.id);
      FindWithout(jobs, job.id, job.id);
  }

  lemma {:induction false} PerformAllIds(jobs: seq<Job>, effects: seq<Effect>)
    requires DistinctIds(jobs)
    ensures DistinctIds(PerformAll(jobs, effects))
    decreases |effects|
  {
    if effects != [] {
      PerformIds(jobs, effects[0]);
      PerformAllIds(Perform(jobs, effects[0]), effects[1..]);
    }
  }

  lemma {:induction false} MovedIds(jobs: seq<Job>, cs: Changes, completed: Option<nat>)
    requires forall i | 0 <= i < |jobs| :: jobs[i].position <= OldLength(cs)
    requires DistinctIds(jobs)
    ensures DistinctIds(Moved(jobs, cs, completed))
  {
    if jobs != [] {
      MovedIds(jobs[1..], cs, completed);
      FindMoved(jobs[1..], cs, completed, jobs[0].id);
      assert Find(jobs[1..], jobs[0].id).None?;
    }
  }
}
