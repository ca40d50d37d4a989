/** The view plugin with its fields, as it changes them: every method performs the action
of the same name in the transition system. */
module AttachmentCapture {
  import opened ChangeSets
  import opened Options
  import opened PendingAttachments
  import opened AttachmentProtocol

  /** The field's filter and map. */
  method MoveJobs(jobs: seq<Job>, cs: Changes, completed: Option<nat>) returns (next: seq<Job>)
    requires forall i | 0 <= i < |jobs| :: jobs[i].position <= OldLength(cs)
    ensures next == Moved(jobs, cs, completed)
  {
    next := [];
    var i := 0;
    assert jobs[0..] == jobs;
    while i < |jobs|
      invariant 0 <= i <= |jobs| && next + Moved(jobs[i..], cs, completed) == Moved(jobs, cs, completed)
    {
      var job := jobs[i];
      assert jobs[i..][1..] == jobs[i + 1..];
      if !Touched(cs, job.position) {
        next := next + [job.(position := MapPos(cs, job.position, Side(job.id, completed)))];
      }
      i := i + 1;
    }
    assert jobs[i..] == [];
  }

  /** The field's loop over the effects. */
  method PerformEffects(jobs: seq<Job>, effects: seq<Effect>) returns (next: seq<Job>)
    ensures next == PerformAll(jobs, effects)
  {
    next := jobs;
    var i := 0;
    assert effects[0..] == effects;
    while i < |effects|
      invariant 0 <= i <= |effects| && PerformAll(next, effects[i..]) == PerformAll(jobs, effects)
    {
      assert effects[i..][1..] == effects[i + 1..];
      next := Perform(next, effects[i]);
      i := i + 1;
    }
  }

  class Capture {
    var doc: seq<Cell>
    var jobs: seq<Job>
    var sequence: nat
    var destroyed: bool
    var enabled: bool
    ghost var inserted: seq<nat>

    ghost function Snapshot(): State
      reads this
    {
      State(doc, jobs, sequence, destroyed, enabled, inserted)
    }

    constructor (text: string)
      ensures Snapshot() == Opened(text)
    {
      doc, jobs, sequence, destroyed, enabled, inserted := Cells(text, Writer), [], 0, false, true, [];
    }

    /** A transaction: the new document, and the field's update with its filter, its map
        and its loop over the effects. */
    method Dispatch(cs: Changes, effects: seq<Effect>)
      requires OldLength(cs) == |doc| && PositionsInside(jobs, |doc|)
      modifies this`doc, this`jobs
      ensures Snapshot() == AttachmentProtocol.Dispatch(old(Snapshot()), cs, effects)
    {
      var moved := MoveJobs(jobs, cs, Completed(effects));
      var next := PerformEffects(moved, effects);
      doc := Apply(doc, cs);
      jobs := next;
    }

    method Edit(cs: Changes)
      requires Valid(Snapshot()) && Legal(Snapshot(), Action.Edit(cs))
      modifies this`doc, this`jobs
      ensures Snapshot() == Step(old(Snapshot()), Action.Edit(cs))
      ensures Valid(Snapshot())
    {
      ghost var before := Snapshot();
      Dispatch(cs, []);
      StepKeepsValid(before, Action.Edit(cs));
    }

    method Announce(effects: seq<Effect>)
      requires PositionsInside(jobs, |doc|)
      modifies this`doc, this`jobs
      ensures Snapshot() == AttachmentProtocol.Announce(old(Snapshot()), effects)
    {
      UnchangedEffect(doc, 0, 1);
      Dispatch(Unchanged(|doc|), effects);
    }

    /** `add`: one job for each file, then one transaction for all of them. */
    method Add(files: seq<string>, position: nat)
      requires Valid(Snapshot()) && position <= |doc|
      modifies this`doc, this`jobs, this`sequence
      ensures Snapshot() == Step(old(Snapshot()), Drop(files, position))
      ensures Valid(Snapshot())
    {
      ghost var before := Snapshot();
      if destroyed || !enabled || files == [] {
        return;
      }
      var effects: seq<Effect> := [];
      var i := 0;
      assert files[0..] == files;
      while i < |files|
        invariant 0 <= i <= |files| && sequence == old(sequence) + i
        invariant Snapshot() == before.(sequence := sequence)
        invariant effects + NewJobs(files[i..], position, sequence) == NewJobs(files, position, old(sequence))
      {
        assert files[i..][1..] == files[i + 1..];
        effects := effects + [Change(Job(sequence + 1, position, files[i], None))];
        sequence := sequence + 1;
        i := i + 1;
      }
      assert files[i..] == [] && effects == NewJobs(files, position, before.sequence);
      ghost var numbered := Snapshot();
      Announce(effects);
      AnnounceEffect(numbered, effects);
      AnnounceEffect(before, effects);
      StepKeepsValid(before, Drop(files, position));
    }

    /** `run` up to its await. The result says whether an upload was started. */
    method Begin(id: nat) returns (started: bool)
      requires Valid(Snapshot())
      modifies this`doc, this`jobs
      ensures Snapshot() == Step(old(Snapshot()), Action.Begin(id))
      ensures Valid(Snapshot())
      ensures started <==> !destroyed && enabled && Find(jobs, id).Some?
    {
      ghost var before := Snapshot();
      StepKeepsValid(before, Action.Begin(id));
      FindAfter(before, Action.Begin(id), id);
      var job := Find(jobs, id);
      if destroyed || !enabled || job.None? {
        return false;
      }
      Announce([Change(job.value.(error := None))]);
      return true;
    }

    /** `run` resumed with the reference of the uploaded file. */
    method Resolved(id: nat, reference: string)
      requires Valid(Snapshot())
      modifies this`doc, this`jobs, this`inserted
      ensures Snapshot() == Step(old(Snapshot()), Arrive(id, reference))
      ensures Valid(Snapshot())
    {
      StepKeepsValid(Snapshot(), Arrive(id, reference));
      if destroyed {
        return;
      }
      var current := Find(jobs, id);
      if current.None? {
        return;
      }
      if !enabled {
        Announce([Change(current.value.(error := Some(NotEditable)))]);
        return;
      }
      var position := current.value.position;
      var text := Cells(BlockInsertion(Text(doc), position, position, reference), Upload(id));
      InsertionEffect(doc, position, text, 0, 1);
      Dispatch(Insertion(|doc|, position, text), [Remove(id)]);
      inserted := inserted + [id];
    }

    /** `run` resumed with the failure of the upload. */
    method Rejected(id: nat, message: string)
      requires Valid(Snapshot())
      modifies this`doc, this`jobs
      ensures Snapshot() == Step(old(Snapshot()), Fail(id, message))
      ensures Valid(Snapshot())
    {
      StepKeepsValid(Snapshot(), Fail(id, message));
      var current := Find(jobs, id);
      if !destroyed && current.Some? {
        Announce([Change(current.value.(error := Some(Transfer(message))))]);
      }
    }

    /** The job's `remove`. */
    method Discard(id: nat)
      requires Valid(Snapshot())
      modifies this`doc, this`jobs
      ensures Snapshot() == Step(old(Snapshot()), Action.Discard(id))
      ensures Valid(Snapshot())
    {
      StepKeepsValid(Snapshot(), Action.Discard(id));
      if !destroyed && enabled {
        Announce([Remove(id)]);
      }
    }

    method Destroy()
      requires Valid(Snapshot())
      modifies this`destroyed
      ensures Snapshot() == Step(old(Snapshot()), Close)
      ensures Valid(Snapshot())
    {
      destroyed := true;
    }
  }
}
