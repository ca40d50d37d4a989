/** Order and at-most-once over whole runs of the upload protocol, whatever the writer
does in between. */
module AttachmentOrder {
  import opened ChangeSets
  import opened Options
  import opened PendingAttachments
  import opened AttachmentProtocol

  function NotBy(id: nat): Cell -> bool {
    (c: Cell) => c.origin != Upload(id)
  }

  /** No text of `j` before `m`, no text of `i` from `m` on. */
  predicate SplitAt(doc: seq<Cell>, m: nat, i: nat, j: nat) {
    m <= |doc| && All(doc[..m], NotBy(j)) && All(doc[m..], NotBy(i))
  }

  /** Job `i` precedes job `j` in all they have in the document: text and anchor. */
  ghost predicate Placed(doc: seq<Cell>, a: Option<Job>, b: Option<Job>, i: nat, j: nat) {
    && (exists m: nat :: SplitAt(doc, m, i, j))
    && (a.Some? ==> a.value.position <= |doc| && All(doc[..a.value.position], NotBy(j)))
    && (b.Some? ==> b.value.position <= |doc| && All(doc[b.value.position..], NotBy(i)))
    && (a.Some? && b.Some? ==> Ahead(a.value, b.value))
  }

  ghost predicate Precedes(s: State, i: nat, j: nat) {
    Placed(s.doc, Find(s.jobs, i), Find(s.jobs, j), i, j)
  }

  /** Legal at every state it meets. */
  ghost predicate LegalRun(s: State, run: seq<Action>)
    requires Valid(s)
    decreases |run|
  {
    run == [] || (Legal(s, run[0]) && (StepKeepsValid(s, run[0]); LegalRun(Step(s, run[0]), run[1..])))
  }

  ghost function Run(s: State, run: seq<Action>): (t: State)
    requires Valid(s) && LegalRun(s, run)
    ensures Valid(t)
    decreases |run|
  {
    if run == [] then s
    else
      StepKeepsValid(s, run[0]);
      Run(Step(s, run[0]), run[1..])
  }

  // ---- One step ----

  /** Inserting cells with property `P` keeps it on both sides of a position that moves
      along with the side it is on. */
  lemma {:induction false} InsertedSides(doc: seq<Cell>, p: nat, text: seq<Cell>, q: nat, r: nat, P: Cell -> bool)
    requires p <= |doc| && q <= |doc| && All(text, P)
    requires (q <= p && r == q) || (p <= q && r == q + |text|)
    ensures var grown := doc[..p] + text + doc[p..];
            && r <= |grown|
            && (All(doc[..q], P) ==> All(grown[..r], P))
            && (All(doc[q..], P) ==> All(grown[r..], P))
  {
    var grown := doc[..p] + text + doc[p..];
    if q <= p && r == q {
      assert grown[..r] == doc[..q];
      assert doc[q..] == doc[q..p] + doc[p..];
      assert grown[r..] == doc[q..p] + text + doc[p..];
      AllConcat(doc[q..p], doc[p..], P);
      AllConcat(doc[q..p], text, P);
      AllConcat(doc[q..p] + text, doc[p..], P);
    } else {
      assert grown[r..] == doc[q..];
      assert doc[..q] == doc[..p] + doc[p..q];
      assert grown[..r] == doc[..p] + text + doc[p..q];
      AllConcat(doc[..p], doc[p..q], P);
      AllConcat(doc[..p], text, P);
      AllConcat(doc[..p] + text, doc[p..q], P);
    }
  }

  lemma {:induction false} NothingByPending(s: State, k: nat)
    requires Valid(s) && Find(s.jobs, k).Some?
    ensures All(s.doc, NotBy(k))
  {
    FindPosition(s, k);
  }

  lemma {:induction false} WriterIsNotBy(cs: Changes, id: nat)
    requires AllInserted(cs, (c: Cell) => c.origin == Writer)
    ensures AllInserted(cs, NotBy(id))
  {
    forall i | 0 <= i < |cs| && cs[i].Replace? ensures All(cs[i].inserted, NotBy(id)) {
      assert All(cs[i].inserted, (c: Cell) => c.origin == Writer);
    }
  }

  function Edited(job: Option<Job>, cs: Changes): Option<Job>
    requires job.Some? ==> job.value.position <= OldLength(cs)
  {
    if job.None? || Touched(cs, job.value.position) then None
    else Some(job.value.(position := MapPos(cs, job.value.position, 1)))
  }

  function Shifted(job: Option<Job>, landing: Job, length: nat): Option<Job> {
    if job.None? || Ahead(job.value, landing) then job
    else Some(job.value.(position := job.value.position + length))
  }

  lemma {:induction false} EditKeepsPlaced(doc: seq<Cell>, cs: Changes, a: Option<Job>, b: Option<Job>, i: nat, j: nat)
    requires OldLength(cs) == |doc| && AllInserted(cs, NotBy(i)) && AllInserted(cs, NotBy(j))
    requires Placed(doc, a, b, i, j)
    ensures Placed(Apply(doc, cs), Edited(a, cs), Edited(b, cs), i, j)
  {
    var m: nat :| SplitAt(doc, m, i, j);
    ApplyKeepsLeft(doc, cs, m, 1, NotBy(j));
    ApplyKeepsRight(doc, cs, m, 1, NotBy(i));
    assert SplitAt(Apply(doc, cs), MapPos(cs, m, 1), i, j);
    if Edited(a, cs).Some? {
      ApplyKeepsLeft(doc, cs, a.value.position, 1, NotBy(j));
    }
    if Edited(b, cs).Some? {
      ApplyKeepsRight(doc, cs, b.value.position, 1, NotBy(i));
    }
    if Edited(a, cs).Some? && Edited(b, cs).Some? && a.value.position < b.value.position {
      MapPosStrict(cs, a.value.position, b.value.position, 1, 1);
    }
  }

  /** The text that lands is neither `i`'s nor `j`'s. */
  lemma {:induction false} OtherLanding(doc: seq<Cell>, k: Job, text: seq<Cell>, a: Option<Job>, b: Option<Job>,
                                        i: nat, j: nat)
    requires k.position <= |doc| && All(text, NotBy(i)) && All(text, NotBy(j))
    requires Placed(doc, a, b, i, j)
    ensures Placed(doc[..k.position] + text + doc[k.position..],
                   Shifted(a, k, |text|), Shifted(b, k, |text|), i, j)
  {
    var grown := doc[..k.position] + text + doc[k.position..];
    var m: nat :| SplitAt(doc, m, i, j);
    var m' := if m <= k.position then m else m + |text|;
    InsertedSides(doc, k.position, text, m, m', NotBy(i));
    InsertedSides(doc, k.position, text, m, m', NotBy(j));
    assert SplitAt(grown, m', i, j);
    if a.Some? {
      InsertedSides(doc, k.position, text, a.value.position, Shifted(a, k, |text|).value.position, NotBy(j));
    }
    if b.Some? {
      InsertedSides(doc, k.position, text, b.value.position, Shifted(b, k, |text|).value.position, NotBy(i));
    }
  }

  /** The text that lands is that of the earlier job `i`. */
  lemma {:induction false} EarlierLanding(doc: seq<Cell>, k: Job, text: seq<Cell>, b: Option<Job>, i: nat, j: nat)
    requires k.position <= |doc| && All(text, NotBy(j)) && All(doc, NotBy(i))
    requires Placed(doc, Some(k), b, i, j)
    ensures Placed(doc[..k.position] + text + doc[k.position..], None, Shifted(b, k, |text|), i, j)
  {
    var grown := doc[..k.position] + text + doc[k.position..];
    var m := k.position + |text|;
    assert grown[m..] == doc[k.position..];
    InsertedSides(doc, k.position, text, k.position, m, NotBy(j));
    assert SplitAt(grown, m, i, j);
    if b.Some? {
      assert grown[b.value.position + |text|..] == doc[b.value.position..];
    }
  }

  /** The text that lands is that of the later job `j`. */
  lemma {:induction false} LaterLanding(doc: seq<Cell>, k: Job, text: seq<Cell>, a: Option<Job>, i: nat, j: nat)
    requires k.position <= |doc| && All(text, NotBy(i)) && All(doc, NotBy(j))
    requires Placed(doc, a, Some(k), i, j)
    ensures Placed(doc[..k.position] + text + doc[k.position..], Shifted(a, k, |text|), None, i, j)
  {
    var grown := doc[..k.position] + text + doc[k.position..];
    var m := k.position;
    assert grown[..m] == doc[..m];
    InsertedSides(doc, m, text, m, m, NotBy(i));
    assert SplitAt(grown, m, i, j);
    if a.Some? {
      assert grown[..a.value.position] == doc[..a.value.position];
    }
  }

  lemma {:induction false} LandingAnchor(s: State, a: Action, k: nat)
    requires Valid(s) && Legal(s, a) && Lands(s, a)
    ensures Find(s.jobs, a.id).value.position <= |s.doc|
    ensures var landing := Find(s.jobs, a.id).value;
            Find(Step(s, a).jobs, k) ==
            if k == a.id then None else Shifted(Find(s.jobs, k), landing, |Inserted(s, landing, a.reference)|)
  {
    FindInsert(s, Find(s.jobs, a.id).value, a.reference, k);
  }

  lemma {:induction false} LandingKeepsPrecedes(s: State, a: Action, i: nat, j: nat)
    requires Valid(s) && Legal(s, a) && Lands(s, a) && Precedes(s, i, j) && i != j
    ensures Precedes(Step(s, a), i, j)
  {
    DocumentAfter(s, a);
    LandingAnchor(s, a, i);
    LandingAnchor(s, a, j);
    NothingByPending(s, a.id);
    var k := Find(s.jobs, a.id).value;
    var text := Inserted(s, k, a.reference);
    var p, q := Find(s.jobs, i), Find(s.jobs, j);
    if a.id == i {
      EarlierLanding(s.doc, k, text, q, i, j);
    } else if a.id == j {
      LaterLanding(s.doc, k, text, p, i, j);
    } else {
      OtherLanding(s.doc, k, text, p, q, i, j);
    }
  }

  lemma {:induction false} QuietKeepsPrecedes(s: State, a: Action, i: nat, j: nat)
    requires Valid(s) && Legal(s, a) && !a.Edit? && !Lands(s, a) && Precedes(s, i, j)
    requires i <= s.sequence && j <= s.sequence
    ensures Precedes(Step(s, a), i, j)
  {
    DocumentAfter(s, a);
    QuietAnchor(s, a, i);
    QuietAnchor(s, a, j);
  }

  lemma {:induction false} QuietAnchor(s: State, a: Action, k: nat)
    requires Valid(s) && Legal(s, a) && !a.Edit? && !Lands(s, a) && k <= s.sequence
    ensures var t := Find(Step(s, a).jobs, k);
            t.Some? ==> Find(s.jobs, k).Some? && t.value.position == Find(s.jobs, k).value.position && t.value.id == k
  {
    FindAfter(s, a, k);
  }

  lemma {:induction false} StepKeepsPrecedes(s: State, a: Action, i: nat, j: nat)
    requires Valid(s) && Legal(s, a) && Precedes(s, i, j)
    requires i != j && i <= s.sequence && j <= s.sequence
    ensures Precedes(Step(s, a), i, j)
  {
    if a.Edit? {
      DocumentAfter(s, a);
      FindAfter(s, a, i);
      FindAfter(s, a, j);
      WriterIsNotBy(a.changes, i);
      WriterIsNotBy(a.changes, j);
      EditKeepsPlaced(s.doc, a.changes, Find(s.jobs, i), Find(s.jobs, j), i, j);
    } else if Lands(s, a) {
      LandingKeepsPrecedes(s, a, i, j);
    } else {
      QuietKeepsPrecedes(s, a, i, j);
    }
  }

  // ---- Whole runs ----

  lemma {:induction false} RunKeepsPrecedes(s: State, run: seq<Action>, i: nat, j: nat)
    requires Valid(s) && LegalRun(s, run) && Precedes(s, i, j)
    requires i != j && i <= s.sequence && j <= s.sequence
    ensures Precedes(Run(s, run), i, j)
    decreases |run|
  {
    if run != [] {
      StepKeepsPrecedes(s, run[0], i, j);
      StepKeepsValid(s, run[0]);
      DocumentAfter(s, run[0]);
      RunKeepsPrecedes(Step(s, run[0]), run[1..], i, j);
    }
  }

  lemma {:induction false} SplitOrdersText(doc: seq<Cell>, m: nat, i: nat, j: nat)
    requires SplitAt(doc, m, i, j)
    ensures TextOrdered(doc, i, j)
  {
    forall x | m <= x < |doc| ensures doc[x].origin != Upload(i) { assert NotBy(i)(doc[m..][x - m]); }
    forall y | 0 <= y < m ensures doc[y].origin != Upload(j) { assert NotBy(j)(doc[..m][y]); }
  }

  /** Every character inserted for `i` stands before every character inserted for `j`. */
  predicate TextOrdered(doc: seq<Cell>, i: nat, j: nat) {
    forall x, y | 0 <= x < |doc| && 0 <= y < |doc| && doc[x].origin == Upload(i) && doc[y].origin == Upload(j) :: x < y
  }

  /** Any two uploads pending together: the one whose anchor is ahead (the lower id when
      both stand at one place) puts all its text before all text of the other, in every
      continuation, and no anchor ever crosses the other's text. */
  lemma {:induction false} AnchorOrderIsTextOrder(s: State, run: seq<Action>, i: nat, j: nat)
    requires Valid(s) && LegalRun(s, run)
    requires Find(s.jobs, i).Some? && Find(s.jobs, j).Some?
    requires Ahead(Find(s.jobs, i).value, Find(s.jobs, j).value)
    ensures Precedes(Run(s, run), i, j)
    ensures TextOrdered(Run(s, run).doc, i, j)
  {
    FindPosition(s, i);
    FindPosition(s, j);
    NothingByPending(s, i);
    NothingByPending(s, j);
    assert SplitAt(s.doc, 0, i, j) by { assert s.doc[0..] == s.doc; }
    RunKeepsPrecedes(s, run, i, j);
    var m: nat :| SplitAt(Run(s, run).doc, m, i, j);
    SplitOrdersText(Run(s, run).doc, m, i, j);
  }

  /** Files of one drop keep their order in the text, in every run that follows: for
      `i` before `j` among them, all text of `i` precedes all text of `j`. */
  lemma {:induction false} DropOrderIsTextOrder(s: State, files: seq<string>, position: nat, run: seq<Action>, i: nat,
                                                j: nat)
    requires Valid(s) && Legal(s, Drop(files, position)) && !s.destroyed && s.enabled
    requires s.sequence < i < j <= s.sequence + |files|
    requires Valid(Step(s, Drop(files, position))) && LegalRun(Step(s, Drop(files, position)), run)
    ensures TextOrdered(Run(Step(s, Drop(files, position)), run).doc, i, j)
  {
    FindAfter(s, Drop(files, position), i);
    FindAfter(s, Drop(files, position), j);
    AnchorOrderIsTextOrder(Step(s, Drop(files, position)), run, i, j);
  }

  /** A view is closed exactly when a run closed it, or it was closed before. */
  lemma {:induction false} ClosedExactly(s: State, run: seq<Action>)
    requires Valid(s) && LegalRun(s, run)
    ensures Run(s, run).destroyed <==> s.destroyed || Close in run
    decreases |run|
  {
    if run != [] {
      StepKeepsValid(s, run[0]);
      ClosedExactly(Step(s, run[0]), run[1..]);
    }
  }

  /** A view is editable exactly when it was last set so. */
  lemma {:induction false} EnabledIsLast(s: State, run: seq<Action>, i: nat)
    requires Valid(s) && LegalRun(s, run) && i <= |run| && forall j | i <= j < |run| :: !run[j].SetEnabled?
    ensures i == 0 ==> Run(s, run).enabled == s.enabled
    ensures i > 0 && run[i - 1].SetEnabled? ==> Run(s, run).enabled == run[i - 1].on
    decreases |run|
  {
    if run != [] {
      StepKeepsValid(s, run[0]);
      EnabledIsLast(Step(s, run[0]), run[1..], if i == 0 then 0 else i - 1);
    }
  }

  /** After the view is closed nothing but the writer's own edits changes the text. */
  lemma {:induction false} ClosedIsInert(s: State, run: seq<Action>)
    requires Valid(s) && LegalRun(s, run) && s.destroyed && forall i | 0 <= i < |run| :: !run[i].Edit?
    ensures Run(s, run).doc == s.doc && Run(s, run).inserted == s.inserted && Run(s, run).jobs == s.jobs
    decreases |run|
  {
    if run != [] {
      StepKeepsValid(s, run[0]);
      assert Step(s, run[0]).destroyed && Step(s, run[0]).doc == s.doc && Step(s, run[0]).jobs == s.jobs;
      ClosedIsInert(Step(s, run[0]), run[1..]);
    }
  }

  /** A job that is no longer pending (inserted, discarded, or its anchor deleted) never
      comes back and inserts nothing more; none of its text appears anew. */
  lemma {:induction false} GoneStaysGone(s: State, run: seq<Action>, k: nat)
    requires Valid(s) && LegalRun(s, run)
    requires 1 <= k <= s.sequence && Find(s.jobs, k).None?
    ensures Find(Run(s, run).jobs, k).None?
    ensures k in Run(s, run).inserted <==> k in s.inserted
    ensures k !in s.inserted ==> All(Run(s, run).doc, NotBy(k))
    decreases |run|
  {
    if run != [] {
      StepKeepsValid(s, run[0]);
      FindAfter(s, run[0], k);
      DocumentAfter(s, run[0]);
      GoneStaysGone(Step(s, run[0]), run[1..], k);
    }
  }
}
