/** The page stream of the demo provider: a loader that reports growing lists, a consumer
that takes pages one by one, and a wake-up between them. */
module PageQueue {
  import opened Options

  type Note = string

  datatype Page = Page(results: seq<Note>, offset: nat, loaded: nat, page: nat, complete: bool)

  datatype Loader = Loading | Resolved | Failed(error: string)

  /** Active: running or about to run its loop; parked: awaiting the next wake-up. */
  datatype Consumer = Active | Parked | Returned | Threw(error: string)

  datatype Stream = Stream(
    queue: seq<Page>,
    settled: bool,
    completeSeen: bool,
    loaded: nat,
    page: nat,
    loader: Loader,
    consumer: Consumer,
    yielded: seq<Page>)

  const OPENED := Stream([], false, false, 0, 0, Loading, Active, [])

  datatype Event =
    | Report(notes: seq<Note>, complete: bool)   // progress of the load
    | Resolve(notes: seq<Note>)                  // the load returned
    | Reject(error: string)                      // the load failed
    | Settle                                     // the `finally` of the load
    | Turn                                       // the consumer runs one round of its loop

  function Wake(c: Consumer): Consumer { if c.Parked? then Active else c }

  function Accept(s: Stream, notes: seq<Note>, complete: bool): Stream {
    var rest := if s.loaded <= |notes| then notes[s.loaded..] else [];
    s.(queue := s.queue + [Page(rest, s.loaded, |notes|, s.page, complete)], page := s.page + 1,
       loaded := |notes|, completeSeen := complete, consumer := Wake(s.consumer))
  }

  predicate Enabled(s: Stream, e: Event) {
    match e
    case Report(_, _) => s.loader.Loading?
    case Resolve(_) => s.loader.Loading?
    case Reject(_) => s.loader.Loading?
    case Settle => !s.loader.Loading? && !s.settled
    case Turn => s.consumer.Active?
  }

  function Step(s: Stream, e: Event): Stream
    requires Enabled(s, e)
  {
    match e
    case Report(notes, complete) => Accept(s, notes, complete)
    case Resolve(notes) => (if s.completeSeen then s else Accept(s, notes, true)).(loader := Resolved)
    case Reject(error) => s.(loader := Failed(error))
    case Settle => s.(settled := true, consumer := Wake(s.consumer))
    case Turn =>
      if s.queue != [] then s.(yielded := s.yielded + [s.queue[0]], queue := s.queue[1..])
      else if !s.settled then s.(consumer := Parked)
      else s.(consumer := if s.loader.Failed? then Threw(s.loader.error) else Returned)
  }

  // ---- No wake-up is lost ----

  /** A parked consumer has nothing to take and something to wait for; a finished one has
      taken everything. */
  predicate Awake(s: Stream) {
    && (s.consumer.Parked? ==> s.queue == [] && !s.settled)
    && (s.settled ==> !s.loader.Loading?)
    && (s.consumer.Returned? || s.consumer.Threw? ==> s.queue == [] && s.settled)
    && (s.consumer.Returned? ==> s.loader.Resolved?)
    && (s.consumer.Threw? ==> s.loader == Failed(s.consumer.error))
  }

  lemma {:induction false} StepKeepsAwake(s: Stream, e: Event)
    requires Awake(s) && Enabled(s, e)
    ensures Awake(Step(s, e))
  {}

  /** As long as the consumer has not finished, some event is possible: it is never stuck
      on a settled load. */
  lemma {:induction false} NeverStuck(s: Stream)
    requires Awake(s) && !s.consumer.Returned? && !s.consumer.Threw?
    ensures Enabled(s, Turn) || Enabled(s, Settle) || Enabled(s, Reject(""))
  {}

  // ---- What comes out ----

  function Concat(pages: seq<Page>): seq<Note> {
    if pages == [] then [] else Concat(pages[..|pages| - 1]) + pages[|pages| - 1].results
  }

  /** Pages that follow each other without gap or overlap, numbered from 0, none of them
      complete except possibly the last. */
  predicate Contiguous(pages: seq<Page>) {
    forall i | 0 <= i < |pages| :: InPlace(pages, i)
  }

  predicate InPlace(pages: seq<Page>, i: nat)
    requires i < |pages|
  {
    && pages[i].page == i
    && pages[i].offset == Loaded(pages[..i])
    && pages[i].loaded == pages[i].offset + |pages[i].results|
    && (i < |pages| - 1 ==> !pages[i].complete)
  }

  function Loaded(pages: seq<Page>): nat { if pages == [] then 0 else pages[|pages| - 1].loaded }

  lemma {:induction false} ContiguousPush(pages: seq<Page>, p: Page)
    requires Contiguous(pages) && (pages != [] ==> !pages[|pages| - 1].complete)
    requires p.page == |pages| && p.offset == Loaded(pages) && p.loaded == p.offset + |p.results|
    ensures Contiguous(pages + [p])
  {
    forall i | 0 <= i < |pages + [p]| ensures InPlace(pages + [p], i) {
      assert (pages + [p])[..i] == pages[..i];
      if i < |pages| { assert InPlace(pages, i); } else { assert pages[..i] == pages; }
    }
  }

  lemma {:induction false} ContiguousPrefix(a: seq<Page>, b: seq<Page>)
    requires Contiguous(a + b)
    ensures Contiguous(a)
  {
    forall i | 0 <= i < |a| ensures InPlace(a, i) {
      assert InPlace(a + b, i);
      assert (a + b)[..i] == a[..i];
    }
  }

  /** A source that reports growing prefixes of a final list, marks at most its last report
      complete, and returns the final list. */
  predicate Honest(s: Stream, all: seq<Note>, e: Event) {
    match e
    case Report(notes, complete) =>
      notes <= all && s.loaded <= |notes| && !s.completeSeen && (complete ==> notes == all)
    case Resolve(notes) => notes == all
    case _ => true
  }

  /** These pages are what a source of `all` has reported so far. */
  predicate Accepted(pages: seq<Page>, all: seq<Note>) {
    && Contiguous(pages) && Loaded(pages) <= |all| && Concat(pages) == all[..Loaded(pages)]
    && (pages != [] && pages[|pages| - 1].complete ==> Loaded(pages) == |all|)
  }

  /** The stream's variables against everything accepted, taken or still queued. */
  predicate Faithful(s: Stream, all: seq<Note>) {
    FaithfulPages(s, s.yielded + s.queue, all)
  }

  predicate FaithfulPages(s: Stream, pages: seq<Page>, all: seq<Note>) {
    && Accepted(pages, all) && s.page == |pages| && s.loaded == Loaded(pages)
    && s.completeSeen == (pages != [] && pages[|pages| - 1].complete)
    && (s.loader.Resolved? ==> s.completeSeen)
  }

  lemma {:induction false} ConcatPush(pages: seq<Page>, p: Page)
    ensures Concat(pages + [p]) == Concat(pages) + p.results
  {
    assert (pages + [p])[..|pages|] == pages;
  }

  lemma {:induction false} AcceptedPush(pages: seq<Page>, all: seq<Note>, notes: seq<Note>, p: Page)
    requires Accepted(pages, all) && (pages != [] ==> !pages[|pages| - 1].complete)
    requires notes <= all && Loaded(pages) <= |notes| && (p.complete ==> notes == all)
    requires p.results == notes[Loaded(pages)..] && p.offset == Loaded(pages)
    requires p.loaded == |notes| && p.page == |pages|
    ensures Accepted(pages + [p], all)
  {
    ConcatPush(pages, p);
    ContiguousPush(pages, p);
    GrownPrefix(all, notes, Loaded(pages));
  }

  lemma {:induction false} AcceptKeepsFaithful(s: Stream, all: seq<Note>, notes: seq<Note>, complete: bool)
    requires Faithful(s, all) && !s.completeSeen && !s.loader.Resolved?
    requires notes <= all && s.loaded <= |notes| && (complete ==> notes == all)
    ensures Faithful(Accept(s, notes, complete), all)
  {
    var pages := s.yielded + s.queue;
    var p := Page(notes[s.loaded..], s.loaded, |notes|, s.page, complete);
    AcceptedPush(pages, all, notes, p);
    assert FaithfulPages(Accept(s, notes, complete), pages + [p], all);
    assert s.yielded + (s.queue + [p]) == pages + [p];
  }

  lemma {:induction false} GrownPrefix(all: seq<Note>, notes: seq<Note>, n: nat)
    requires notes <= all && n <= |notes|
    ensures all[..n] + notes[n..] == all[..|notes|]
  {}

  lemma {:induction false} StepKeepsFaithful(s: Stream, all: seq<Note>, e: Event)
    requires Faithful(s, all) && Enabled(s, e) && Honest(s, all, e)
    ensures Faithful(Step(s, e), all)
  {
    match e
    case Report(notes, complete) => AcceptKeepsFaithful(s, all, notes, complete);
    case Resolve(notes) => if !s.completeSeen { AcceptKeepsFaithful(s, all, notes, true); }
    case Turn =>
      if s.queue != [] {
        assert s.yielded + [s.queue[0]] + s.queue[1..] == s.yielded + s.queue;
      }
    case Reject(_) =>
    case Settle =>
  }

  ghost predicate LegalRun(s: Stream, all: seq<Note>, run: seq<Event>)
    decreases |run|
  {
    run == [] || (Enabled(s, run[0]) && Honest(s, all, run[0]) && LegalRun(Step(s, run[0]), all, run[1..]))
  }

  ghost function Run(s: Stream, all: seq<Note>, run: seq<Event>): Stream
    requires LegalRun(s, all, run)
    decreases |run|
  {
    if run == [] then s else Run(Step(s, run[0]), all, run[1..])
  }

  /** How many more events there can be once the load is over. */
  function Effort(s: Stream): nat {
    2 * |s.queue| + (if s.settled then 0 else 3) + (if s.consumer.Active? then 1 else 0)
  }

  lemma {:induction false} EventsLowerEffort(s: Stream, e: Event)
    requires Awake(s) && Enabled(s, e) && !s.loader.Loading?
    ensures Effort(Step(s, e)) < Effort(s) && !Step(s, e).loader.Loading?
  {}

  predicate Ended(s: Stream) { s.consumer.Returned? || s.consumer.Threw? }

  /** Once the load is over the stream ends: every run is bounded, and one that cannot go on
      has brought the consumer to its end. */
  lemma {:induction false} StreamEnds(s: Stream, all: seq<Note>, run: seq<Event>)
    requires Awake(s) && !s.loader.Loading? && LegalRun(s, all, run)
    ensures |run| <= Effort(s)
    ensures (forall e :: !Enabled(Run(s, all, run), e)) ==> Ended(Run(s, all, run))
    decreases |run|
  {
    if run == [] {
      if !Ended(s) { NeverStuck(s); }
    } else {
      StepKeepsAwake(s, run[0]);
      EventsLowerEffort(s, run[0]);
      StreamEnds(Step(s, run[0]), all, run[1..]);
    }
  }

  lemma {:induction false} RunKeeps(s: Stream, all: seq<Note>, run: seq<Event>)
    requires Faithful(s, all) && Awake(s) && LegalRun(s, all, run)
    ensures Faithful(Run(s, all, run), all) && Awake(Run(s, all, run))
    decreases |run|
  {
    if run != [] {
      StepKeepsFaithful(s, all, run[0]);
      StepKeepsAwake(s, run[0]);
      RunKeeps(Step(s, run[0]), all, run[1..]);
    }
  }

  /** In every interleaving, the pages taken are contiguous from 0 and spell a prefix of the
      final list; a stream that returned has given all of it, ending with its one complete
      page; a parked consumer waits for an unsettled load with an empty queue. */
  lemma {:induction false} StreamDelivers(all: seq<Note>, run: seq<Event>)
    requires LegalRun(OPENED, all, run)
    ensures var s := Run(OPENED, all, run);
            && Contiguous(s.yielded) && Concat(s.yielded) <= all
            && (s.consumer.Parked? ==> s.queue == [] && !s.settled)
            && (s.consumer.Returned? ==>
                  Concat(s.yielded) == all && s.yielded != [] && s.yielded[|s.yielded| - 1].complete)
  {
    RunKeeps(OPENED, all, run);
    var s := Run(OPENED, all, run);
    ConcatPrefix(s.yielded, s.queue);
    ContiguousPrefix(s.yielded, s.queue);
    if s.consumer.Returned? {
      assert s.yielded + s.queue == s.yielded;
    }
  }

  /** A stream that threw gives the error with which its load was rejected. */
  lemma {:induction false} StreamThrowsRejection(all: seq<Note>, run: seq<Event>)
    requires LegalRun(OPENED, all, run)
    ensures var end := Run(OPENED, all, run); end.consumer.Threw? ==> Reject(end.consumer.error) in run
  {
    RunKeeps(OPENED, all, run);
    FailureIsRejection(OPENED, all, run);
  }

  lemma {:induction false} FailureIsRejection(s: Stream, all: seq<Note>, run: seq<Event>)
    requires LegalRun(s, all, run)
    ensures var l := Run(s, all, run).loader; l.Failed? ==> l == s.loader || Reject(l.error) in run
    decreases |run|
  {
    if run != [] { FailureIsRejection(Step(s, run[0]), all, run[1..]); }
  }

  lemma {:induction false} ConcatPrefix(a: seq<Page>, b: seq<Page>)
    ensures Concat(a) <= Concat(a + b)
    decreases |b|
  {
    if b == [] {
      assert a + b == a;
    } else {
      var init := b[..|b| - 1];
      ConcatPrefix(a, init);
      assert a + b == a + init + [b[|b| - 1]];
      ConcatPush(a + init, b[|b| - 1]);
    }
  }

  /** Whatever is reported, the new page holds the notes behind those already loaded; a report
      that is shorter than what was loaded gives an empty page. */
  lemma {:induction false} ReportQueues(s: Stream, notes: seq<Note>, complete: bool)
    ensures var t := Accept(s, notes, complete);
            && |t.queue| == |s.queue| + 1 && t.queue[..|s.queue|] == s.queue
            && var page := t.queue[|s.queue|];
               && page.complete == complete && page.offset == s.loaded && page.page == s.page
               && page.loaded == t.loaded == |notes|
               && |page.results| == (if s.loaded < |notes| then |notes| - s.loaded else 0)
               && forall i | 0 <= i < |page.results| :: page.results[i] == notes[s.loaded + i]
  {}

  // ---- The generator's variables ----

  class Pages {
    var queue: seq<Page>
    var settled: bool
    var completeSeen: bool
    var loaded: nat
    var page: nat
    var loader: Loader
    var consumer: Consumer
    ghost var yielded: seq<Page>

    ghost function Snapshot(): Stream
      reads this
    {
      Stream(queue, settled, completeSeen, loaded, page, loader, consumer, yielded)
    }

    constructor ()
      ensures Snapshot() == OPENED
    {
      queue, settled, completeSeen, loaded, page := [], false, false, 0, 0;
      loader, consumer, yielded := Loading, Active, [];
    }

    /** `wake()`: the parked consumer goes on. */
    method Notify()
      modifies this`consumer
      ensures consumer == Wake(old(consumer))
    {
      if consumer.Parked? { consumer := Active; }
    }

    method Progress(notes: seq<Note>, complete: bool)
      modifies this`queue, this`page, this`loaded, this`completeSeen, this`consumer
      ensures Snapshot() == Accept(old(Snapshot()), notes, complete)
    {
      var rest := if loaded <= |notes| then notes[loaded..] else [];
      queue := queue + [Page(rest, loaded, |notes|, page, complete)];
      page := page + 1;
      loaded := |notes|;
      completeSeen := complete;
      Notify();
    }

    method LoadResolved(notes: seq<Note>)
      requires loader.Loading?
      modifies this
      ensures Snapshot() == Step(old(Snapshot()), Resolve(notes))
    {
      if !completeSeen { Progress(notes, true); }
      loader := Resolved;
    }

    method LoadSettled()
      requires !loader.Loading? && !settled
      modifies this`settled, this`consumer
      ensures Snapshot() == Step(old(Snapshot()), Settle)
    {
      settled := true;
      Notify();
    }

    /** One round of the generator's loop; the result is the page it yields, if any. */
    method Next() returns (p: Option<Page>)
      requires consumer.Active?
      modifies this`queue, this`consumer, this`yielded
      ensures Snapshot() == Step(old(Snapshot()), Turn)
      ensures p.Some? <==> old(queue) != []
      ensures p.Some? ==> p.value == old(queue)[0]
    {
      p := None;
      if !settled || queue != [] {
        if queue != [] {
          p := Some(queue[0]);
          yielded := yielded + [queue[0]];
          queue := queue[1..];
        } else {
          consumer := Parked;
        }
      } else {
        consumer := if loader.Failed? then Threw(loader.error) else Returned;
      }
    }
  }
}
