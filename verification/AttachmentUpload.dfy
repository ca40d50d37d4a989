/** Choosing a free path for an uploaded file, and keeping it reserved while the upload is
in flight. */
module AttachmentUpload {
  import opened Sequences
  import AttachmentConfluence

  // ---- Candidate paths ----

  function Digits(n: nat): string {
    if n < 10 then [('0' as int + n) as char] else Digits(n / 10) + [('0' as int + n % 10) as char]
  }

  lemma {:induction false} DigitsInjective(m: nat, n: nat)
    requires Digits(m) == Digits(n)
    ensures m == n
  {
    DigitsNonEmpty(m / 10);
    DigitsNonEmpty(n / 10);
    var a, b := Digits(m), Digits(n);
    assert a[|a| - 1] == ('0' as int + m % 10) as char && b[|b| - 1] == ('0' as int + n % 10) as char;
    assert m % 10 == n % 10;
    if m >= 10 && n >= 10 {
      assert a[..|a| - 1] == Digits(m / 10) && b[..|b| - 1] == Digits(n / 10);
      DigitsInjective(m / 10, n / 10);
    }
  }

  lemma {:induction false} DigitsNonEmpty(n: nat)
    ensures |Digits(n)| >= 1
  {
    if n >= 10 { DigitsNonEmpty(n / 10); }
  }

  /** Path comparison: Unicode composition and lower-casing, given by what they do around a
      bracketed number: the digits stay, and neither side depends on them. */
  datatype Folding = Folding(fold: string -> string, left: string -> string, right: string -> string)

  ghost predicate KeepsNumbers(f: Folding) {
    forall front: string, k: nat, back: string ::
      f.fold(front + " (" + Digits(k) + ")" + back) == f.left(front) + Digits(k) + f.right(back)
  }

  /** Lower-casing of ASCII letters, the simplest folding. */
  function Lower(s: string): (r: string)
    ensures |r| == |s| && forall i | 0 <= i < |s| :: r[i] == if 'A' <= s[i] <= 'Z' then s[i] - 'A' + 'a' else s[i]
  {
    seq(|s|, i requires 0 <= i < |s| => if 'A' <= s[i] <= 'Z' then s[i] - 'A' + 'a' else s[i])
  }

  lemma {:induction false} DigitsAreDigits(n: nat)
    ensures forall i | 0 <= i < |Digits(n)| :: '0' <= Digits(n)[i] <= '9'
  {
    if n >= 10 { DigitsAreDigits(n / 10); }
  }

  lemma {:induction false} LowerKeepsNumbers()
    ensures KeepsNumbers(Folding(Lower, front => Lower(front + " ("), back => Lower(")" + back)))
  {
    forall front: string, k: nat, back: string
      ensures Lower(front + " (" + Digits(k) + ")" + back) == Lower(front + " (") + Digits(k) + Lower(")" + back)
    {
      DigitsAreDigits(k);
      LowerAround(front + " (", Digits(k), ")" + back);
      assert front + " (" + Digits(k) + ")" + back == front + " (" + Digits(k) + (")" + back);
    }
  }

  lemma {:induction false} LowerAround(a: string, digits: string, b: string)
    requires forall i | 0 <= i < |digits| :: '0' <= digits[i] <= '9'
    ensures Lower(a + digits + b) == Lower(a) + digits + Lower(b)
  {}

  /** A file's place and name, split at the extension. */
  datatype Target = Target(folder: string, name: string, stem: string, extension: string)

  function LastIndexOf(s: string, c: char): (i: int)
    ensures -1 <= i < |s| && (i >= 0 ==> s[i] == c) && forall j | i < j < |s| :: s[j] != c
  {
    if s == "" then -1 else if s[|s| - 1] == c then |s| - 1 else LastIndexOf(s[..|s| - 1], c)
  }

  /** The attachment folder beside the note, and the name split before its last dot unless
      the name begins with it. */
  function TargetFor(notePath: string, safeName: string): Target {
    var slash := LastIndexOf(notePath, '/');
    var noteFolder := if slash >= 0 then notePath[..slash] else "";
    var folder := if noteFolder != "" then noteFolder + "/Attachments" else "Attachments";
    var dot := LastIndexOf(safeName, '.');
    if dot > 0 then Target(folder, safeName, safeName[..dot], safeName[dot..])
    else Target(folder, safeName, safeName, "")
  }

  /** The first candidate is the name itself, then copies numbered from 2. */
  function Candidate(t: Target, k: nat): string {
    if k < 2 then t.folder + "/" + t.name
    else t.folder + "/" + t.stem + " (" + Digits(k) + ")" + t.extension
  }

  /** Where a file goes: into the folder "Attachments" beside the note, under its own name. */
  lemma {:induction false} FirstCandidate(folder: string, note: string, safeName: string)
    requires '/' !in note
    ensures Candidate(TargetFor(note, safeName), 1) == "Attachments/" + safeName
    ensures Candidate(TargetFor("/" + note, safeName), 1) == "Attachments/" + safeName
    ensures folder != "" ==>
              Candidate(TargetFor(folder + "/" + note, safeName), 1) == folder + "/Attachments/" + safeName
  {
    LastIndexIs(note, '/', -1);
    LastIndexIs("/" + note, '/', 0);
    assert "Attachments" + "/" + safeName == "Attachments/" + safeName;
    if folder != "" {
      var path := folder + "/" + note;
      LastIndexIs(path, '/', |folder|);
      assert path[..|folder|] == folder;
      assert folder + "/Attachments" + "/" == folder + "/Attachments/";
    }
  }

  lemma {:induction false} LastIndexIs(s: string, c: char, i: int)
    requires -1 <= i < |s| && (i >= 0 ==> s[i] == c) && forall j | i < j < |s| :: s[j] != c
    ensures LastIndexOf(s, c) == i
  {}

  /** Copies are numbered before the extension, the part from the last dot on. */
  lemma {:induction false} NumberedCandidate(notePath: string, stem: string, extension: string, k: nat)
    requires k >= 2 && stem != "" && '.' !in extension
    ensures Candidate(TargetFor(notePath, stem + "." + extension), k) ==
            TargetFor(notePath, "").folder + "/" + stem + " (" + Digits(k) + ")" + ("." + extension)
  {
    var name := stem + "." + extension;
    LastIndexIs(name, '.', |stem|);
    assert name[..|stem|] == stem && name[|stem|..] == "." + extension;
  }

  /** A name without a dot, or with its only dot in front, has no extension. */
  lemma {:induction false} NumberedWhole(notePath: string, name: string, k: nat)
    requires k >= 2 && forall i | 0 < i < |name| :: name[i] != '.'
    ensures Candidate(TargetFor(notePath, name), k) ==
            TargetFor(notePath, "").folder + "/" + name + " (" + Digits(k) + ")" + ""
  {
    LastIndexIs(name, '.', if name != "" && name[0] == '.' then 0 else -1);
  }

  /** Reading a decimal number, most significant digit first. */
  function Number(digits: string): int {
    if digits == "" then 0
    else 10 * Number(digits[..|digits| - 1]) + (digits[|digits| - 1] as int - '0' as int)
  }

  lemma {:induction false} DigitsRead(n: nat)
    ensures Number(Digits(n)) == n && (n > 0 ==> Digits(n)[0] != '0')
  {
    if n < 10 {
      assert Digits(n)[..0] == "";
    } else {
      DigitsRead(n / 10);
      DigitsNonEmpty(n / 10);
      var d := Digits(n);
      assert d[..|d| - 1] == Digits(n / 10);
    }
  }

  lemma {:induction false} CandidatesDiffer(f: Folding, t: Target, j: nat, k: nat)
    requires KeepsNumbers(f) && 2 <= j && 2 <= k && f.fold(Candidate(t, j)) == f.fold(Candidate(t, k))
    ensures j == k
  {
    var front := t.folder + "/" + t.stem;
    var a, b := f.left(front), f.right(t.extension);
    assert f.fold(Candidate(t, j)) == a + Digits(j) + b;
    assert f.fold(Candidate(t, k)) == a + Digits(k) + b;
    MiddleEqual(a, Digits(j), Digits(k), b);
    DigitsInjective(j, k);
  }

  lemma {:induction false} MiddleEqual(a: string, x: string, y: string, b: string)
    requires a + x + b == a + y + b
    ensures x == y
  {
    assert |a + x + b| == |a + y + b|;
    assert x == (a + x + b)[|a|..|a| + |x|];
    assert y == (a + y + b)[|a|..|a| + |y|];
  }

  /** The folded keys of the numbered candidates below `n`. */
  function NumberedKeys(f: Folding, t: Target, n: nat): (keys: seq<string>)
    ensures |keys| == if n < 2 then 0 else n - 2
    ensures forall i | 0 <= i < |keys| :: keys[i] == f.fold(Candidate(t, i + 2))
  {
    if n <= 2 then [] else NumberedKeys(f, t, n - 1) + [f.fold(Candidate(t, n - 1))]
  }

  /** No more numbered candidates can be taken than paths are occupied. */
  lemma {:induction false} OccupiedBounds(f: Folding, t: Target, occupied: set<string>, n: nat)
    requires KeepsNumbers(f) && n >= 2
    requires forall k | 2 <= k < n :: f.fold(Candidate(t, k)) in occupied
    ensures n - 2 <= |occupied|
  {
    var keys := NumberedKeys(f, t, n);
    forall i, j | 0 <= i < j < |keys| ensures keys[i] != keys[j] {
      if keys[i] == keys[j] { CandidatesDiffer(f, t, i + 2, j + 2); }
    }
    ElementsCount(keys);
    SubsetSize(Elements(keys), occupied);
  }

  /** There is always a first free candidate, for any name and any occupied paths. */
  lemma {:induction false} FreeCopy(f: Folding, t: Target, occupied: set<string>, from: nat) returns (copy: nat)
    requires KeepsNumbers(f) && 1 <= from && forall k | 1 <= k < from :: f.fold(Candidate(t, k)) in occupied
    ensures from <= copy && f.fold(Candidate(t, copy)) !in occupied
    ensures forall k | 1 <= k < copy :: f.fold(Candidate(t, k)) in occupied
    decreases |occupied| + 3 - from
  {
    if from >= 2 { OccupiedBounds(f, t, occupied, from); }
    copy := from;
    if f.fold(Candidate(t, from)) in occupied {
      copy := FreeCopy(f, t, occupied, from + 1);
    }
  }

  /** `availableAttachmentPath`: the first candidate whose folded path is free. The search
      ends after at most one try more than there are occupied paths, plus the plain name. */
  method AvailablePath(f: Folding, t: Target, occupied: set<string>) returns (path: string, copy: nat)
    requires KeepsNumbers(f)
    ensures 1 <= copy <= |occupied| + 2 && path == Candidate(t, copy)
    ensures f.fold(path) !in occupied
    ensures forall k | 1 <= k < copy :: f.fold(Candidate(t, k)) in occupied
  {
    copy := 1;
    path := Candidate(t, 1);
    while f.fold(path) in occupied
      invariant 1 <= copy && path == Candidate(t, copy)
      invariant copy >= 2 ==> copy - 2 <= |occupied|
      invariant forall k | 1 <= k < copy :: f.fold(Candidate(t, k)) in occupied
      decreases |occupied| + 3 - copy
    {
      copy := copy + 1;
      OccupiedBounds(f, t, occupied, copy);
      path := Candidate(t, copy);
    }
  }

  // ---- Reservations ----

  /** An upload in flight: the reservation set it was started with, and its folded path. */
  datatype Flight = Flight(set': nat, key: string)

  /** `reset` makes a new reservation set; uploads in flight would keep the one they hold.
      The sets are numbered, the last one being current. */
  datatype Uploads = Uploads(reserved: seq<set<string>>, inventory: set<string>, flights: map<nat, Flight>, next: nat)

  datatype Event =
    | Begin(target: Target, copy: nat)     // the path search ended at this copy
    | Finish(id: nat, current: bool)       // uploaded; current unless the collection changed
    | Fail(id: nat)
    | Reset                                // the collection is left: the frozen scope has drained
    | Refresh(inventory: set<string>)      // the inventory changed from elsewhere

  function Current(s: Uploads): set<string>
    requires s.reserved != []
  {
    s.reserved[|s.reserved| - 1]
  }

  function Occupied(s: Uploads): set<string>
    requires s.reserved != []
  {
    Current(s) + s.inventory
  }

  predicate Enabled(f: Folding, s: Uploads, e: Event)
    requires s.reserved != []
  {
    match e
    case Begin(t, copy) =>
      f.fold(Candidate(t, copy)) !in Occupied(s) && forall k | 1 <= k < copy :: f.fold(Candidate(t, k)) in Occupied(s)
    case Finish(id, _) => id in s.flights
    case Fail(id) => id in s.flights
    case Reset => s.flights == map[]
    case Refresh(_) => true
  }

  /** The effect of `reset` by itself. */
  function Renewed(s: Uploads): Uploads {
    s.(reserved := s.reserved + [{}])
  }

  function Release(s: Uploads, id: nat): Uploads
    requires id in s.flights && s.flights[id].set' < |s.reserved|
  {
    var flight := s.flights[id];
    s.(reserved := s.reserved[flight.set' := s.reserved[flight.set'] - {flight.key}], flights := s.flights - {id})
  }

  function Step(f: Folding, s: Uploads, e: Event): Uploads
    requires Valid(s) && Enabled(f, s, e)
  {
    match e
    case Begin(t, copy) =>
      var key := f.fold(Candidate(t, copy));
      var last := |s.reserved| - 1;
      s.(reserved := s.reserved[last := Current(s) + {key}], flights := s.flights[s.next := Flight(last, key)],
         next := s.next + 1)
    case Finish(id, current) =>
      Release(if current then s.(inventory := s.inventory + {s.flights[id].key}) else s, id)
    case Fail(id) => Release(s, id)
    case Reset => Renewed(s)
    case Refresh(inventory) => s.(inventory := inventory)
  }

  /** Every set holds exactly the paths of its flights, and no two of those share one. */
  predicate Valid(s: Uploads) {
    s.reserved != [] && FlightsSound(s) && forall n | 0 <= n < |s.reserved| :: s.reserved[n] == KeysIn(s.flights, n)
  }

  /** The paths of the flights that hold set `n`. */
  function KeysIn(flights: map<nat, Flight>, n: nat): set<string> {
    set id | id in flights && flights[id].set' == n :: flights[id].key
  }

  predicate FlightsSound(s: Uploads) {
    && (forall id | id in s.flights :: id < s.next && s.flights[id].set' < |s.reserved|)
    && (forall i, j | i in s.flights && j in s.flights && i != j ::
          !(s.flights[i].set' == s.flights[j].set' && s.flights[i].key == s.flights[j].key))
  }

  const EMPTY := Uploads([{}], {}, map[], 0)

  lemma {:induction false} ReleaseKeepsValid(s: Uploads, id: nat)
    requires Valid(s) && id in s.flights
    ensures Valid(Release(s, id))
  {
    var t := Release(s, id);
    forall n | 0 <= n < |t.reserved| ensures t.reserved[n] == KeysIn(t.flights, n) { KeysReleased(s, id, n); }
  }

  /** A finished upload takes its own path from its set and no other. */
  lemma {:induction false} KeysReleased(s: Uploads, id: nat, n: nat)
    requires FlightsSound(s) && id in s.flights
    ensures KeysIn(s.flights - {id}, n) ==
            KeysIn(s.flights, n) - (if s.flights[id].set' == n then {s.flights[id].key} else {})
  {
    var rest := s.flights - {id};
    forall x | x in KeysIn(s.flights, n) && !(s.flights[id].set' == n && x == s.flights[id].key)
      ensures x in KeysIn(rest, n)
    {
      var i :| i in s.flights && s.flights[i].set' == n && s.flights[i].key == x;
      assert i in rest && rest[i].set' == n;
    }
    forall x | x in KeysIn(rest, n)
      ensures x in KeysIn(s.flights, n) && !(s.flights[id].set' == n && x == s.flights[id].key)
    {
      var i :| i in rest && rest[i].set' == n && rest[i].key == x;
      assert i in s.flights && i != id;
    }
  }

  lemma {:induction false} KeysAdded(flights: map<nat, Flight>, id: nat, flight: Flight, n: nat)
    requires id !in flights
    ensures KeysIn(flights[id := flight], n) == KeysIn(flights, n) + (if flight.set' == n then {flight.key} else {})
  {
    var more := flights[id := flight];
    forall x | x in KeysIn(flights, n) ensures x in KeysIn(more, n) {
      var i :| i in flights && flights[i].set' == n && flights[i].key == x;
      assert i in more && more[i] == flights[i];
    }
    if flight.set' == n { assert id in more && more[id] == flight; }
    forall x | x in KeysIn(more, n) ensures x in KeysIn(flights, n) || (flight.set' == n && x == flight.key) {
      var i :| i in more && more[i].set' == n && more[i].key == x;
      assert i != id ==> i in flights;
    }
  }

  lemma {:induction false} BeginKeepsValid(f: Folding, s: Uploads, t: Target, copy: nat)
    requires Valid(s) && Enabled(f, s, Begin(t, copy))
    ensures Valid(Step(f, s, Begin(t, copy)))
  {
    var u := Step(f, s, Begin(t, copy));
    var key, last := f.fold(Candidate(t, copy)), |s.reserved| - 1;
    forall n | 0 <= n < |u.reserved| ensures u.reserved[n] == KeysIn(u.flights, n) {
      KeysAdded(s.flights, s.next, Flight(last, key), n);
    }
    forall id | id in s.flights && s.flights[id].set' == last ensures s.flights[id].key != key {
      FlightReserved(s, id);
    }
  }

  /** The path of an upload in flight is reserved. */
  lemma {:induction false} FlightReserved(s: Uploads, id: nat)
    requires Valid(s) && id in s.flights
    ensures s.flights[id].set' < |s.reserved| && s.flights[id].key in s.reserved[s.flights[id].set']
  {
    assert s.flights[id].key in KeysIn(s.flights, s.flights[id].set');
  }

  lemma {:induction false} RenewedValid(s: Uploads)
    requires Valid(s)
    ensures Valid(Renewed(s))
  {
    var t := Renewed(s);
    assert KeysIn(t.flights, |s.reserved|) == {};
  }

  /** Every set keeps exactly its flights' paths apart, whatever happens next. */
  lemma {:induction false} StepKeepsValid(f: Folding, s: Uploads, e: Event)
    requires Valid(s) && Enabled(f, s, e)
    ensures Valid(Step(f, s, e))
  {
    match e
    case Begin(t, copy) => BeginKeepsValid(f, s, t, copy);
    case Finish(id, current) =>
      ReleaseKeepsValid(if current then s.(inventory := s.inventory + {s.flights[id].key}) else s, id);
    case Fail(id) => ReleaseKeepsValid(s, id);
    case Reset => RenewedValid(s);
    case Refresh(_) =>
  }

  predicate LegalRun(f: Folding, s: Uploads, run: seq<Event>)
    requires Valid(s)
    decreases |run|
  {
    run == [] || (Enabled(f, s, run[0]) && (StepKeepsValid(f, s, run[0]); LegalRun(f, Step(f, s, run[0]), run[1..])))
  }

  function Run(f: Folding, s: Uploads, run: seq<Event>): (t: Uploads)
    requires Valid(s) && LegalRun(f, s, run)
    ensures Valid(t)
    decreases |run|
  {
    if run == [] then s else StepKeepsValid(f, s, run[0]); Run(f, Step(f, s, run[0]), run[1..])
  }

  /** All uploads in flight hold the current set. */
  predicate AllCurrent(s: Uploads) {
    forall id | id in s.flights :: s.flights[id].set' == |s.reserved| - 1
  }

  lemma {:induction false} RunKeepsCurrent(f: Folding, s: Uploads, run: seq<Event>)
    requires Valid(s) && LegalRun(f, s, run) && AllCurrent(s)
    ensures AllCurrent(Run(f, s, run))
    decreases |run|
  {
    if run != [] {
      StepKeepsValid(f, s, run[0]);
      RunKeepsCurrent(f, Step(f, s, run[0]), run[1..]);
    }
  }

  /** In every run, resets included, all uploads in flight hold different paths, each of them
      reserved in the current set. */
  lemma {:induction false} FlightsDistinct(f: Folding, run: seq<Event>, i: nat, j: nat)
    requires LegalRun(f, EMPTY, run)
    requires var s := Run(f, EMPTY, run); i in s.flights && j in s.flights && i != j
    ensures var s := Run(f, EMPTY, run);
            && s.flights[i].key != s.flights[j].key
            && s.flights[i].key in Current(s) && s.flights[j].key in Current(s)
  {
    RunKeepsCurrent(f, EMPTY, run);
    FlightReserved(Run(f, EMPTY, run), i);
    FlightReserved(Run(f, EMPTY, run), j);
  }

  lemma {:induction false} BeginTakesFreePath(f: Folding, s: Uploads, t: Target, copy: nat)
    requires Valid(s) && Enabled(f, s, Begin(t, copy))
    ensures var u := Step(f, s, Begin(t, copy));
            var key := f.fold(Candidate(t, copy));
            && key !in s.inventory && key !in Current(s) && key in Current(u)
            && (forall id | id in s.flights && s.flights[id].set' == |s.reserved| - 1 :: s.flights[id].key != key)
            && u.flights == s.flights[s.next := Flight(|s.reserved| - 1, key)]
  {
    forall id | id in s.flights && s.flights[id].set' == |s.reserved| - 1
      ensures s.flights[id].key != f.fold(Candidate(t, copy))
    {
      FlightReserved(s, id);
    }
  }

  lemma {:induction false} RunFirst(f: Folding, s: Uploads, run: seq<Event>, n: nat)
    requires Valid(s) && n < |run| && Enabled(f, s, run[0])
    requires Valid(Step(f, s, run[0])) && LegalRun(f, Step(f, s, run[0]), run[1..][..n])
    ensures LegalRun(f, s, run[..n + 1]) && Run(f, s, run[..n + 1]) == Run(f, Step(f, s, run[0]), run[1..][..n])
  {
    assert run[..n + 1][1..] == run[1..][..n];
  }

  /** The state in which upload `id` with this path is about to start: the path is neither in
      the inventory nor held by any other upload of the current set. */
  predicate FreeAt(s: Uploads, id: nat, key: string) {
    && s.reserved != [] && s.next == id && key !in s.inventory && key !in Current(s)
    && forall other | other in s.flights && s.flights[other].set' == |s.reserved| - 1 :: s.flights[other].key != key
  }

  /** Every upload in flight took a path that was free when it was reserved: the run went
      through the state in which it started. */
  lemma {:induction false} FlightsBeganFree(f: Folding, s: Uploads, run: seq<Event>, id: nat)
    requires Valid(s) && LegalRun(f, s, run) && s.next <= id && id in Run(f, s, run).flights
    ensures exists n :: && 0 <= n < |run| && run[n].Begin? && LegalRun(f, s, run[..n])
                        && FreeAt(Run(f, s, run[..n]), id, Run(f, s, run).flights[id].key)
    decreases |run|
  {
    assert run != [];
    var t := Step(f, s, run[0]);
    StepKeepsValid(f, s, run[0]);
    if t.next <= id {
      FlightsBeganFree(f, t, run[1..], id);
      var n :| && 0 <= n < |run[1..]| && run[1..][n].Begin? && LegalRun(f, t, run[1..][..n])
               && FreeAt(Run(f, t, run[1..][..n]), id, Run(f, t, run[1..]).flights[id].key);
      RunFirst(f, s, run, n);
      assert run[n + 1].Begin?;
    } else {
      BeginTakesFreePath(f, s, run[0].target, run[0].copy);
      FlightStays(f, t, run[1..], id);
      assert run[..0] == [];
      assert FreeAt(Run(f, s, run[..0]), id, Run(f, s, run).flights[id].key);
    }
  }

  lemma {:induction false} FlightStays(f: Folding, s: Uploads, run: seq<Event>, id: nat)
    requires Valid(s) && LegalRun(f, s, run) && id < s.next && id in Run(f, s, run).flights
    ensures id in s.flights && s.flights[id] == Run(f, s, run).flights[id]
    decreases |run|
  {
    if run != [] {
      StepKeepsValid(f, s, run[0]);
      FlightStays(f, Step(f, s, run[0]), run[1..], id);
    }
  }

  /** A failed upload, and one whose collection was left meanwhile, only gives its path free. */
  lemma {:induction false} FailureReleases(f: Folding, s: Uploads, id: nat, a: Event)
    requires Valid(s) && id in s.flights && (a == Fail(id) || a == Finish(id, false))
    ensures var t := Step(f, s, a);
            && t.inventory == s.inventory && t.flights == s.flights - {id} && t.next == s.next
            && s.flights[id].key !in t.reserved[s.flights[id].set']
  {}

  /** The path of a finished upload is in the inventory by the time its reservation is gone,
      and no other reservation of its set is touched. */
  lemma {:induction false} FinishHandsOver(f: Folding, s: Uploads, id: nat)
    requires Valid(s) && id in s.flights
    ensures var t := Step(f, s, Finish(id, true));
            var flight := s.flights[id];
            && flight.key in t.inventory && flight.key !in t.reserved[flight.set']
            && forall other | other in s.flights && other != id ::
                 other in t.flights && t.flights[other] == s.flights[other]
                 && s.flights[other].key in t.reserved[s.flights[other].set']
  {
    StepKeepsValid(f, s, Finish(id, true));
  }

  /** Why a reset must wait for the uploads in flight: if it did not, the very next upload of
      the same name could take the path of one that still flies, whatever its copy number. */
  lemma {:induction false} EarlyResetCollides(f: Folding, s: Uploads, id: nat, t: Target, copy: nat)
    requires Valid(s) && id in s.flights && s.flights[id].key == f.fold(Candidate(t, copy))
    requires s.flights[id].key !in s.inventory
    requires forall k | 1 <= k < copy :: f.fold(Candidate(t, k)) in s.inventory
    ensures Valid(Renewed(s)) && Enabled(f, Renewed(s), Begin(t, copy))
    ensures var u := Step(f, Renewed(s), Begin(t, copy));
            id in u.flights && s.next in u.flights && id != s.next && u.flights[id].key == u.flights[s.next].key
  {
    RenewedValid(s);
    assert Current(Renewed(s)) == {};
  }

  // ---- The uploader ----

  class Uploader {
    var reserved: seq<set<string>>
    var inventory: set<string>
    var flights: map<nat, Flight>
    var next: nat

    ghost function Snapshot(): Uploads
      reads this
    {
      Uploads(reserved, inventory, flights, next)
    }

    constructor ()
      ensures Snapshot() == EMPTY && Valid(Snapshot())
    {
      reserved, inventory, flights, next := [{}], {}, map[], 0;
    }

    /** `uploadToCollection` up to its await: search among reserved and stored paths, then
        reserve. */
    method Start(f: Folding, notePath: string, safeName: string) returns (id: nat, path: string, ghost copy: nat)
      requires KeepsNumbers(f) && Valid(Snapshot())
      modifies this
      ensures path == Candidate(TargetFor(notePath, safeName), copy)
      ensures Enabled(f, old(Snapshot()), Begin(TargetFor(notePath, safeName), copy))
      ensures Snapshot() == Step(f, old(Snapshot()), Begin(TargetFor(notePath, safeName), copy)) && id == old(next)
      ensures Valid(Snapshot())
    {
      var target := TargetFor(notePath, safeName);
      var last := |reserved| - 1;
      var found: nat;
      path, found := AvailablePath(f, target, reserved[last] + inventory);
      copy := found;
      BeginKeepsValid(f, Snapshot(), target, found);
      var key := f.fold(path);
      id := next;
      reserved := reserved[last := reserved[last] + {key}];
      flights := flights[id := Flight(last, key)];
      next := next + 1;
    }

    /** `uploadToCollection` resumed: store the file if the collection is still current, and
        in any case release the reservation in the set the upload was started with. */
    method Settle(f: Folding, id: nat, uploaded: bool, current: bool)
      requires Valid(Snapshot()) && id in flights
      modifies this
      ensures Snapshot() == Step(f, old(Snapshot()), if uploaded then Finish(id, current) else Fail(id))
      ensures Valid(Snapshot())
    {
      StepKeepsValid(f, Snapshot(), if uploaded then Finish(id, current) else Fail(id));
      var flight := flights[id];
      if uploaded && current {
        inventory := inventory + {flight.key};
      }
      reserved := reserved[flight.set' := reserved[flight.set'] - {flight.key}];
      flights := flights - {id};
    }

    method ResetSets()
      requires Valid(Snapshot())
      modifies this`reserved
      ensures Snapshot() == Renewed(old(Snapshot())) && Valid(Snapshot())
      ensures old(flights) == map[] ==> forall f: Folding :: Snapshot() == Step(f, old(Snapshot()), Reset)
    {
      reserved := reserved + [{}];
    }
  }

  // ---- References ----

  function Cleaned(title: string): string {
    if title == "" then ""
    else [if title[0] == ']' || title[0] == '\\' then '-' else title[0]] + Cleaned(title[1..])
  }

  /** The text that refers to an uploaded file; `mediaType` is in lower case. */
  function AttachmentReference(path: string, mediaType: string): string {
    var title := Cleaned(path[LastIndexOf(path, '/') + 1..]);
    if "image/" <= mediaType then "![" + title + "](<" + path + ">)"
    else if mediaType == "application/pdf" || "audio/" <= mediaType || "video/" <= mediaType then "![[" + path + "]]"
    else "[" + title + "](<" + path + ">)"
  }

  /** Closing brackets and backslashes become hyphens, and nothing else changes. */
  lemma {:induction false} CleanedMeans(title: string)
    ensures |Cleaned(title)| == |title|
    ensures forall i | 0 <= i < |title| ::
              Cleaned(title)[i] == if title[i] == ']' || title[i] == '\\' then '-' else title[i]
  {
    if title != "" { CleanedMeans(title[1..]); }
  }

  /** The label of a file: what follows the last slash of its path. */
  lemma {:induction false} LabelMeans(folder: string, name: string)
    requires '/' !in name
    ensures var path := folder + "/" + name; path[LastIndexOf(path, '/') + 1..] == name
    ensures name[LastIndexOf(name, '/') + 1..] == name
  {
    LastIndexIs(folder + "/" + name, '/', |folder|);
    LastIndexIs(name, '/', -1);
  }

  /** Images are embedded with their name as label. */
  lemma {:induction false} ImageReference(folder: string, name: string, kind: string)
    requires '/' !in name
    ensures AttachmentReference(folder + "/" + name, "image/" + kind) ==
            "![" + Cleaned(name) + "](<" + (folder + "/" + name) + ">)"
    ensures AttachmentReference(name, "image/" + kind) == "![" + Cleaned(name) + "](<" + name + ">)"
  {
    LabelMeans(folder, name);
  }

  /** Documents, sound and film are embedded as wiki links. */
  lemma {:induction false} EmbeddedReference(path: string, kind: string)
    ensures AttachmentReference(path, "audio/" + kind) == "![[" + path + "]]"
    ensures AttachmentReference(path, "video/" + kind) == "![[" + path + "]]"
    ensures AttachmentReference(path, "application/pdf") == "![[" + path + "]]"
  {
    assert ("audio/" + kind)[0] == 'a' && ("video/" + kind)[0] == 'v' && "application/pdf"[0] == 'a';
  }

  /** Everything else is linked. */
  lemma {:induction false} LinkedReference(folder: string, name: string, mediaType: string)
    requires '/' !in name && mediaType != "application/pdf"
    requires !("image/" <= mediaType) && !("audio/" <= mediaType) && !("video/" <= mediaType)
    ensures AttachmentReference(folder + "/" + name, mediaType) ==
            "[" + Cleaned(name) + "](<" + (folder + "/" + name) + ">)"
    ensures AttachmentReference(name, mediaType) == "[" + Cleaned(name) + "](<" + name + ">)"
  {
    LabelMeans(folder, name);
  }

  /** Every reference is such that uploads of one drop land in one document whatever their
      order: it is not empty and neither starts nor ends with a line break. */
  lemma {:induction false} ReferencesAreProper(path: string, mediaType: string)
    ensures AttachmentConfluence.Proper(AttachmentReference(path, mediaType))
  {}
}
