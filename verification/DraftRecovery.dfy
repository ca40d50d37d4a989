/** Unsent edits kept in storage that several tabs share: when a draft may disappear, and
what a saved record must hold for that. */
module DraftRecovery {
  import opened Options

  /** A JSON value, compared by its text; `Null` is apart because it reads as absent. */
  datatype Json = Null | Value(text: string)

  type JsonObject = map<string, Json>

  datatype Draft = Draft(body: string, baseBody: string, patch: JsonObject, baseFrontmatter: JsonObject, savedAt: int)

  datatype SavedRecord = SavedRecord(body: Option<string>, frontmatter: JsonObject)

  /** What a key may hold: text that parses to a draft, or anything else. */
  datatype Item = Checkpoint(draft: Draft) | Malformed

  /** Keys are the JSON text of server, collection and path, so different triples differ. */
  datatype Key = Key(server: string, collection: string, path: string)

  type Items = map<Key, Item>

  const DRAFT_RETENTION_MS := 7 * 24 * 60 * 60 * 1_000

  function Get(o: JsonObject, key: string): Option<Json> {
    if key in o then Some(o[key]) else None
  }

  function OrNull(v: Option<Json>): Json {
    if v.Some? then v.value else Null
  }

  // ---- Patches ----

  /** The properties in which `current` differs from `base`, a missing one as null. */
  function FrontmatterPatch(base: JsonObject, current: JsonObject): JsonObject {
    map k | k in base.Keys + current.Keys && Get(base, k) != Get(current, k) :: OrNull(Get(current, k))
  }

  /** The properties of an object, null read as absent. */
  function Present(o: JsonObject): JsonObject {
    map k | k in o && o[k] != Null :: o[k]
  }

  /** Overlaying the patch on the base gives the current properties, and the patch names
      exactly those that differ. */
  lemma {:induction false} PatchRestores(base: JsonObject, current: JsonObject)
    ensures Present(base + FrontmatterPatch(base, current)) == Present(current)
    ensures forall k :: k in FrontmatterPatch(base, current) <==> Get(base, k) != Get(current, k)
  {
    var patch := FrontmatterPatch(base, current);
    var restored := base + patch;
    forall k ensures OrNull(Get(restored, k)) == OrNull(Get(current, k)) {
      if k in patch {
        assert restored[k] == OrNull(Get(current, k));
      } else {
        assert Get(restored, k) == Get(base, k);
      }
    }
    SamePresent(restored, current);
  }

  lemma {:induction false} SamePresent(a: JsonObject, b: JsonObject)
    requires forall k :: OrNull(Get(a, k)) == OrNull(Get(b, k))
    ensures Present(a) == Present(b)
  {
    forall k ensures k in Present(a) <==> k in Present(b) {
      assert k in Present(a) <==> OrNull(Get(a, k)) != Null;
      assert k in Present(b) <==> OrNull(Get(b, k)) != Null;
    }
    forall k | k in Present(a) ensures Present(a)[k] == Present(b)[k] {
      assert OrNull(Get(a, k)) == OrNull(Get(b, k));
    }
  }

  /** The checkpoint's body and every edited property are in the record. */
  predicate MatchesRecord(d: Draft, r: SavedRecord) {
    && d.body == (if r.body.Some? then r.body.value else "")
    && forall k | k in d.patch :: OrNull(Get(r.frontmatter, k)) == d.patch[k]
  }

  /** Exactly when restoring the draft over the record would change nothing. */
  lemma {:induction false} MatchMeansNothingToRestore(d: Draft, r: SavedRecord)
    ensures MatchesRecord(d, r) <==>
            && d.body == (if r.body.Some? then r.body.value else "")
            && Present(r.frontmatter + d.patch) == Present(r.frontmatter)
  {
    var over := r.frontmatter + d.patch;
    if MatchesRecord(d, r) {
      forall k ensures OrNull(Get(over, k)) == OrNull(Get(r.frontmatter, k)) {
        if k in d.patch { assert over[k] == d.patch[k]; }
      }
      SamePresent(over, r.frontmatter);
    }
    if Present(over) == Present(r.frontmatter) {
      forall k | k in d.patch ensures OrNull(Get(r.frontmatter, k)) == d.patch[k] {
        assert over[k] == d.patch[k];
        assert k in Present(over) <==> d.patch[k] != Null;
        assert k in Present(r.frontmatter) <==> OrNull(Get(r.frontmatter, k)) != Null;
      }
    }
  }

  // ---- Storage ----

  predicate Expired(d: Draft, now: int) { now - d.savedAt > DRAFT_RETENTION_MS }

  /** The draft under a key, if it is one and not too old. */
  function Fresh(items: Items, key: Key, now: int): Option<Draft> {
    if key in items && items[key].Checkpoint? && !Expired(items[key].draft, now) then Some(items[key].draft) else None
  }

  /** `readKey` removes what is malformed or expired. */
  function Swept(items: Items, key: Key, now: int): Items {
    if Fresh(items, key, now).Some? then items else items - {key}
  }

  /** What any tab does to the shared storage. */
  datatype Action =
    | Open(now: int)                                            // a page loads and sweeps all keys
    | Read(key: Key, saved: Option<SavedRecord>, now: int)
    | Write(key: Key, draft: Draft)                             // an edit; `savedAt` is the time of writing
    | Remove(key: Key, saved: Option<SavedRecord>, now: int)    // an acknowledgement, or a discard without record

  function Removed(items: Items, key: Key, saved: Option<SavedRecord>, now: int): Items {
    var draft := Fresh(items, key, now);
    if saved.Some? && draft.Some? && !MatchesRecord(draft.value, saved.value) then items else items - {key}
  }

  function Step(items: Items, a: Action): Items {
    match a
    case Open(now) => map k | k in items && Fresh(items, k, now).Some? :: items[k]
    case Read(key, saved, now) =>
      var draft := Fresh(items, key, now);
      if saved.Some? && draft.Some? && MatchesRecord(draft.value, saved.value)
      then Removed(items, key, saved, now) else Swept(items, key, now)
    case Write(key, draft) => items[key := Checkpoint(draft)]
    case Remove(key, saved, now) => Removed(items, key, saved, now)
  }

  function Run(items: Items, run: seq<Action>): Items
    decreases |run|
  {
    if run == [] then items else Run(Step(items, run[0]), run[1..])
  }

  predicate Holds(items: Items, key: Key, d: Draft) {
    key in items && items[key] == Checkpoint(d)
  }

  /** The only actions that may take a draft from its key: a discard, its expiry, another
      write to the key, or a record that already holds all of it. */
  predicate MayDrop(a: Action, key: Key, d: Draft) {
    match a
    case Open(now) => Expired(d, now)
    case Read(k, saved, now) => k == key && (Expired(d, now) || (saved.Some? && MatchesRecord(d, saved.value)))
    case Write(k, _) => k == key
    case Remove(k, saved, now) => k == key && (Expired(d, now) || saved.None? || MatchesRecord(d, saved.value))
  }

  /** One action drops a draft only for one of those reasons. */
  lemma {:induction false} StepKeepsDraft(items: Items, a: Action, key: Key, d: Draft)
    requires Holds(items, key, d) && !MayDrop(a, key, d)
    ensures Holds(Step(items, a), key, d)
  {}

  /** And it does drop it then: a draft is gone after an action exactly for such a reason, and a
      write leaves it only under another key or if it is the same. */
  lemma {:induction false} StepDropsExactly(items: Items, a: Action, key: Key, d: Draft)
    requires Holds(items, key, d)
    ensures Holds(Step(items, a), key, d) <==>
            match a
            case Write(k, written) => k != key || written == d
            case _ => !MayDrop(a, key, d)
  {}

  /** An entry that cannot be read stays only as long as nothing opens the page or touches its
      key. */
  lemma {:induction false} MalformedGoes(items: Items, a: Action, key: Key)
    requires key in items && items[key] == Malformed
    ensures key in Step(items, a) && Step(items, a)[key] == Malformed <==> !a.Open? && a.key != key
    ensures !a.Write? ==> (key in Step(items, a) <==> !a.Open? && a.key != key)
  {}

  /** Every other key keeps what it holds, except that opening sweeps all of them. */
  lemma {:induction false} StepElsewhere(items: Items, a: Action, key: Key)
    requires !a.Open? && key != a.key
    ensures key in Step(items, a) <==> key in items
    ensures key in items ==> Step(items, a)[key] == items[key]
  {}

  /** A draft expires when more than seven days have passed since it was written. */
  lemma {:induction false} ExpiresAfterSevenDays(d: Draft, now: int)
    ensures Expired(d, now) <==> now > d.savedAt + 7 * 86_400_000
  {}

  /** In every interleaving of tabs: a draft that is gone in the end was there until some
      action had a reason to drop it. */
  lemma {:induction false} DraftLostForReason(items: Items, run: seq<Action>, key: Key, d: Draft)
    requires Holds(items, key, d) && !Holds(Run(items, run), key, d)
    ensures exists i :: 0 <= i < |run| && MayDrop(run[i], key, d) && Holds(Run(items, run[..i]), key, d)
    decreases |run|
  {
    if MayDrop(run[0], key, d) {
      assert run[..0] == [];
      assert Holds(Run(items, run[..0]), key, d);
    } else {
      StepKeepsDraft(items, run[0], key, d);
      DraftLostForReason(Step(items, run[0]), run[1..], key, d);
      var i :| && 0 <= i < |run[1..]| && MayDrop(run[1..][i], key, d)
               && Holds(Run(Step(items, run[0]), run[1..][..i]), key, d);
      assert run[..i + 1][0] == run[0] && run[..i + 1][1..] == run[1..][..i];
      assert Run(items, run[..i + 1]) == Run(Step(items, run[0]), run[1..][..i]);
      assert run[i + 1] == run[1..][i];
    }
  }

  /** A run of reads and acknowledgements for records that lack some of a tab's unsent edit
      leaves that edit in place, however many tabs take part, until it expires. */
  lemma {:induction false} OtherSavesKeepDraft(items: Items, run: seq<Action>, key: Key, d: Draft)
    requires Holds(items, key, d)
    requires forall i | 0 <= i < |run| ::
               match run[i]
               case Open(now) => !Expired(d, now)
               case Read(_, saved, now) => !Expired(d, now) && (saved.Some? ==> !MatchesRecord(d, saved.value))
               case Remove(_, saved, now) => !Expired(d, now) && saved.Some? && !MatchesRecord(d, saved.value)
               case Write(k, _) => k != key
    ensures Holds(Run(items, run), key, d)
    decreases |run|
  {
    if run != [] {
      assert !MayDrop(run[0], key, d);
      StepKeepsDraft(items, run[0], key, d);
      OtherSavesKeepDraft(Step(items, run[0]), run[1..], key, d);
    }
  }

  // ---- The class over shared storage ----

  class Storage {
    var items: Items

    constructor () ensures items == map[] { items := map[]; }
  }

  class Recovery {
    const storage: Storage
    const server: string

    /** Opening sweeps every key once. */
    constructor (storage: Storage, server: string, now: int)
      modifies storage
      ensures this.storage == storage && this.server == server
      ensures storage.items == Step(old(storage.items), Open(now))
    {
      this.storage := storage;
      this.server := server;
      new;
      var todo := storage.items.Keys;
      ghost var was := storage.items;
      while todo != {}
        invariant todo <= was.Keys
        invariant forall k :: k in storage.items <==> k in was && (k in todo || Fresh(was, k, now).Some?)
        invariant forall k | k in storage.items :: storage.items[k] == was[k]
        decreases |todo|
      {
        var key :| key in todo;
        if Fresh(storage.items, key, now).None? {
          storage.items := storage.items - {key};
        }
        todo := todo - {key};
      }
    }

    method ReadKey(key: Key, now: int) returns (r: Option<Draft>)
      modifies storage
      ensures r == Fresh(old(storage.items), key, now)
      ensures storage.items == Swept(old(storage.items), key, now)
    {
      r := Fresh(storage.items, key, now);
      if r.None? { storage.items := storage.items - {key}; }
    }

    method Read(collection: string, path: string, saved: Option<SavedRecord>, now: int) returns (r: Option<Draft>)
      modifies storage
      ensures storage.items == Step(old(storage.items), Action.Read(Key(server, collection, path), saved, now))
      ensures forall d | Holds(old(storage.items), Key(server, collection, path), d) && !Expired(d, now)
                && (saved.Some? ==> !MatchesRecord(d, saved.value)) ::
                r == Some(d) && Holds(storage.items, Key(server, collection, path), d)
      ensures (forall d | Holds(old(storage.items), Key(server, collection, path), d) ::
                 Expired(d, now) || (saved.Some? && MatchesRecord(d, saved.value))) ==> r == None
    {
      r := ReadKey(Key(server, collection, path), now);
      if r.Some? && saved.Some? && MatchesRecord(r.value, saved.value) {
        Remove(collection, path, saved, now);
        return None;
      }
    }

    /** The draft is stored with the time of writing, whatever time it carried. */
    method Write(collection: string, path: string, draft: Draft, now: int)
      modifies storage
      ensures storage.items ==
              Step(old(storage.items), Action.Write(Key(server, collection, path), draft.(savedAt := now)))
      ensures Holds(storage.items, Key(server, collection, path), draft.(savedAt := now))
    {
      storage.items := storage.items[Key(server, collection, path) := Checkpoint(draft.(savedAt := now))];
    }

    method Remove(collection: string, path: string, saved: Option<SavedRecord>, now: int)
      modifies storage
      ensures storage.items == Step(old(storage.items), Action.Remove(Key(server, collection, path), saved, now))
    {
      var key := Key(server, collection, path);
      if saved.Some? {
        var draft := ReadKey(key, now);
        if draft.Some? && !MatchesRecord(draft.value, saved.value) {
          return;
        }
      }
      storage.items := storage.items - {key};
    }
  }
}
