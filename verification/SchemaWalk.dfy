/** Collecting properties and required fields from JSON Schemas that may share and repeat
each other's parts, by depth-first search with one `seen` set. */
module SchemaWalk {
  import opened Sequences
  import opened FieldReferences

  /** Records are objects with identity; everything else is a value. */
  type Id = nat

  datatype Json = Record(id: Id) | Array(items: seq<Json>) | Text(text: string) | Other

  /** The records of a document: any finite graph, cycles included. */
  type Heap = map<Id, map<string, Json>>

  function Field(h: Heap, id: Id, key: string): Json {
    if id in h && key in h[id] then h[id][key] else Other
  }

  // ---- One-hop resolution ----

  /** Follow the segments of a pointer from `current`. */
  function Follow(h: Heap, current: Json, segments: seq<string>): Json
    decreases |segments|
  {
    if segments == [] then current
    else
      Follow(h, if current.Record? then Field(h, current.id, Unescape(segments[0])) else Other, segments[1..])
  }

  function Resolve(h: Heap, root: Id, schema: Id): Id {
    var reference := Field(h, schema, "$ref");
    if !reference.Text? || !("#/" <= reference.text) then schema
    else
      var target := Follow(h, Record(root), Split(reference.text[2..], '/'));
      if target.Record? then target.id else schema
  }

  /** `resolvedSchema` with its loop over the segments. */
  method ResolvedSchema(h: Heap, root: Id, schema: Id) returns (r: Id)
    ensures r == Resolve(h, root, schema)
  {
    var reference := Field(h, schema, "$ref");
    if !reference.Text? || !("#/" <= reference.text) {
      return schema;
    }
    var current := Record(root);
    var segments := Split(reference.text[2..], '/');
    for i := 0 to |segments|
      invariant Follow(h, current, segments[i..]) == Follow(h, Record(root), segments)
    {
      assert segments[i..][1..] == segments[i + 1..];
      current := if current.Record? then Field(h, current.id, Unescape(segments[i])) else Other;
    }
    assert segments[|segments|..] == [];
    return if current.Record? then current.id else schema;
  }

  // ---- What a reference leads to ----

  /** From record to record, each the value of the next name. */
  predicate Leads(h: Heap, names: seq<string>, path: seq<Id>) {
    |path| == |names| + 1 && forall i | 0 <= i < |names| :: FieldLeads(h, path[i], names[i], path[i + 1])
  }

  predicate FieldLeads(h: Heap, from: Id, name: string, to: Id) {
    from in h && name in h[from] && h[from][name] == Record(to)
  }

  lemma {:induction false} FollowPath(h: Heap, names: seq<string>, path: seq<Id>)
    requires Leads(h, names, path)
    ensures Follow(h, Record(path[0]), EscapeAll(names)) == Record(path[|names|])
    decreases |names|
  {
    if names != [] {
      assert FieldLeads(h, path[0], names[0], path[1]);
      EscapeRoundTrip(names[0]);
      assert EscapeAll(names)[1..] == EscapeAll(names[1..]);
      forall i | 0 <= i < |names[1..]| ensures FieldLeads(h, path[1..][i], names[1..][i], path[1..][i + 1]) {
        assert FieldLeads(h, path[i + 1], names[i + 1], path[i + 1 + 1]);
      }
      FollowPath(h, names[1..], path[1..]);
    }
  }

  lemma {:induction false} FollowOther(h: Heap, segments: seq<string>, current: Json)
    requires !current.Record?
    ensures !Follow(h, current, segments).Record?
    decreases |segments|
  {
    if segments != [] { FollowOther(h, segments[1..], Other); }
  }

  lemma {:induction false} FollowHasPath(h: Heap, names: seq<string>, from: Id) returns (path: seq<Id>)
    requires Follow(h, Record(from), EscapeAll(names)).Record?
    ensures Leads(h, names, path) && path[0] == from
    decreases |names|
  {
    if names == [] {
      path := [from];
    } else {
      EscapeRoundTrip(names[0]);
      assert EscapeAll(names)[1..] == EscapeAll(names[1..]);
      var next := Field(h, from, names[0]);
      if !next.Record? { FollowOther(h, EscapeAll(names[1..]), next); }
      var rest := FollowHasPath(h, names[1..], next.id);
      path := [from] + rest;
      forall i | 0 <= i < |names| ensures FieldLeads(h, path[i], names[i], path[i + 1]) {
        if i > 0 { assert FieldLeads(h, rest[i - 1], names[1..][i - 1], rest[i - 1 + 1]); }
      }
    }
  }

  /** The text of a reference to the record that these names lead to from the root. */
  function PointerText(names: seq<string>): string {
    "#/" + Join(EscapeAll(names), '/')
  }

  lemma {:induction false} PointerParts(names: seq<string>)
    requires names != []
    ensures "#/" <= PointerText(names) && Split(PointerText(names)[2..], '/') == EscapeAll(names)
  {
    PointerRoundTrip(names);
    assert PointerText(names)[2..] == Join(EscapeAll(names), '/');
  }

  /** A schema with a reference stands for the record that the reference's names lead to from
      the root; if they lead to none, or there is no reference into the document, for itself. */
  lemma {:induction false} ResolveMeans(h: Heap, root: Id, schema: Id, names: seq<string>)
    requires names != [] && Field(h, schema, "$ref") == Text(PointerText(names))
    ensures forall path | Leads(h, names, path) && path[0] == root :: Resolve(h, root, schema) == path[|names|]
    ensures (forall path | Leads(h, names, path) :: path[0] != root) ==> Resolve(h, root, schema) == schema
  {
    PointerParts(names);
    forall path | Leads(h, names, path) && path[0] == root ensures Resolve(h, root, schema) == path[|names|] {
      FollowPath(h, names, path);
    }
    if Follow(h, Record(root), EscapeAll(names)).Record? {
      var path := FollowHasPath(h, names, root);
    }
  }

  lemma {:induction false} ResolveItself(h: Heap, root: Id, schema: Id)
    requires match Field(h, schema, "$ref")
             case Text(text) => |text| < 2 || text[0] != '#' || text[1] != '/'
             case _ => true
    ensures Resolve(h, root, schema) == schema
  {}

  // ---- Branches ----

  function Records(items: seq<Json>): seq<Id> {
    if items == [] then []
    else (if items[0].Record? then [items[0].id] else []) + Records(items[1..])
  }

  function BranchesUnder(h: Heap, id: Id, keys: seq<string>): seq<Id> {
    if keys == [] then []
    else
      var value := Field(h, id, keys[0]);
      (if value.Array? then Records(value.items) else []) + BranchesUnder(h, id, keys[1..])
  }

  const ALL_BRANCHES: seq<string> := ["allOf", "anyOf", "oneOf"]
  const REQUIRED_BRANCHES: seq<string> := ["allOf"]

  /** The schemas one step below a resolved schema, themselves resolved. */
  function Below(h: Heap, root: Id, id: Id, keys: seq<string>): set<Id> {
    set b | b in BranchesUnder(h, id, keys) :: Resolve(h, root, b)
  }

  /** A branch is a record in the array under one of the keys. */
  predicate BranchAt(h: Heap, id: Id, key: string, b: Id) {
    id in h && key in h[id] && h[id][key].Array? && Record(b) in h[id][key].items
  }

  lemma {:induction false} RecordsMean(items: seq<Json>, b: Id)
    ensures b in Records(items) <==> Record(b) in items
  {
    if items != [] { RecordsMean(items[1..], b); }
  }

  lemma {:induction false} RecordsConcat(a: seq<Json>, b: seq<Json>)
    ensures Records(a + b) == Records(a) + Records(b)
  {
    if a == [] {
      assert a + b == b;
    } else {
      RecordsConcat(a[1..], b);
      assert (a + b)[0] == a[0] && (a + b)[1..] == a[1..] + b;
      RecordsFirst(a + b, a[0], a[1..] + b);
      RecordsFirst(a, a[0], a[1..]);
    }
  }

  lemma {:induction false} RecordsFirst(items: seq<Json>, first: Json, rest: seq<Json>)
    requires items != [] && items[0] == first && items[1..] == rest
    ensures Records(items) == (if first.Record? then [first.id] else []) + Records(rest)
  {}

  lemma {:induction false} RecordsAround(a: seq<Json>, x: Id, b: seq<Json>)
    ensures Records(a + [Record(x)] + b) == Records(a) + [x] + Records(b)
  {
    RecordsConcat(a + [Record(x)], b);
    RecordsConcat(a, [Record(x)]);
    RecordsFirst([Record(x)], Record(x), []);
  }

  /** Branches come in the order of the kinds, and within a kind in the order of its array:
      one that stands before another is visited before it. */
  lemma {:induction false} BranchesInOrder(h: Heap, id: Id, left: seq<string>, key: string, right: seq<string>,
                                           a: seq<Json>, x: Id, b: seq<Json>)
    requires id in h && key in h[id] && h[id][key] == Array(a + [Record(x)] + b)
    ensures BranchesUnder(h, id, left + [key] + right) ==
            BranchesUnder(h, id, left) + Records(a) + [x] + Records(b) + BranchesUnder(h, id, right)
    decreases |left|
  {
    if left == [] {
      RecordsAround(a, x, b);
      assert (left + [key] + right)[0] == key && (left + [key] + right)[1..] == right;
    } else {
      BranchesInOrder(h, id, left[1..], key, right, a, x, b);
      assert (left + [key] + right)[0] == left[0];
      assert (left + [key] + right)[1..] == left[1..] + [key] + right;
    }
  }

  lemma {:induction false} BranchesMean(h: Heap, id: Id, keys: seq<string>, b: Id)
    ensures b in BranchesUnder(h, id, keys) <==> exists key :: key in keys && BranchAt(h, id, key, b)
  {
    if keys != [] {
      var value := Field(h, id, keys[0]);
      BranchesMean(h, id, keys[1..], b);
      if value.Array? { RecordsMean(value.items, b); }
      if BranchAt(h, id, keys[0], b) { assert keys[0] in keys; }
      if b in BranchesUnder(h, id, keys[1..]) {
        var key :| key in keys[1..] && BranchAt(h, id, key, b);
        assert key in keys;
      }
    }
  }

  /** Properties come from the branches of all three kinds, required fields from `allOf`. */
  lemma {:induction false} BranchKinds(h: Heap, id: Id, b: Id)
    ensures b in BranchesUnder(h, id, ALL_BRANCHES) <==>
            BranchAt(h, id, "allOf", b) || BranchAt(h, id, "anyOf", b) || BranchAt(h, id, "oneOf", b)
    ensures b in BranchesUnder(h, id, REQUIRED_BRANCHES) <==> BranchAt(h, id, "allOf", b)
  {
    BranchesMean(h, id, ALL_BRANCHES, b);
    BranchesMean(h, id, REQUIRED_BRANCHES, b);
    assert ALL_BRANCHES[0] == "allOf" && ALL_BRANCHES[1] == "anyOf" && ALL_BRANCHES[2] == "oneOf";
    assert REQUIRED_BRANCHES[0] == "allOf";
  }

  // ---- Reachability ----

  predicate Path(h: Heap, root: Id, keys: seq<string>, p: seq<Id>) {
    p != [] && forall i | 0 <= i < |p| - 1 :: p[i + 1] in Below(h, root, p[i], keys)
  }

  ghost predicate Reaches(h: Heap, root: Id, keys: seq<string>, a: Id, b: Id) {
    exists p :: Path(h, root, keys, p) && p[0] == a && p[|p| - 1] == b
  }

  lemma {:induction false} ReachesSelf(h: Heap, root: Id, keys: seq<string>, a: Id)
    ensures Reaches(h, root, keys, a, a)
  {
    assert Path(h, root, keys, [a]);
  }

  lemma {:induction false} ReachesStep(h: Heap, root: Id, keys: seq<string>, a: Id, b: Id, c: Id)
    requires b in Below(h, root, a, keys) && Reaches(h, root, keys, b, c)
    ensures Reaches(h, root, keys, a, c)
  {
    var p :| Path(h, root, keys, p) && p[0] == b && p[|p| - 1] == c;
    var q := [a] + p;
    forall i | 0 <= i < |q| - 1 ensures q[i + 1] in Below(h, root, q[i], keys) {
      assert i > 0 ==> p[i] in Below(h, root, p[i - 1], keys);
    }
    assert Path(h, root, keys, q);
  }

  ghost predicate Closed(h: Heap, root: Id, keys: seq<string>, s: set<Id>) {
    forall x | x in s :: Below(h, root, x, keys) <= s
  }

  lemma {:induction false} ClosedKeepsPaths(h: Heap, root: Id, keys: seq<string>, s: set<Id>, p: seq<Id>)
    requires Closed(h, root, keys, s) && Path(h, root, keys, p) && p[0] in s
    ensures p[|p| - 1] in s
  {
    if |p| > 1 {
      assert p[1] in Below(h, root, p[0], keys);
      forall i | 0 <= i < |p[1..]| - 1 ensures p[1..][i + 1] in Below(h, root, p[1..][i], keys) {
        assert p[i + 1 + 1] in Below(h, root, p[i + 1], keys);
      }
      ClosedKeepsPaths(h, root, keys, s, p[1..]);
    }
  }

  // ---- The search ----

  /** The records visited by the search, in order, when `seen` were visited before. */
  function Visit(h: Heap, root: Id, keys: seq<string>, schema: Id, seen: set<Id>): seq<Id>
    decreases h.Keys - seen, 0, 0
  {
    var r := Resolve(h, root, schema);
    if r in seen then []
    else if r !in h then [r]
    else [r] + VisitAll(h, root, keys, BranchesUnder(h, r, keys), seen + {r})
  }

  function VisitAll(h: Heap, root: Id, keys: seq<string>, branches: seq<Id>, seen: set<Id>): seq<Id>
    decreases h.Keys - seen, 1, |branches|
  {
    if branches == [] then []
    else
      var first := Visit(h, root, keys, branches[0], seen);
      first + VisitAll(h, root, keys, branches[1..], seen + Elements(first))
  }

  /** The search has explored: its new records lead only to records seen by now. */
  ghost predicate Explored(h: Heap, root: Id, keys: seq<string>, seen: set<Id>, order: seq<Id>) {
    forall x | x in order :: x !in seen && Below(h, root, x, keys) <= seen + Elements(order)
  }

  lemma {:induction false} VisitExplores(h: Heap, root: Id, keys: seq<string>, schema: Id, seen: set<Id>)
    ensures var order := Visit(h, root, keys, schema, seen);
            && Resolve(h, root, schema) in seen + Elements(order)
            && Explored(h, root, keys, seen, order) && NoDuplicates(order)
            && forall x | x in order :: Reaches(h, root, keys, Resolve(h, root, schema), x)
    decreases h.Keys - seen, 0, 0
  {
    var r := Resolve(h, root, schema);
    if r !in seen {
      ReachesSelf(h, root, keys, r);
      if r !in h {
        NothingBelow(h, root, keys, r);
      } else {
        var branches := BranchesUnder(h, r, keys);
        VisitAllExplores(h, root, keys, branches, seen + {r});
        var rest := VisitAll(h, root, keys, branches, seen + {r});
        var order := [r] + rest;
        assert r !in rest;
        assert Elements(order) == {r} + Elements(rest);
        assert seen + {r} + Elements(rest) == seen + Elements(order);
        forall x | x in rest ensures Reaches(h, root, keys, r, x) {
          var b :| b in branches && Reaches(h, root, keys, Resolve(h, root, b), x);
          ReachesStep(h, root, keys, r, Resolve(h, root, b), x);
        }
      }
    }
  }

  lemma {:induction false} NothingBelow(h: Heap, root: Id, keys: seq<string>, id: Id)
    requires id !in h
    ensures BranchesUnder(h, id, keys) == [] && Below(h, root, id, keys) == {}
  {
    if keys != [] { NothingBelow(h, root, keys[1..], id); }
  }

  lemma {:induction false} VisitAllExplores(h: Heap, root: Id, keys: seq<string>, branches: seq<Id>, seen: set<Id>)
    ensures var order := VisitAll(h, root, keys, branches, seen);
            && (forall b | b in branches :: Resolve(h, root, b) in seen + Elements(order))
            && Explored(h, root, keys, seen, order) && NoDuplicates(order)
            && forall x | x in order :: exists b :: b in branches && Reaches(h, root, keys, Resolve(h, root, b), x)
    decreases h.Keys - seen, 1, |branches|
  {
    if branches != [] {
      var first := Visit(h, root, keys, branches[0], seen);
      var seen' := seen + Elements(first);
      var rest := VisitAll(h, root, keys, branches[1..], seen');
      VisitExplores(h, root, keys, branches[0], seen);
      VisitAllExplores(h, root, keys, branches[1..], seen');
      var order := first + rest;
      assert forall x | x in first :: x in seen' && x !in rest;
      DistinctConcat(first, rest);
      assert seen + Elements(order) == seen' + Elements(rest);
      forall x | x in order ensures exists b :: b in branches && Reaches(h, root, keys, Resolve(h, root, b), x) {
        if x in first {
          assert branches[0] in branches;
        } else {
          var b :| b in branches[1..] && Reaches(h, root, keys, Resolve(h, root, b), x);
          assert b in branches;
        }
      }
    }
  }

  /** From an empty `seen` set, the search visits exactly the reachable schemas, although
      siblings share the set. */
  lemma {:induction false} VisitIsReachability(h: Heap, root: Id, keys: seq<string>, schema: Id, x: Id)
    ensures x in Visit(h, root, keys, schema, {}) <==> Reaches(h, root, keys, Resolve(h, root, schema), x)
  {
    var order := Visit(h, root, keys, schema, {});
    VisitExplores(h, root, keys, schema, {});
    if Reaches(h, root, keys, Resolve(h, root, schema), x) {
      var p :| Path(h, root, keys, p) && p[0] == Resolve(h, root, schema) && p[|p| - 1] == x;
      assert Closed(h, root, keys, Elements(order));
      ClosedKeepsPaths(h, root, keys, Elements(order), p);
    }
  }

  // ---- What is collected ----

  function PropertiesOf(h: Heap, id: Id): map<string, Json> {
    var value := Field(h, id, "properties");
    if value.Record? && value.id in h then h[value.id] else map[]
  }

  function Merge(h: Heap, order: seq<Id>): map<string, Json> {
    if order == [] then map[] else PropertiesOf(h, order[0]) + Merge(h, order[1..])
  }

  function Strings(items: seq<Json>): set<string> {
    set i | 0 <= i < |items| && items[i].Text? :: items[i].text
  }

  function RequiredOf(h: Heap, id: Id): set<string> {
    var value := Field(h, id, "required");
    if value.Array? then Strings(value.items) else {}
  }

  function Union(h: Heap, order: seq<Id>): set<string> {
    if order == [] then {} else RequiredOf(h, order[0]) + Union(h, order[1..])
  }

  /** The declarations of one schema: the record under "properties", and the strings in the
      array under "required". */
  lemma {:induction false} DeclarationsMean(h: Heap, id: Id, k: string)
    ensures k in PropertiesOf(h, id) <==>
            exists p :: FieldLeads(h, id, "properties", p) && p in h && k in h[p] && PropertiesOf(h, id)[k] == h[p][k]
    ensures k in RequiredOf(h, id) <==>
            id in h && "required" in h[id] && h[id]["required"].Array? && Text(k) in h[id]["required"].items
  {
    var value := Field(h, id, "properties");
    if k in PropertiesOf(h, id) { assert FieldLeads(h, id, "properties", value.id); }
    var required := Field(h, id, "required");
    if required.Array? && Text(k) in required.items {
      var i :| 0 <= i < |required.items| && required.items[i] == Text(k);
      assert required.items[i].Text? && required.items[i].text == k;
    }
  }

  /** Of several declarations of a property the one visited last counts. */
  lemma {:induction false} LastDeclarationWins(h: Heap, order: seq<Id>, k: string, i: nat)
    requires i < |order| && k in PropertiesOf(h, order[i])
    requires forall j | i < j < |order| :: k !in PropertiesOf(h, order[j])
    ensures k in Merge(h, order) && Merge(h, order)[k] == PropertiesOf(h, order[i])[k]
  {
    if i > 0 {
      LastDeclarationWins(h, order[1..], k, i - 1);
    } else {
      MergeKeys(h, order[1..], k);
    }
  }

  /** The visit begins with the schema itself and goes on branch by branch, so that branches
      override the schema and later branches earlier ones. */
  lemma {:induction false} VisitInOrder(h: Heap, root: Id, keys: seq<string>, schema: Id, a: seq<Id>, b: seq<Id>,
                                        seen: set<Id>)
    ensures Visit(h, root, keys, schema, {}) != []
    ensures Visit(h, root, keys, schema, {})[0] == Resolve(h, root, schema)
    ensures VisitAll(h, root, keys, a + b, seen) ==
            var first := VisitAll(h, root, keys, a, seen);
            first + VisitAll(h, root, keys, b, seen + Elements(first))
    decreases |a|
  {
    if a == [] {
      assert a + b == b && seen + Elements([]) == seen;
    } else {
      var head := Visit(h, root, keys, a[0], seen);
      var seen' := seen + Elements(head);
      assert (a + b)[1..] == a[1..] + b;
      VisitInOrder(h, root, keys, schema, a[1..], b, seen');
      var rest := VisitAll(h, root, keys, a[1..], seen');
      ElementsConcat(head, rest);
      assert seen' + Elements(rest) == seen + Elements(head + rest);
      Assoc(head, rest, VisitAll(h, root, keys, b, seen + Elements(head + rest)));
    }
  }

  lemma {:induction false} MergeConcat(h: Heap, a: seq<Id>, b: seq<Id>)
    ensures Merge(h, a + b) == Merge(h, a) + Merge(h, b)
  {
    if a == [] {
      assert a + b == b;
    } else {
      assert (a + b)[1..] == a[1..] + b;
      MergeConcat(h, a[1..], b);
      OverlayAssoc(PropertiesOf(h, a[0]), Merge(h, a[1..]), Merge(h, b));
    }
  }

  lemma {:induction false} OverlayAssoc(a: map<string, Json>, b: map<string, Json>, c: map<string, Json>)
    ensures (a + b) + c == a + (b + c)
  {}

  lemma {:induction false} UnionConcat(h: Heap, a: seq<Id>, b: seq<Id>)
    ensures Union(h, a + b) == Union(h, a) + Union(h, b)
  {
    if a == [] {
      assert a + b == b;
    } else {
      assert (a + b)[1..] == a[1..] + b;
      UnionConcat(h, a[1..], b);
    }
  }

  lemma {:induction false} MergeKeys(h: Heap, order: seq<Id>, k: string)
    ensures k in Merge(h, order) <==> exists x :: x in order && k in PropertiesOf(h, x)
    ensures k in Merge(h, order) ==>
              exists x :: x in order && k in PropertiesOf(h, x) && Merge(h, order)[k] == PropertiesOf(h, x)[k]
  {
    if order != [] {
      MergeKeys(h, order[1..], k);
      if k in Merge(h, order[1..]) {
        var x :| x in order[1..] && k in PropertiesOf(h, x) && Merge(h, order[1..])[k] == PropertiesOf(h, x)[k];
        assert x in order;
      } else if k in PropertiesOf(h, order[0]) {
        assert order[0] in order;
      }
    }
  }

  lemma {:induction false} UnionElements(h: Heap, order: seq<Id>, k: string)
    ensures k in Union(h, order) <==> exists x :: x in order && k in RequiredOf(h, x)
  {
    if order != [] {
      UnionElements(h, order[1..], k);
      if k in RequiredOf(h, order[0]) { assert order[0] in order; }
      if k in Union(h, order[1..]) {
        var x :| x in order[1..] && k in RequiredOf(h, x);
        assert x in order;
      }
    }
  }

  lemma {:induction false} VisitAllStep(h: Heap, root: Id, keys: seq<string>, branches: seq<Id>, i: nat,
                                        seen: set<Id>, order: seq<Id>, total: seq<Id>)
    requires i < |branches| && total == order + VisitAll(h, root, keys, branches[i..], seen)
    ensures var more := Visit(h, root, keys, branches[i], seen);
            total == (order + more) + VisitAll(h, root, keys, branches[i + 1..], seen + Elements(more))
  {
    assert branches[i..][1..] == branches[i + 1..];
  }

  lemma {:induction false} ElementsConcat(a: seq<Id>, b: seq<Id>)
    ensures Elements(a + b) == Elements(a) + Elements(b)
  {}

  // ---- The walkers ----

  /** One walk with its `seen` set, which all recursive calls share. */
  class Walk {
    const h: Heap
    const root: Id
    var seen: set<Id>

    constructor (h: Heap, root: Id)
      ensures this.h == h && this.root == root && seen == {}
    {
      this.h, this.root, seen := h, root, {};
    }

    method SchemaProperties(schema: Id) returns (properties: map<string, Json>)
      modifies this
      ensures var order := Visit(h, root, ALL_BRANCHES, schema, old(seen));
              seen == old(seen) + Elements(order) && properties == Merge(h, order)
      decreases h.Keys - seen, 0
    {
      var resolved := ResolvedSchema(h, root, schema);
      if resolved in seen {
        return map[];
      }
      if resolved !in h {
        NothingBelow(h, root, ALL_BRANCHES, resolved);
      }
      ghost var was := seen;
      seen := seen + {resolved};
      var branches := BranchesUnder(h, resolved, ALL_BRANCHES);
      ghost var rest := VisitAll(h, root, ALL_BRANCHES, branches, seen);
      if branches != [] {
        assert h.Keys - seen < h.Keys - was by { assert resolved in h.Keys - was && resolved !in h.Keys - seen; }
        var below := BranchProperties(branches);
        properties := PropertiesOf(h, resolved) + below;
      } else {
        properties := PropertiesOf(h, resolved);
      }
      assert Merge(h, [resolved] + rest) == PropertiesOf(h, resolved) + Merge(h, rest) by {
        assert ([resolved] + rest)[1..] == rest;
      }
      assert Elements([resolved] + rest) == {resolved} + Elements(rest);
      assert Visit(h, root, ALL_BRANCHES, schema, was) == [resolved] + rest;
    }

    method BranchProperties(branches: seq<Id>) returns (properties: map<string, Json>)
      modifies this
      ensures var order := VisitAll(h, root, ALL_BRANCHES, branches, old(seen));
              seen == old(seen) + Elements(order) && properties == Merge(h, order)
      decreases h.Keys - seen, 1
    {
      ghost var was := seen;
      properties := map[];
      ghost var order: seq<Id> := [];
      ghost var total := VisitAll(h, root, ALL_BRANCHES, branches, was);
      assert branches[0..] == branches;
      for i := 0 to |branches|
        invariant seen == was + Elements(order) && properties == Merge(h, order)
        invariant total == order + VisitAll(h, root, ALL_BRANCHES, branches[i..], seen)
      {
        VisitAllStep(h, root, ALL_BRANCHES, branches, i, seen, order, total);
        ghost var more := Visit(h, root, ALL_BRANCHES, branches[i], seen);
        assert h.Keys - seen <= h.Keys - was;
        var found := SchemaProperties(branches[i]);
        properties := properties + found;
        MergeConcat(h, order, more);
        ElementsConcat(order, more);
        order := order + more;
      }
      assert branches[|branches|..] == [] && total == order;
    }

    method SchemaRequiredFields(schema: Id) returns (required: set<string>)
      modifies this
      ensures var order := Visit(h, root, REQUIRED_BRANCHES, schema, old(seen));
              seen == old(seen) + Elements(order) && required == Union(h, order)
      decreases h.Keys - seen, 0
    {
      var resolved := ResolvedSchema(h, root, schema);
      if resolved in seen {
        return {};
      }
      if resolved !in h {
        NothingBelow(h, root, REQUIRED_BRANCHES, resolved);
      }
      ghost var was := seen;
      seen := seen + {resolved};
      var branches := BranchesUnder(h, resolved, REQUIRED_BRANCHES);
      ghost var rest := VisitAll(h, root, REQUIRED_BRANCHES, branches, seen);
      if branches != [] {
        assert h.Keys - seen < h.Keys - was by { assert resolved in h.Keys - was && resolved !in h.Keys - seen; }
        var below := BranchRequired(branches);
        required := RequiredOf(h, resolved) + below;
      } else {
        required := RequiredOf(h, resolved);
      }
      assert Union(h, [resolved] + rest) == RequiredOf(h, resolved) + Union(h, rest) by {
        assert ([resolved] + rest)[1..] == rest;
      }
      assert Elements([resolved] + rest) == {resolved} + Elements(rest);
      assert Visit(h, root, REQUIRED_BRANCHES, schema, was) == [resolved] + rest;
    }

    method BranchRequired(branches: seq<Id>) returns (required: set<string>)
      modifies this
      ensures var order := VisitAll(h, root, REQUIRED_BRANCHES, branches, old(seen));
              seen == old(seen) + Elements(order) && required == Union(h, order)
      decreases h.Keys - seen, 1
    {
      ghost var was := seen;
      required := {};
      ghost var order: seq<Id> := [];
      ghost var total := VisitAll(h, root, REQUIRED_BRANCHES, branches, was);
      assert branches[0..] == branches;
      for i := 0 to |branches|
        invariant seen == was + Elements(order) && required == Union(h, order)
        invariant total == order + VisitAll(h, root, REQUIRED_BRANCHES, branches[i..], seen)
      {
        VisitAllStep(h, root, REQUIRED_BRANCHES, branches, i, seen, order, total);
        ghost var more := Visit(h, root, REQUIRED_BRANCHES, branches[i], seen);
        assert h.Keys - seen <= h.Keys - was;
        var found := SchemaRequiredFields(branches[i]);
        required := required + found;
        UnionConcat(h, order, more);
        ElementsConcat(order, more);
        order := order + more;
      }
      assert branches[|branches|..] == [] && total == order;
    }
  }

  /** A fresh walk finds exactly the property names of the reachable schemas, each with a
      value that one of them gives it. */
  method CollectProperties(h: Heap, root: Id, schema: Id) returns (properties: map<string, Json>)
    ensures forall k :: k in properties <==>
              exists x :: Reaches(h, root, ALL_BRANCHES, Resolve(h, root, schema), x) && k in PropertiesOf(h, x)
    ensures properties == Merge(h, Visit(h, root, ALL_BRANCHES, schema, {}))
  {
    var walk := new Walk(h, root);
    properties := walk.SchemaProperties(schema);
    forall k ensures k in properties <==>
      exists x :: Reaches(h, root, ALL_BRANCHES, Resolve(h, root, schema), x) && k in PropertiesOf(h, x)
    {
      PropertiesReachable(h, root, schema, k);
    }
  }

  /** The same for required fields, over `allOf` only. */
  method CollectRequired(h: Heap, root: Id, schema: Id) returns (required: set<string>)
    ensures forall k :: k in required <==>
              exists x :: Reaches(h, root, REQUIRED_BRANCHES, Resolve(h, root, schema), x) && k in RequiredOf(h, x)
  {
    var walk := new Walk(h, root);
    required := walk.SchemaRequiredFields(schema);
    forall k ensures k in required <==>
      exists x :: Reaches(h, root, REQUIRED_BRANCHES, Resolve(h, root, schema), x) && k in RequiredOf(h, x)
    {
      RequiredReachable(h, root, schema, k);
    }
  }

  lemma {:induction false} PropertiesReachable(h: Heap, root: Id, schema: Id, k: string)
    ensures k in Merge(h, Visit(h, root, ALL_BRANCHES, schema, {})) <==>
            exists x :: Reaches(h, root, ALL_BRANCHES, Resolve(h, root, schema), x) && k in PropertiesOf(h, x)
  {
    var order := Visit(h, root, ALL_BRANCHES, schema, {});
    MergeKeys(h, order, k);
    forall x ensures x in order <==> Reaches(h, root, ALL_BRANCHES, Resolve(h, root, schema), x) {
      VisitIsReachability(h, root, ALL_BRANCHES, schema, x);
    }
  }

  lemma {:induction false} RequiredReachable(h: Heap, root: Id, schema: Id, k: string)
    ensures k in Union(h, Visit(h, root, REQUIRED_BRANCHES, schema, {})) <==>
            exists x :: Reaches(h, root, REQUIRED_BRANCHES, Resolve(h, root, schema), x) && k in RequiredOf(h, x)
  {
    var order := Visit(h, root, REQUIRED_BRANCHES, schema, {});
    UnionElements(h, order, k);
    forall x ensures x in order <==> Reaches(h, root, REQUIRED_BRANCHES, Resolve(h, root, schema), x) {
      VisitIsReachability(h, root, REQUIRED_BRANCHES, schema, x);
    }
  }
}
