/** The fields of a type: properties of the schema and of its object-valued properties, to
a nesting of twelve, each with the reference that names it. */
module TypeFields {
  import opened Options
  import opened Sequences
  import opened FieldReferences
  import opened SchemaWalk

  const MAX_DEPTH := 12

  datatype Found = Found(path: seq<string>, required: bool)

  /** What the enumeration asks about a schema: the names of its properties, the required
      ones, and the object schema of a property if it has one. */
  datatype Shape = Shape(names: Id -> set<string>, required: Id -> set<string>, inside: (Id, string) -> Option<Id>)

  /** `path` names a field below `node`: each step a property of the schema so far. */
  predicate IsField(d: Shape, node: Id, path: seq<string>, depth: nat)
    decreases |path|
  {
    && depth <= MAX_DEPTH && path != [] && path[0] in d.names(node)
    && (|path| == 1 ||
        (d.inside(node, path[0]).Some? && IsField(d, d.inside(node, path[0]).value, path[1..], depth + 1)))
  }

  /** Every step of the path is required by the schema it is taken from. */
  predicate IsRequired(d: Shape, node: Id, path: seq<string>)
    decreases |path|
  {
    && path != [] && path[0] in d.names(node) && path[0] in d.required(node)
    && (|path| == 1 ||
        (d.inside(node, path[0]).Some? && IsRequired(d, d.inside(node, path[0]).value, path[1..])))
  }

  /** The schemas that a path goes through: the first is `node`, each next one the object schema
      of the property before it. */
  predicate Through(d: Shape, node: Id, path: seq<string>, nodes: seq<Id>) {
    && |nodes| == |path| && (path != [] ==> nodes[0] == node)
    && forall i | 0 <= i < |path| - 1 :: Enters(d, nodes[i], path[i], nodes[i + 1])
  }

  predicate Enters(d: Shape, from: Id, name: string, to: Id) {
    d.inside(from, name) == Some(to)
  }

  lemma {:induction false} ThroughRest(d: Shape, node: Id, path: seq<string>, nodes: seq<Id>)
    requires |path| > 1 && Through(d, node, path, nodes)
    ensures d.inside(node, path[0]) == Some(nodes[1]) && Through(d, nodes[1], path[1..], nodes[1..])
  {
    assert Enters(d, nodes[0], path[0], nodes[1]);
    forall i | 0 <= i < |path[1..]| - 1 ensures Enters(d, nodes[1..][i], path[1..][i], nodes[1..][i + 1]) {
      assert Enters(d, nodes[i + 1], path[i + 1], nodes[i + 1 + 1]);
    }
  }

  predicate AllDeclared(d: Shape, path: seq<string>, nodes: seq<Id>)
    requires |nodes| == |path|
  {
    forall i | 0 <= i < |path| :: path[i] in d.names(nodes[i])
  }

  predicate AllRequired(d: Shape, path: seq<string>, nodes: seq<Id>)
    requires |nodes| == |path|
  {
    forall i | 0 <= i < |path| :: path[i] in d.required(nodes[i])
  }

  lemma {:induction false} DeclaredRest(d: Shape, path: seq<string>, nodes: seq<Id>)
    requires |nodes| == |path| > 0
    ensures AllDeclared(d, path, nodes) <==> path[0] in d.names(nodes[0]) && AllDeclared(d, path[1..], nodes[1..])
    ensures AllRequired(d, path, nodes) <==> path[0] in d.required(nodes[0]) && AllRequired(d, path[1..], nodes[1..])
  {
    if AllDeclared(d, path[1..], nodes[1..]) {
      forall i | 0 < i < |path| ensures path[i] in d.names(nodes[i]) {
        assert path[1..][i - 1] in d.names(nodes[1..][i - 1]);
      }
    }
    if AllRequired(d, path[1..], nodes[1..]) {
      forall i | 0 < i < |path| ensures path[i] in d.required(nodes[i]) {
        assert path[1..][i - 1] in d.required(nodes[1..][i - 1]);
      }
    }
  }

  /** A path along schemas is a field exactly when each name is a property of its schema and the
      path, with the nesting before it, has at most thirteen names; it is required exactly when
      moreover each schema requires its name. */
  lemma {:induction false} FieldMeans(d: Shape, node: Id, path: seq<string>, nodes: seq<Id>, depth: nat)
    requires path != [] && Through(d, node, path, nodes)
    ensures IsField(d, node, path, depth) <==> depth + |path| <= 13 && AllDeclared(d, path, nodes)
    ensures IsRequired(d, node, path) <==> AllDeclared(d, path, nodes) && AllRequired(d, path, nodes)
    decreases |path|
  {
    DeclaredRest(d, path, nodes);
    if |path| > 1 {
      ThroughRest(d, node, path, nodes);
      FieldMeans(d, nodes[1], path[1..], nodes[1..], depth + 1);
    }
  }

  /** And every field goes along schemas. */
  lemma {:induction false} FieldGoesThrough(d: Shape, node: Id, path: seq<string>, depth: nat) returns (nodes: seq<Id>)
    requires IsField(d, node, path, depth)
    ensures Through(d, node, path, nodes)
    decreases |path|
  {
    if |path| == 1 {
      nodes := [node];
    } else {
      var rest := FieldGoesThrough(d, d.inside(node, path[0]).value, path[1..], depth + 1);
      nodes := [node] + rest;
      forall i | 0 <= i < |path| - 1 ensures Enters(d, nodes[i], path[i], nodes[i + 1]) {
        if i > 0 { assert Enters(d, rest[i - 1], path[1..][i - 1], rest[i - 1 + 1]); }
      }
    }
  }

  /** A found field as it should be: below `prefix`, and required as its path says. */
  predicate Proper(d: Shape, node: Id, prefix: seq<string>, parentRequired: bool, depth: nat, f: Found) {
    && |prefix| < |f.path| && f.path[..|prefix|] == prefix
    && IsField(d, node, f.path[|prefix|..], depth)
    && f.required == (parentRequired && IsRequired(d, node, f.path[|prefix|..]))
  }

  predicate AllProper(d: Shape, node: Id, prefix: seq<string>, parentRequired: bool, depth: nat, found: seq<Found>) {
    forall i | 0 <= i < |found| :: Proper(d, node, prefix, parentRequired, depth, found[i])
  }

  predicate DistinctPaths(found: seq<Found>) {
    forall i, j | 0 <= i < j < |found| :: found[i].path != found[j].path
  }

  predicate Has(found: seq<Found>, path: seq<string>) {
    exists i :: 0 <= i < |found| && found[i].path == path
  }

  /** A field one level further in is a field. */
  lemma {:induction false} ProperInside(d: Shape, node: Id, prefix: seq<string>, parentRequired: bool, depth: nat,
                                        name: string, f: Found)
    requires depth <= MAX_DEPTH && name in d.names(node) && d.inside(node, name).Some?
    requires Proper(d, d.inside(node, name).value, prefix + [name],
                    parentRequired && name in d.required(node), depth + 1, f)
    ensures Proper(d, node, prefix, parentRequired, depth, f) && f.path[|prefix|] == name && |f.path| > |prefix| + 1
  {
    var s := f.path[|prefix|..];
    assert f.path[..|prefix| + 1] == prefix + [name];
    assert f.path[|prefix|] == (prefix + [name])[|prefix|] == name;
    assert f.path[..|prefix|] == (prefix + [name])[..|prefix|] == prefix;
    assert s[0] == name && s[1..] == f.path[|prefix + [name]|..];
  }

  function FieldsAt(d: Shape, node: Id, depth: nat): seq<string> -> bool {
    (s: seq<string>) => IsField(d, node, s, depth)
  }

  /** Names handled by the loop so far: their fields are all there, and no others. */
  ghost predicate Covers(wanted: seq<string> -> bool, prefix: seq<string>, done: set<string>, found: seq<Found>) {
    && (forall i | 0 <= i < |found| :: |prefix| < |found[i].path| && found[i].path[|prefix|] in done)
    && (forall s | wanted(s) && s != [] && s[0] in done :: Has(found, prefix + s))
  }

  lemma {:induction false} CoversStep(wanted: seq<string> -> bool, prefix: seq<string>, done: set<string>,
                                      found: seq<Found>,
                   name: string, own: Found, below: seq<Found>)
    requires Covers(wanted, prefix, done, found) && own.path == prefix + [name]
    requires forall i | 0 <= i < |below| :: |prefix| < |below[i].path| && below[i].path[|prefix|] == name
    requires forall s | wanted(s) && |s| > 1 && s[0] == name :: Has(below, prefix + [name] + s[1..])
    ensures Covers(wanted, prefix, done + {name}, found + [own] + below)
  {
    forall s | wanted(s) && s != [] && s[0] in done + {name} ensures Has(found + [own] + below, prefix + s) {
      if s[0] !in done {
        if |s| == 1 {
          assert s == [name];
          assert Has([own], prefix + s) by { assert [own][0].path == prefix + s; }
        } else {
          assert prefix + s == prefix + [name] + s[1..];
        }
      }
      HasConcat(found, [own], prefix + s);
      HasConcat(found + [own], below, prefix + s);
    }
  }

  lemma {:induction false} HasConcat(a: seq<Found>, b: seq<Found>, path: seq<string>)
    ensures Has(a, path) || Has(b, path) ==> Has(a + b, path)
  {
    if Has(a, path) {
      var i :| 0 <= i < |a| && a[i].path == path;
      assert (a + b)[i].path == path;
    } else if Has(b, path) {
      var i :| 0 <= i < |b| && b[i].path == path;
      assert (a + b)[|a| + i].path == path;
    }
  }

  lemma {:induction false} AllProperConcat(d: Shape, node: Id, prefix: seq<string>, parentRequired: bool, depth: nat,
                                           a: seq<Found>, b: seq<Found>)
    requires AllProper(d, node, prefix, parentRequired, depth, a)
    requires AllProper(d, node, prefix, parentRequired, depth, b)
    ensures AllProper(d, node, prefix, parentRequired, depth, a + b)
  {}

  lemma {:induction false} DistinctStep(prefix: seq<string>, done: set<string>, found: seq<Found>, name: string,
                                        own: Found, below: seq<Found>)
    requires DistinctPaths(found) && DistinctPaths(below) && own.path == prefix + [name] && name !in done
    requires forall i | 0 <= i < |found| :: |prefix| < |found[i].path| && found[i].path[|prefix|] in done
    requires forall i | 0 <= i < |below| :: |prefix| + 1 < |below[i].path| && below[i].path[|prefix|] == name
    ensures DistinctPaths(found + [own] + below)
  {
    var all := found + [own] + below;
    forall i, j | 0 <= i < j < |all| ensures all[i].path != all[j].path {
      if i < |found| && j >= |found| {
        assert all[i].path[|prefix|] in done && all[j].path[|prefix|] == name;
      } else if i == |found| {
        assert |all[i].path| == |prefix| + 1 && |all[j].path| > |prefix| + 1;
      }
    }
  }

  ghost predicate Progress(d: Shape, node: Id, prefix: seq<string>, parentRequired: bool, depth: nat,
                           done: set<string>, found: seq<Found>) {
    && AllProper(d, node, prefix, parentRequired, depth, found)
    && DistinctPaths(found)
    && Covers(FieldsAt(d, node, depth), prefix, done, found)
  }

  /** What the loop appends for one property: the field itself, then what is inside it. */
  ghost predicate Addition(wanted: seq<string> -> bool, prefix: seq<string>, name: string, added: seq<Found>) {
    && added != [] && added[0].path == prefix + [name]
    && DistinctPaths(added[1..])
    && (forall i | 0 <= i < |added[1..]| :: |prefix| + 1 < |added[1..][i].path| && added[1..][i].path[|prefix|] == name)
    && (forall s | wanted(s) && |s| > 1 && s[0] == name :: Has(added[1..], prefix + [name] + s[1..]))
  }

  lemma {:induction false} AdditionStep(wanted: seq<string> -> bool, prefix: seq<string>, done: set<string>,
                                        found: seq<Found>, name: string, added: seq<Found>)
    requires DistinctPaths(found) && Covers(wanted, prefix, done, found) && name !in done
    requires Addition(wanted, prefix, name, added)
    ensures DistinctPaths(found + added) && Covers(wanted, prefix, done + {name}, found + added)
  {
    var own, below := added[0], added[1..];
    assert found + added == found + [own] + below;
    CoversStep(wanted, prefix, done, found, name, own, below);
    DistinctStep(prefix, done, found, name, own, below);
  }

  lemma {:induction false} ProgressStep(d: Shape, node: Id, prefix: seq<string>, parentRequired: bool, depth: nat,
                     done: set<string>, found: seq<Found>, name: string, added: seq<Found>)
    requires Progress(d, node, prefix, parentRequired, depth, done, found) && name !in done
    requires AllProper(d, node, prefix, parentRequired, depth, added)
    requires Addition(FieldsAt(d, node, depth), prefix, name, added)
    ensures Progress(d, node, prefix, parentRequired, depth, done + {name}, found + added)
  {
    AllProperConcat(d, node, prefix, parentRequired, depth, found, added);
    AdditionStep(FieldsAt(d, node, depth), prefix, done, found, name, added);
  }

  lemma {:induction false} ProgressDone(d: Shape, node: Id, prefix: seq<string>, parentRequired: bool, depth: nat,
                                        found: seq<Found>, s: seq<string>)
    requires Progress(d, node, prefix, parentRequired, depth, d.names(node), found) && IsField(d, node, s, depth)
    ensures Has(found, prefix + s)
  {
    assert FieldsAt(d, node, depth)(s) && s[0] in d.names(node);
  }

  /** `visit`: properties in any order, each followed by what is inside it. */
  method VisitFields(d: Shape, node: Id, prefix: seq<string>, parentRequired: bool,
                     depth: nat) returns (found: seq<Found>)
    ensures AllProper(d, node, prefix, parentRequired, depth, found)
    ensures DistinctPaths(found)
    ensures forall s | IsField(d, node, s, depth) :: Has(found, prefix + s)
    decreases MAX_DEPTH + 1 - depth
  {
    found := [];
    if depth > MAX_DEPTH {
      return;
    }
    var names := d.names(node);
    var todo := names;
    while todo != {}
      invariant todo <= names && Progress(d, node, prefix, parentRequired, depth, names - todo, found)
      decreases |todo|
    {
      var name :| name in todo;
      var added := VisitProperty(d, node, prefix, parentRequired, depth, name);
      ProgressStep(d, node, prefix, parentRequired, depth, names - todo, found, name, added);
      assert names - (todo - {name}) == names - todo + {name};
      found := found + added;
      todo := todo - {name};
    }
    assert names - todo == names;
    forall s | IsField(d, node, s, depth) ensures Has(found, prefix + s) {
      ProgressDone(d, node, prefix, parentRequired, depth, found, s);
    }
  }

  lemma {:induction false} OwnProper(d: Shape, node: Id, prefix: seq<string>, parentRequired: bool, depth: nat,
                                     name: string, own: Found)
    requires depth <= MAX_DEPTH && name in d.names(node)
    requires own == Found(prefix + [name], parentRequired && name in d.required(node))
    ensures Proper(d, node, prefix, parentRequired, depth, own)
  {
    assert own.path[|prefix|..] == [name];
  }

  method VisitProperty(d: Shape, node: Id, prefix: seq<string>, parentRequired: bool, depth: nat, name: string)
    returns (added: seq<Found>)
    requires depth <= MAX_DEPTH && name in d.names(node)
    ensures AllProper(d, node, prefix, parentRequired, depth, added)
    ensures Addition(FieldsAt(d, node, depth), prefix, name, added)
    decreases MAX_DEPTH + 1 - depth, 0
  {
    var fieldRequired := parentRequired && name in d.required(node);
    var own := Found(prefix + [name], fieldRequired);
    OwnProper(d, node, prefix, parentRequired, depth, name, own);
    var below: seq<Found> := [];
    var inside := d.inside(node, name);
    if inside.Some? {
      below := VisitFields(d, inside.value, prefix + [name], fieldRequired, depth + 1);
      forall i | 0 <= i < |below|
        ensures Proper(d, node, prefix, parentRequired, depth, below[i])
        ensures |prefix| + 1 < |below[i].path| && below[i].path[|prefix|] == name
      {
        ProperInside(d, node, prefix, parentRequired, depth, name, below[i]);
      }
    }
    added := [own] + below;
    assert added[1..] == below;
  }

  /** The shape of a type's schema document, by the two walks; `isObject` tells the
      schemas of kind "object". */
  function ShapeOf(h: Heap, root: Id, isObject: Id -> bool): Shape {
    Shape((node: Id) => Merge(h, Visit(h, root, ALL_BRANCHES, node, {})).Keys,
          (node: Id) => Union(h, Visit(h, root, REQUIRED_BRANCHES, node, {})),
          (node: Id, name: string) => ObjectInside(h, root, isObject, node, name))
  }

  function ObjectInside(h: Heap, root: Id, isObject: Id -> bool, node: Id, name: string): Option<Id> {
    var properties := Merge(h, Visit(h, root, ALL_BRANCHES, node, {}));
    if name in properties && properties[name].Record? && isObject(Resolve(h, root, properties[name].id))
    then Some(Resolve(h, root, properties[name].id)) else None
  }

  /** What the shape says, in terms of the schema document: names and required names are those
      of the reachable schemas, and a property leads on to the schema its value stands for, if
      that is an object schema. */
  lemma {:induction false} ShapeMeans(h: Heap, root: Id, isObject: Id -> bool, node: Id, name: string, to: Id)
    ensures var d := ShapeOf(h, root, isObject);
            && (name in d.names(node) <==>
                  exists x :: Reaches(h, root, ALL_BRANCHES, Resolve(h, root, node), x) && name in PropertiesOf(h, x))
            && (name in d.required(node) <==>
                  exists x :: && Reaches(h, root, REQUIRED_BRANCHES, Resolve(h, root, node), x)
                              && name in RequiredOf(h, x))
            && (Enters(d, node, name, to) <==>
                  var properties := Merge(h, Visit(h, root, ALL_BRANCHES, node, {}));
                  && name in properties && properties[name].Record? && to == Resolve(h, root, properties[name].id)
                  && isObject(to))
  {
    PropertiesReachable(h, root, node, name);
    RequiredReachable(h, root, node, name);
  }

  /** All fields of a type. References never collide, so `uniqueBy` drops nothing: every
      field of the schema is listed exactly once, with its `required` flag. */
  method ListFields(h: Heap, root: Id, isObject: Id -> bool) returns (fields: seq<Found>)
    ensures AllProper(ShapeOf(h, root, isObject), root, [], true, 0, fields)
    ensures forall path | IsField(ShapeOf(h, root, isObject), root, path, 0) :: Has(fields, path)
    ensures DistinctPaths(fields)
    ensures NoDuplicates(Mapped(fields, (f: Found) => ReferenceForSegments(f.path)))
  {
    var d := ShapeOf(h, root, isObject);
    var found := VisitFields(d, root, [], true, 0);
    var key := (f: Found) => ReferenceForSegments(f.path);
    assert NoDuplicates(Mapped(found, key)) by {
      forall i, j | 0 <= i < j < |found| ensures key(found[i]) != key(found[j]) {
        if key(found[i]) == key(found[j]) { ReferenceInjective(found[i].path, found[j].path); }
      }
    }
    fields := UniqueBy(found, key);
    forall path | IsField(d, root, path, 0) ensures Has(fields, path) {
      assert [] + path == path;
    }
  }
}
