/** The generator's main loop, the database it lays out, and the runtime's lookup by name:
what a zone name means at run time is what its file says. */
module TzdbGenerator {
  import opened Options
  import opened Sequences
  import opened Search
  import opened TzdbBytes
  import opened TzdbFormat
  import opened TzdbSource

  datatype File = File(name: Bytes, content: Bytes)

  // ---- Collecting rows ----

  /** `rows.index(row)` for a row that is there. */
  function IndexOf<T(==)>(rows: seq<T>, row: T): (i: nat)
    requires row in rows
    ensures i < |rows| && rows[i] == row && row !in rows[..i]
  {
    if rows[0] == row then 0 else 1 + IndexOf(rows[1..], row)
  }

  function AddFile(db: Database, name: Bytes, z: Zone): Database {
    var rules := if z in db.rules then db.rules else db.rules + [z];
    Database(rules, db.names + [Name(name, IndexOf(rules, z))])
  }

  /** The rule sets and names after all files; `None` if some file is refused. */
  function Collect(files: seq<File>): Option<Database> {
    if files == [] then Some(Database([], []))
    else
      var last := files[|files| - 1];
      match Collect(files[..|files| - 1])
      case None => None
      case Some(db) =>
        match RowOf(last.content)
        case None => None
        case Some(z) => Some(AddFile(db, last.name, z))
  }

  lemma {:induction false} RowWritable(b: Bytes)
    ensures RowOf(b).Some? ==> Writable(RowOf(b).value)
  {
    if Parse(b).Some? { ParseShape(b); }
  }

  lemma {:induction false} CollectWritable(files: seq<File>)
    ensures Collect(files).Some? ==> AllWritable(Collect(files).value.rules)
  {
    if files != [] {
      CollectWritable(files[..|files| - 1]);
      RowWritable(files[|files| - 1].content);
      if Collect(files).Some? {
        var last := files[|files| - 1];
        AddFileWritable(Collect(files[..|files| - 1]).value, last.name, RowOf(last.content).value);
      }
    }
  }

  lemma {:induction false} AddFileWritable(db: Database, name: Bytes, z: Zone)
    requires AllWritable(db.rules) && Writable(z)
    ensures AllWritable(AddFile(db, name, z).rules)
  {}

  function Rows(zones: seq<Zone>): (rows: seq<Bytes>)
    requires AllWritable(zones)
    ensures |rows| == |zones| && forall i | 0 <= i < |zones| :: rows[i] == ZoneBytes(zones[i])
  {
    seq(|zones|, i requires 0 <= i < |zones| => ZoneBytes(zones[i]))
  }

  /** Comparing rows byte by byte is comparing rule sets. */
  lemma {:induction false} RowsContain(zones: seq<Zone>, z: Zone)
    requires AllWritable(zones) && Writable(z)
    ensures ZoneBytes(z) in Rows(zones) <==> z in zones
    ensures z in zones ==> IndexOf(Rows(zones), ZoneBytes(z)) == IndexOf(zones, z)
  {
    var rows := Rows(zones);
    forall i | 0 <= i < |zones| ensures rows[i] == ZoneBytes(z) <==> zones[i] == z {
      if rows[i] == ZoneBytes(z) { ZoneBytesInjective(zones[i], z); }
    }
    IndexOfMatches(rows, ZoneBytes(z), zones, z);
  }

  lemma {:induction false} IndexOfMatches<T, U>(a: seq<T>, x: T, b: seq<U>, y: U)
    requires |a| == |b| && forall i | 0 <= i < |a| :: a[i] == x <==> b[i] == y
    ensures x in a <==> y in b
    ensures x in a ==> IndexOf(a, x) == IndexOf(b, y)
  {
    if a != [] && a[0] != x {
      IndexOfMatches(a[1..], x, b[1..], y);
    }
  }

  /** The generator's loop over the compiled files, on rows of bytes. */
  method CollectRows(files: seq<File>) returns (ok: bool, rows: seq<Bytes>, names: seq<Name>)
    ensures ok <==> Collect(files).Some?
    ensures ok ==> AllWritable(Collect(files).value.rules)
                   && rows == Rows(Collect(files).value.rules) && names == Collect(files).value.names
  {
    rows, names := [], [];
    ghost var db := Database([], []);
    for i := 0 to |files|
      invariant Collect(files[..i]) == Some(db) && AllWritable(db.rules)
      invariant rows == Rows(db.rules) && names == db.names
    {
      CollectNext(files, i);
      var row := EncodeTzif(files[i].content);
      if row.None? {
        CollectFails(files, i + 1);
        return false, [], [];
      }
      RowWritable(files[i].content);
      AddRow(db, files[i].name, RowOf(files[i].content).value);
      if row.value !in rows {
        rows := rows + [row.value];
      }
      names := names + [Name(files[i].name, IndexOf(rows, row.value))];
      db := AddFile(db, files[i].name, RowOf(files[i].content).value);
    }
    assert files[..|files|] == files;
    ok := true;
  }

  lemma {:induction false} CollectNext(files: seq<File>, i: nat)
    requires i < |files|
    ensures Collect(files[..i + 1]) ==
            match (Collect(files[..i]), RowOf(files[i].content))
            case (Some(db), Some(z)) => Some(AddFile(db, files[i].name, z))
            case _ => None
  {
    assert files[..i + 1][..i] == files[..i];
  }

  /** Looking for a row among the rows of bytes does what `AddFile` does with rule sets. */
  lemma {:induction false} AddRow(db: Database, name: Bytes, z: Zone)
    requires AllWritable(db.rules) && Writable(z)
    ensures AllWritable(AddFile(db, name, z).rules)
    ensures var row, rows := ZoneBytes(z), Rows(db.rules);
            var rows' := if row !in rows then rows + [row] else rows;
            && rows' == Rows(AddFile(db, name, z).rules)
            && AddFile(db, name, z).names == db.names + [Name(name, IndexOf(rows', row))]
  {
    RowsContain(db.rules, z);
    if z !in db.rules {
      RowsPush(db.rules, z);
      RowsContain(db.rules + [z], z);
    }
  }

  lemma {:induction false} RowsPush(zones: seq<Zone>, z: Zone)
    requires AllWritable(zones) && Writable(z)
    ensures AllWritable(zones + [z]) && Rows(zones + [z]) == Rows(zones) + [ZoneBytes(z)]
  {}

  lemma {:induction false} CollectFails(files: seq<File>, n: nat)
    requires n <= |files| && Collect(files[..n]).None?
    ensures Collect(files).None?
    decreases |files| - n
  {
    if n == |files| {
      assert files[..n] == files;
    } else {
      assert files[..n + 1][..n] == files[..n];
      CollectFails(files, n + 1);
    }
  }

  // ---- Every name keeps its rule set ----

  lemma {:induction false} RulesDistinct(files: seq<File>)
    requires Collect(files).Some?
    ensures NoDuplicates(Collect(files).value.rules)
  {
    if files != [] {
      RulesDistinct(files[..|files| - 1]);
    }
  }

  /** The last file appends its name, and its row unless the row is there. */
  lemma {:induction false} LastFile(files: seq<File>)
    requires files != [] && Collect(files).Some?
    ensures Collect(files[..|files| - 1]).Some? && RowOf(files[|files| - 1].content).Some?
    ensures var last := files[|files| - 1];
            var init, db := Collect(files[..|files| - 1]).value, Collect(files).value;
            && init.rules <= db.rules && init.names <= db.names
            && |db.names| == |init.names| + 1
            && db.names[|init.names|].text == last.name
            && db.names[|init.names|].index < |db.rules|
            && db.rules[db.names[|init.names|].index] == RowOf(last.content).value
  {}

  /** Rows are only appended: earlier indices stay valid as files are added. */
  lemma {:induction false} RulesGrow(files: seq<File>, n: nat)
    requires Collect(files).Some? && n <= |files|
    ensures Collect(files[..n]).Some?
    ensures Collect(files[..n]).value.rules <= Collect(files).value.rules
    ensures Collect(files[..n]).value.names <= Collect(files).value.names
    decreases |files|
  {
    if n == |files| {
      assert files[..n] == files;
    } else {
      LastFile(files);
      RulesGrow(files[..|files| - 1], n);
      assert files[..|files| - 1][..n] == files[..n];
      var part, init, db := Collect(files[..n]).value, Collect(files[..|files| - 1]).value, Collect(files).value;
      PrefixTransitive(part.rules, init.rules, db.rules);
      PrefixTransitive(part.names, init.names, db.names);
    }
  }

  lemma {:induction false} PrefixTransitive<T>(a: seq<T>, b: seq<T>, c: seq<T>)
    requires a <= b && b <= c
    ensures a <= c
  {}

  lemma {:induction false} NamesCount(files: seq<File>)
    requires Collect(files).Some?
    ensures |Collect(files).value.names| == |files|
  {
    if files != [] {
      LastFile(files);
      NamesCount(files[..|files| - 1]);
    }
  }

  /** The name of every file leads to the rule set of that file. */
  lemma {:induction false} NameLeadsToZone(files: seq<File>, i: nat)
    requires Collect(files).Some? && i < |files|
    ensures |Collect(files).value.names| == |files| && RowOf(files[i].content).Some?
    ensures var db := Collect(files).value;
            && db.names[i].text == files[i].name
            && db.names[i].index < |db.rules|
            && db.rules[db.names[i].index] == RowOf(files[i].content).value
  {
    NamesCount(files);
    RulesGrow(files, i + 1);
    var early := files[..i + 1];
    LastFile(early);
    NamesCount(early);
    PrefixesAgree(Collect(early).value, Collect(files).value, i);
  }

  lemma {:induction false} PrefixesAgree(part: Database, db: Database, i: nat)
    requires part.rules <= db.rules && part.names <= db.names && i < |part.names| && part.names[i].index < |part.rules|
    ensures db.names[i] == part.names[i] && db.rules[db.names[i].index] == part.rules[part.names[i].index]
  {}

  // ---- Layout ----

  predicate NamesEncodable(names: seq<Name>) {
    forall i | 0 <= i < |names| :: Ascii(names[i].text)
  }

  lemma {:induction false} ZonesBytesPush(zones: seq<Zone>, z: Zone)
    requires AllWritable(zones + [z])
    ensures AllWritable(zones) && Writable(z)
    ensures ZonesBytes(zones + [z]) == ZonesBytes(zones) + ZoneBytes(z)
  {
    assert (zones + [z])[|zones|] == z;
    assert forall i | 0 <= i < |zones| :: (zones + [z])[i] == zones[i];
    if zones == [] {
      assert ([] + [z])[1..] == [];
      assert ZonesBytes(zones + [z]) == ZoneBytes(z) + [];
    } else {
      assert (zones + [z])[1..] == zones[1..] + [z];
      ZonesBytesPush(zones[1..], z);
      Assoc(ZoneBytes(zones[0]), ZonesBytes(zones[1..]), ZoneBytes(z));
    }
  }

  lemma {:induction false} NamesBytesPush(names: seq<Name>, x: Name)
    requires NamesWritable(names + [x])
    ensures NamesWritable(names) && |x.text| < 256 && x.index < 65536
    ensures NamesBytes(names + [x]) == NamesBytes(names) + (TextBytes(x.text) + U16(x.index))
  {
    assert (names + [x])[|names|] == x;
    assert forall i | 0 <= i < |names| :: (names + [x])[i] == names[i];
    if names == [] {
      assert ([] + [x])[1..] == [];
      assert NamesBytes(names + [x]) == (TextBytes(x.text) + U16(x.index)) + [];
    } else {
      assert (names + [x])[1..] == names[1..] + [x];
      NamesBytesPush(names[1..], x);
      Assoc(TextBytes(names[0].text) + U16(names[0].index), NamesBytes(names[1..]), TextBytes(x.text) + U16(x.index));
    }
  }

  /** The rows one after another, without offsets between them. */
  method WriteRows(rows: seq<Bytes>, ghost zones: seq<Zone>) returns (data: Bytes)
    requires AllWritable(zones) && rows == Rows(zones)
    ensures data == ZonesBytes(zones)
  {
    data := [];
    for i := 0 to |rows|
      invariant AllWritable(zones[..i]) && data == ZonesBytes(zones[..i])
    {
      assert zones[..i + 1] == zones[..i] + [zones[i]];
      ZonesBytesPush(zones[..i], zones[i]);
      data := data + rows[i];
    }
    assert zones[..|rows|] == zones;
  }

  /** The names section, refused when a name is not ASCII or too long. */
  method WriteNames(names: seq<Name>) returns (r: Option<Bytes>)
    requires forall i | 0 <= i < |names| :: names[i].index < 65536
    ensures r.Some? <==> NamesEncodable(names) && NamesWritable(names)
    ensures r.Some? ==> r.value == NamesBytes(names)
  {
    var data: Bytes := [];
    for i := 0 to |names|
      invariant NamesEncodable(names[..i]) && NamesWritable(names[..i]) && data == NamesBytes(names[..i])
    {
      if !Ascii(names[i].text) || |names[i].text| >= 256 {
        return None;
      }
      assert names[..i + 1] == names[..i] + [names[i]];
      NamesBytesPush(names[..i], names[i]);
      data := data + (TextBytes(names[i].text) + U16(names[i].index));
    }
    assert names[..|names|] == names;
    r := Some(data);
  }

  lemma {:induction false} IndicesInRange(files: seq<File>)
    requires Collect(files).Some?
    ensures var db := Collect(files).value; forall i | 0 <= i < |db.names| :: db.names[i].index < |db.rules|
  {
    NamesCount(files);
    forall i | 0 <= i < |files| ensures Collect(files).value.names[i].index < |Collect(files).value.rules| {
      NameLeadsToZone(files, i);
    }
  }

  /** The whole uncompressed database; `None` where the generator raises: a file it refuses,
      too many rows or names, or a name that is not ASCII or too long. */
  method GenerateDatabase(files: seq<File>) returns (r: Option<Bytes>)
    ensures r.Some? <==> && Collect(files).Some? && DatabaseWritable(Collect(files).value)
                         && NamesEncodable(Collect(files).value.names)
    ensures r.Some? ==> r.value == DatabaseBytes(Collect(files).value)
  {
    var ok, rows, names := CollectRows(files);
    if !ok {
      return None;
    }
    ghost var db := Collect(files).value;
    IndicesInRange(files);
    if |rows| >= 65536 {
      return None;
    }
    var body := WriteRows(rows, db.rules);
    if |names| >= 65536 {
      return None;
    }
    var tail := WriteNames(names);
    if tail.None? {
      return None;
    }
    r := Some(MAGIC + (U16(|rows|) + (body + (U16(|names|) + tail.value))));
  }

  // ---- Lookup at run time ----

  lemma {:induction false} LessIrreflexive(a: Bytes)
    ensures !TextLess(a, a)
  {
    if a != [] { LessIrreflexive(a[1..]); }
  }

  lemma {:induction false} LessTransitive(a: Bytes, b: Bytes, c: Bytes)
    requires TextLess(a, b) && TextLess(b, c)
    ensures TextLess(a, c)
    decreases |a|
  {
    if a != [] && a[0] == b[0] && b[0] == c[0] { LessTransitive(a[1..], b[1..], c[1..]); }
  }

  lemma {:induction false} NamesIncrease(names: seq<Name>, rules: nat, previous: Option<Bytes>)
    requires NamesAccepted(names, rules, previous)
    ensures forall i | 0 <= i < |names| :: names[i].index < rules
    ensures forall i, j | 0 <= i < j < |names| :: TextLess(names[i].text, names[j].text)
    ensures previous.Some? ==> forall i | 0 <= i < |names| :: TextLess(previous.value, names[i].text)
    decreases |names|
  {
    if names != [] {
      var later := names[1..];
      NamesIncrease(later, rules, Some(names[0].text));
      forall i, j | 0 <= i < j < |names| ensures TextLess(names[i].text, names[j].text) {
        assert names[j] == later[j - 1];
        assert i > 0 ==> names[i] == later[i - 1];
      }
      if previous.Some? {
        forall i | 0 <= i < |names| ensures TextLess(previous.value, names[i].text) {
          if i > 0 {
            assert names[i] == later[i - 1];
            LessTransitive(previous.value, names[0].text, names[i].text);
          }
        }
      }
    }
  }

  /** The runtime's binary search for an exact name. */
  function Lookup(db: Database, name: Bytes): Option<Zone> {
    var k := PartitionPoint(db.names, NameBelow(name));
    if k < |db.names| && db.names[k].text == name && db.names[k].index < |db.rules|
    then Some(db.rules[db.names[k].index]) else None
  }

  function NameBelow(name: Bytes): Name -> bool {
    (n: Name) => TextLess(n.text, name)
  }

  /** Names in text order are partitioned by every name. */
  lemma {:induction false} NamesPartitioned(names: seq<Name>, rules: nat, name: Bytes)
    requires NamesAccepted(names, rules, None)
    ensures Partitioned(names, NameBelow(name))
  {
    NamesIncrease(names, rules, None);
    forall i, j | 0 <= i < j < |names| && NameBelow(name)(names[j]) ensures NameBelow(name)(names[i]) {
      LessTransitive(names[i].text, names[j].text, name);
    }
  }

  /** The runtime's lookup, by bisection of an accepted database. */
  method SearchName(db: Database, name: Bytes) returns (r: Option<Zone>)
    requires NamesAccepted(db.names, |db.rules|, None)
    ensures r == Lookup(db, name)
    ensures r.None? <==> forall i | 0 <= i < |db.names| :: db.names[i].text != name
  {
    NamesPartitioned(db.names, |db.rules|, name);
    LookupRejects(db, name);
    var k := Bisect(db.names, NameBelow(name));
    if k < |db.names| && db.names[k].text == name && db.names[k].index < |db.rules| {
      r := Some(db.rules[db.names[k].index]);
    } else {
      r := None;
    }
  }

  lemma {:induction false} LookupFinds(db: Database, i: nat)
    requires NamesAccepted(db.names, |db.rules|, None) && i < |db.names| && db.names[i].index < |db.rules|
    ensures Lookup(db, db.names[i].text) == Some(db.rules[db.names[i].index])
  {
    NamesIncrease(db.names, |db.rules|, None);
    LessIrreflexive(db.names[i].text);
    PartitionPointIs(db.names, NameBelow(db.names[i].text), i);
  }

  /** A name that no file has is unknown, never another zone, and no other name is. */
  lemma {:induction false} LookupRejects(db: Database, name: Bytes)
    ensures (forall i | 0 <= i < |db.names| :: db.names[i].text != name) ==> Lookup(db, name) == None
    ensures NamesAccepted(db.names, |db.rules|, None) && Lookup(db, name) == None ==>
              forall i | 0 <= i < |db.names| :: db.names[i].text != name
  {
    if NamesAccepted(db.names, |db.rules|, None) {
      NamesIncrease(db.names, |db.rules|, None);
      forall i | 0 <= i < |db.names| && db.names[i].text == name ensures Lookup(db, name).Some? {
        LookupFinds(db, i);
      }
    }
  }

  /** End to end. For every database the generator lays out and the runtime accepts, the
      runtime decodes it to the same rule sets and names, and at every instant a name has
      the offset its own file gives it. */
  lemma {:induction false} NamedZoneMeansItsFile(files: seq<File>, db: Database, posix: Bytes -> bool,
                              posixAt: (Bytes, int) -> int, i: nat, t: int)
    requires Collect(files) == Some(db) && i < |files|
    requires DatabaseWritable(db) && Accepted(db, posix)
    ensures Decode(DatabaseBytes(db), posix, true) == Some(db)
    ensures var f := Parse(files[i].content);
            f.Some? && WellShaped(f.value) && IndicesExist(f.value)
    ensures var f := Parse(files[i].content).value;
            var zone := Lookup(db, files[i].name);
            && zone.Some?
            && OffsetAt(zone.value, posixAt, t) ==
               if (f.times == [] || f.times[|f.times| - 1] < t) && f.footer != [] then posixAt(f.footer, t)
               else SourceOffset(f, |f.times|, t)
  {
    DatabaseRoundTrip(db, posix, true);
    LookupLeadsToRow(files, db, posix, i);
    RowMeansItsFile(files[i].content, Lookup(db, files[i].name).value, posix, posixAt, t);
  }

  lemma {:induction false} LookupLeadsToRow(files: seq<File>, db: Database, posix: Bytes -> bool, i: nat)
    requires Collect(files) == Some(db) && i < |files|
    requires NamesAccepted(db.names, |db.rules|, None) && ZonesAccepted(db.rules, posix)
    ensures var zone := Lookup(db, files[i].name);
            zone.Some? && RowOf(files[i].content) == zone && ZoneAccepted(zone.value, posix)
  {
    NameLeadsToZone(files, i);
    LookupFinds(db, i);
  }

  lemma {:induction false} RowMeansItsFile(content: Bytes, z: Zone, posix: Bytes -> bool,
                                           posixAt: (Bytes, int) -> int, t: int)
    requires RowOf(content) == Some(z) && ZoneAccepted(z, posix)
    ensures var f := Parse(content);
            f.Some? && WellShaped(f.value) && IndicesExist(f.value)
    ensures var f := Parse(content).value;
            OffsetAt(z, posixAt, t) ==
            if (f.times == [] || f.times[|f.times| - 1] < t) && f.footer != [] then posixAt(f.footer, t)
            else SourceOffset(f, |f.times|, t)
  {
    ParseShape(content);
    var f := Parse(content).value;
    AcceptedIncreases(z.transitions, 0, true);
    TimesIncrease(f, z);
    MeaningPreserved(f, posixAt, t);
  }

  lemma {:induction false} TimesIncrease(f: Tzif, z: Zone)
    requires WellShaped(f) && IndicesExist(f) && z == ZoneOf(f)
    requires forall i, j | 0 <= i < j < |z.transitions| :: z.transitions[i].at < z.transitions[j].at
    ensures Increasing(f.times)
  {
    forall i, j | 0 <= i < j < |f.times| ensures f.times[i] < f.times[j] {
      assert z.transitions[i].at < z.transitions[j].at;
    }
  }

  // ---- A limit of the path order ----

  /** The order in which the generator visits files, byte by byte: a separator comes before
      every other byte. */
  predicate PathLess(a: Bytes, b: Bytes) {
    b != [] &&
    (|| a == []
     || (a[0] != b[0] && (a[0] == 47 || (b[0] != 47 && a[0] < b[0])))
     || (a[0] == b[0] && PathLess(a[1..], b[1..])))
  }

  /** The parts of a path, divided at its separators. */
  function PartsOf(path: Bytes): (parts: seq<Bytes>)
    ensures parts != []
  {
    if path == [] then [[]]
    else
      var rest := PartsOf(path[1..]);
      if path[0] == 47 then [[]] + rest else [[path[0]] + rest[0]] + rest[1..]
  }

  /** Lists of parts in lexicographic order, a part against a part as text. */
  predicate PartsLess(p: seq<Bytes>, q: seq<Bytes>) {
    q != [] && (p == [] || TextLess(p[0], q[0]) || (p[0] == q[0] && PartsLess(p[1..], q[1..])))
  }

  lemma {:induction false} PartsStep(c: Byte, x: Bytes, y: Bytes, p: seq<Bytes>, q: seq<Bytes>)
    ensures PartsLess([[c] + x] + p, [[c] + y] + q) <==> PartsLess([x] + p, [y] + q)
  {
    assert ([c] + x)[1..] == x && ([c] + y)[1..] == y;
    assert ([[c] + x] + p)[1..] == p && ([[c] + y] + q)[1..] == q;
    assert ([x] + p)[1..] == p && ([y] + q)[1..] == q;
    assert [c] + x == [c] + y <==> x == y;
  }

  /** The byte-wise order is the order of the lists of parts, by which the generator sorts. */
  lemma {:induction false} PathOrderIsPartsOrder(a: Bytes, b: Bytes)
    ensures PathLess(a, b) <==> PartsLess(PartsOf(a), PartsOf(b))
    decreases |a|
  {
    if a != [] && b != [] {
      var ra, rb := PartsOf(a[1..]), PartsOf(b[1..]);
      if a[0] == b[0] {
        PathOrderIsPartsOrder(a[1..], b[1..]);
        if a[0] == 47 {
          SeparatorStep(ra, rb);
        } else {
          PartsStep(a[0], ra[0], rb[0], ra[1..], rb[1..]);
          assert [ra[0]] + ra[1..] == ra && [rb[0]] + rb[1..] == rb;
        }
      } else {
        PartsDiffer(a, b);
      }
    } else {
      LessIrreflexive([]);
      if b != [] { EmptyFirst(b); }
    }
  }

  lemma {:induction false} SeparatorStep(p: seq<Bytes>, q: seq<Bytes>)
    ensures PartsLess([[]] + p, [[]] + q) <==> PartsLess(p, q)
  {
    assert ([[]] + p)[1..] == p && ([[]] + q)[1..] == q;
  }

  lemma {:induction false} EmptyFirst(b: Bytes)
    requires b != []
    ensures PartsLess([[]], PartsOf(b))
  {
    var q := PartsOf(b);
    if b[0] == 47 { assert q[1..] == PartsOf(b[1..]); }
  }

  lemma {:induction false} PartsDiffer(a: Bytes, b: Bytes)
    requires a != [] && b != [] && a[0] != b[0]
    ensures PartsLess(PartsOf(a), PartsOf(b)) <==> (a[0] == 47 || (b[0] != 47 && a[0] < b[0]))
  {
    var p, q := PartsOf(a), PartsOf(b);
    assert a[0] != 47 ==> p[0] != [] && p[0][0] == a[0];
    assert b[0] != 47 ==> q[0] != [] && q[0][0] == b[0];
    assert a[0] == 47 ==> p[0] == [];
    assert b[0] == 47 ==> q[0] == [];
  }

  /** Where the two paths first differ, one has a separator and the other a byte below it. */
  predicate SeparatorAboveByte(a: Bytes, b: Bytes) {
    a != [] && b != [] && if a[0] == b[0] then SeparatorAboveByte(a[1..], b[1..]) else a[0] == 47 && b[0] < 47
  }

  /** The runtime wants names in text order. Two names in path order are in text order
      exactly when no separator meets a lower byte where they part. */
  lemma {:induction false} PathOrderIsTextOrder(a: Bytes, b: Bytes)
    requires PathLess(a, b)
    ensures TextLess(a, b) <==> !SeparatorAboveByte(a, b)
    decreases |a|
  {
    if a != [] && a[0] == b[0] { PathOrderIsTextOrder(a[1..], b[1..]); }
  }

  /** Whether some name, in the order of the list, parts from the next one in that way. */
  predicate SeparatorSomewhere(names: seq<Bytes>) {
    exists i :: 0 <= i < |names| - 1 && SeparatorAboveByte(names[i], names[i + 1])
  }

  function Texts(names: seq<Name>): (r: seq<Bytes>)
    ensures |r| == |names| && forall i | 0 <= i < |names| :: r[i] == names[i].text
  {
    seq(|names|, i requires 0 <= i < |names| => names[i].text)
  }

  predicate PathSorted(names: seq<Bytes>) {
    forall i, j | 0 <= i < j < |names| :: PathLess(names[i], names[j])
  }

  /** Names that the generator can write, with indices of existing rows. */
  predicate NamesSound(names: seq<Name>, rules: nat) {
    forall i | 0 <= i < |names| :: Ascii(names[i].text) && names[i].text != [] && names[i].index < rules
  }

  /** The runtime's check of the names compares neighbours. */
  lemma {:induction false} AcceptedByNeighbours(names: seq<Name>, rules: nat, previous: Option<Bytes>)
    requires NamesSound(names, rules)
    ensures NamesAccepted(names, rules, previous) <==>
            (previous.Some? && names != [] ==> TextLess(previous.value, names[0].text)) && NeighboursAscend(names)
    decreases |names|
  {
    if names != [] {
      AcceptedByNeighbours(names[1..], rules, Some(names[0].text));
      NeighboursFirst(names);
    }
  }

  predicate NeighboursAscend(names: seq<Name>) {
    forall i | 0 <= i < |names| - 1 :: NextAscends(names, i)
  }

  predicate NextAscends(names: seq<Name>, i: nat)
    requires i + 1 < |names|
  {
    TextLess(names[i].text, names[i + 1].text)
  }

  lemma {:induction false} NeighboursFirst(names: seq<Name>)
    requires names != []
    ensures NeighboursAscend(names) <==> (|names| > 1 ==> NextAscends(names, 0)) && NeighboursAscend(names[1..])
  {
    var later := names[1..];
    if NeighboursAscend(names) {
      forall i | 0 <= i < |later| - 1 ensures NextAscends(later, i) { assert NextAscends(names, i + 1); }
    }
    if NeighboursAscend(later) && (|names| > 1 ==> NextAscends(names, 0)) {
      forall i | 0 < i < |names| - 1 ensures NextAscends(names, i) { assert NextAscends(later, i - 1); }
    }
  }

  /** A list of names in path order passes the runtime's check exactly when no two
      neighbours part at a separator and a lower byte. */
  lemma {:induction false} PathSortedAccepted(names: seq<Name>, rules: nat)
    requires PathSorted(Texts(names)) && NamesSound(names, rules)
    ensures NamesAccepted(names, rules, None) <==> !SeparatorSomewhere(Texts(names))
  {
    AcceptedByNeighbours(names, rules, None);
    var texts := Texts(names);
    forall i | 0 <= i < |names| - 1 ensures NextAscends(names, i) <==> !SeparatorAboveByte(texts[i], texts[i + 1]) {
      PathOrderIsTextOrder(texts[i], texts[i + 1]);
    }
  }

  function FileNames(files: seq<File>): (r: seq<Bytes>)
    ensures |r| == |files| && forall i | 0 <= i < |files| :: r[i] == files[i].name
  {
    seq(|files|, i requires 0 <= i < |files| => files[i].name)
  }

  /** What the runtime demands of a database besides the order of its names. */
  predicate WithinLimits(db: Database, posix: Bytes -> bool)
    requires DatabaseWritable(db)
  {
    && |DatabaseBytes(db)| <= MAX_DECODED
    && 0 < |db.rules| <= 512 && ZonesAccepted(db.rules, posix)
    && 0 < |db.names| <= 1024
  }

  /** When the runtime accepts what the generator writes. For files visited in path order,
      each with a name, the decoder returns the collected database exactly when its limits
      hold and no two neighbouring names part at a separator and a lower byte; otherwise it
      refuses the whole table. */
  lemma {:induction false} GeneratedAccepted(files: seq<File>, db: Database, posix: Bytes -> bool)
    requires PathSorted(FileNames(files)) && [] !in FileNames(files)
    requires Collect(files) == Some(db) && DatabaseWritable(db) && NamesEncodable(db.names)
    ensures Decode(DatabaseBytes(db), posix, true) ==
            if WithinLimits(db, posix) && !SeparatorSomewhere(FileNames(files)) then Some(db) else None
  {
    CollectedNames(files, db);
    SortedDecodes(db, posix);
  }

  lemma {:induction false} CollectedNames(files: seq<File>, db: Database)
    requires Collect(files) == Some(db) && NamesEncodable(db.names) && [] !in FileNames(files)
    ensures Texts(db.names) == FileNames(files) && NamesSound(db.names, |db.rules|)
  {
    IndicesInRange(files);
    NamesCount(files);
    forall i | 0 <= i < |files| ensures db.names[i].text == files[i].name != [] {
      NameLeadsToZone(files, i);
      assert FileNames(files)[i] in FileNames(files);
    }
  }

  lemma {:induction false} SortedDecodes(db: Database, posix: Bytes -> bool)
    requires DatabaseWritable(db) && PathSorted(Texts(db.names)) && NamesSound(db.names, |db.rules|)
    ensures Decode(DatabaseBytes(db), posix, true) ==
            if WithinLimits(db, posix) && !SeparatorSomewhere(Texts(db.names)) then Some(db) else None
  {
    PathSortedAccepted(db.names, |db.rules|);
    DatabaseRoundTrip(db, posix, true);
  }

  /** "a/b" and "a-b" are in path order, and the runtime refuses them. */
  lemma {:induction false} PathOrderRefused()
    ensures PathLess([97, 47, 98], [97, 45, 98])
    ensures !NamesAccepted([Name([97, 47, 98], 0), Name([97, 45, 98], 0)], 1, None)
  {
    assert [97, 47, 98][1..] == [47, 98] && [97, 45, 98][1..] == [45, 98];
    var names := [Name([97, 47, 98], 0), Name([97, 45, 98], 0)];
    assert names[1..] == [names[1]];
  }
}
