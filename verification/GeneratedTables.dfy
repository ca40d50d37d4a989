/** From the character database to the running normalizer: the tables the generator
writes, the runtime's lookups in them, and that the two agree with the plain maps. */
module GeneratedTables {
  import opened Bits
  import opened Options
  import opened StepTables
  import opened NormalizationTables
  import opened CompositionIndex
  import opened Normalization

  // ---- The generator ----

  function ClassIn(u: Ucd): nat -> nat {
    (c: nat) => if c in u.ccc then u.ccc[c] else 0
  }

  function MarkIn(u: Ucd): nat -> nat {
    (c: nat) => if c in u.marks then 1 else 0
  }

  function PackAll(entries: seq<Entry>): (words: seq<nat>)
    ensures |words| == |entries| && forall i | 0 <= i < |entries| :: words[i] == Pack(entries[i])
  {
    seq(|entries|, i requires 0 <= i < |entries| => Pack(entries[i]))
  }

  /** The tables for code points below `space` (0x110000 in the generator). */
  function Generate(u: Ucd, codes: seq<nat>, space: nat): Tables
    requires forall c | c in codes :: c in u.decomp && Encodable(u.decomp[c])
  {
    var entries := EntriesOf(u, codes);
    Tables(PackAll(entries), ComposeOf(entries),
           PackSteps(StepsOf(ClassIn(u), space), 8), PackSteps(StepsOf(MarkIn(u), space), 1))
  }

  // ---- The runtime ----

  function ToChar(code: nat): (c: nat)
    ensures Scalar(c) && (c == code || (c == 0xFFFD && !Scalar(code)))
  {
    if Scalar(code) then code else 0xFFFD
  }

  function CombiningClass(t: Tables, c: nat): nat { PackedLookup(t.ccc, 8, c) }

  predicate IsCombiningMark(t: Tables, c: nat) { PackedLookup(t.marks, 1, c) == 1 }

  function TableParts(t: Tables, c: nat): Option<seq<nat>> {
    match FindCode(t.decomp, c)
    case None => None
    case Some(i) => Some(WordParts(t.decomp[i]))
  }

  function WordParts(e: nat): seq<nat> {
    [ToChar(EntryFirst(e))] + (if EntrySecond(e) != 0 then [ToChar(EntrySecond(e))] else [])
  }

  function TableComposite(t: Tables, a: nat, b: nat): Option<nat> {
    match FindPair(t.decomp, t.compose, a, b)
    case None => None
    case Some(i) => Some(ToChar(EntryCode(t.decomp[i])))
  }

  function RuntimeData(t: Tables, depth: nat -> nat): Data {
    Data((c: nat) => CombiningClass(t, c), (c: nat) => TableParts(t, c),
         (a: nat, b: nat) => TableComposite(t, a, b), depth)
  }

  // ---- What the database provides ----

  /** Every mapping leads from a scalar value outside the Hangul blocks to scalar values of
      lesser depth, and classes fit a byte. */
  ghost predicate WellFormed(u: Ucd, codes: seq<nat>, depth: nat -> nat) {
    && SortedKeys(u, codes)
    && (forall c | c in u.decomp ::
          && Scalar(c) && c < Shl(1, 21) && !Syllable(c) && !Jamo(c)
          && Encodable(u.decomp[c])
          && forall i | 0 <= i < |u.decomp[c]| :: Scalar(u.decomp[c][i]) && depth(u.decomp[c][i]) < depth(c))
    && (forall c | c in u.ccc :: u.ccc[c] < Shl(1, 8))
  }

  lemma {:induction false} ClassAgrees(u: Ucd, codes: seq<nat>, depth: nat -> nat, space: nat, c: nat)
    requires WellFormed(u, codes, depth) && c < space
    ensures CombiningClass(Generate(u, codes, space), c) == ClassIn(u)(c)
  {
    ShlPositive(8);
    TableIsFunction(ClassIn(u), space, 8, c);
  }

  lemma {:induction false} MarkAgrees(u: Ucd, codes: seq<nat>, depth: nat -> nat, space: nat, c: nat)
    requires WellFormed(u, codes, depth) && c < space
    ensures IsCombiningMark(Generate(u, codes, space), c) <==> c in u.marks
  {
    TableIsFunction(MarkIn(u), space, 1, c);
  }

  lemma {:induction false} WordsDescribe(u: Ucd, codes: seq<nat>, depth: nat -> nat)
    requires WellFormed(u, codes, depth)
    ensures Describes(PackAll(EntriesOf(u, codes)), EntriesOf(u, codes))
    ensures CodesIncrease(EntriesOf(u, codes))
  {
    var entries := EntriesOf(u, codes);
    forall i | 0 <= i < |entries| ensures HoldsEntry(Pack(entries[i]), entries[i]) {
      assert codes[i] in codes;
      Unpack(entries[i]);
    }
  }

  lemma {:induction false} WordPartsAre(word: nat, e: Entry, m: seq<nat>)
    requires HoldsEntry(word, e) && Encodable(m) && forall i | 0 <= i < |m| :: Scalar(m[i])
    requires e.first == m[0] && e.second == if |m| == 2 then m[1] else 0
    ensures WordParts(word) == m
  {}

  lemma {:induction false} PartsFound(u: Ucd, codes: seq<nat>, depth: nat -> nat, i: nat)
    requires WellFormed(u, codes, depth) && i < |codes|
    ensures var words := PackAll(EntriesOf(u, codes));
            && FindCode(words, codes[i]) == Some(i)
            && WordParts(words[i]) == u.decomp[codes[i]]
            && EntryCode(words[i]) == codes[i]
  {
    var entries := EntriesOf(u, codes);
    var words := PackAll(entries);
    WordsDescribe(u, codes, depth);
    FindCodeFinds(words, entries, i);
    assert HoldsEntry(words[i], entries[i]);
    assert codes[i] in codes;
    WordPartsAre(words[i], entries[i], u.decomp[codes[i]]);
  }

  lemma {:induction false} PartsMissing(u: Ucd, codes: seq<nat>, depth: nat -> nat, c: nat)
    requires WellFormed(u, codes, depth) && c !in u.decomp
    ensures FindCode(PackAll(EntriesOf(u, codes)), c) == None
  {
    var entries := EntriesOf(u, codes);
    var words := PackAll(entries);
    WordsDescribe(u, codes, depth);
    FindCodeSound(words, entries, c);
    assert forall i | 0 <= i < |codes| :: codes[i] in codes;
  }

  /** The search by code returns exactly the mapping of the database. */
  lemma {:induction false} PartsAgree(u: Ucd, codes: seq<nat>, depth: nat -> nat, space: nat, c: nat)
    requires WellFormed(u, codes, depth)
    ensures TableParts(Generate(u, codes, space), c) == if c in u.decomp then Some(u.decomp[c]) else None
  {
    if c in u.decomp {
      assert c in codes;
      var i :| 0 <= i < |codes| && codes[i] == c;
      PartsFound(u, codes, depth, i);
    } else {
      PartsMissing(u, codes, depth, c);
    }
  }

  /** A primary composite: decomposes into the pair and is not excluded. */
  predicate Composes(u: Ucd, x: nat, a: nat, b: nat) {
    x in u.decomp && u.decomp[x] == [a, b] && x !in u.exclusions
  }

  lemma {:induction false} EntryComposes(u: Ucd, x: nat, a: nat, b: nat)
    requires x in u.decomp && Encodable(u.decomp[x]) && HasPair(EntryOf(u, x), a, b)
    ensures Composes(u, x, a, b)
  {
    var m := u.decomp[x];
    assert m == [m[0], m[1]];
  }

  lemma {:induction false} PairFound(u: Ucd, codes: seq<nat>, depth: nat -> nat, a: nat, b: nat)
    requires WellFormed(u, codes, depth)
    ensures var words := PackAll(EntriesOf(u, codes));
            var r := FindPair(words, ComposeOf(EntriesOf(u, codes)), a, b);
            r.Some? ==> r.value < |words| && Composes(u, ToChar(EntryCode(words[r.value])), a, b)
  {
    var entries := EntriesOf(u, codes);
    var words := PackAll(entries);
    WordsDescribe(u, codes, depth);
    FindPairSound(words, entries, a, b);
    var r := FindPair(words, ComposeOf(entries), a, b);
    if r.Some? {
      assert HoldsEntry(words[r.value], entries[r.value]) && HasPair(entries[r.value], a, b);
      assert codes[r.value] in codes;
      EntryComposes(u, codes[r.value], a, b);
    }
  }

  lemma {:induction false} PairExists(u: Ucd, codes: seq<nat>, depth: nat -> nat, a: nat, b: nat, x: nat)
    requires WellFormed(u, codes, depth) && Composes(u, x, a, b)
    ensures FindPair(PackAll(EntriesOf(u, codes)), ComposeOf(EntriesOf(u, codes)), a, b).Some?
  {
    var entries := EntriesOf(u, codes);
    WordsDescribe(u, codes, depth);
    assert x in codes;
    var i :| 0 <= i < |codes| && codes[i] == x;
    FindPairComplete(PackAll(entries), entries, a, b, i);
  }

  /** The search by pair returns a primary composite of the pair, and fails only when the
      database has none. */
  lemma {:induction false} CompositeAgrees(u: Ucd, codes: seq<nat>, depth: nat -> nat, space: nat, a: nat, b: nat)
    requires WellFormed(u, codes, depth)
    ensures var r := TableComposite(Generate(u, codes, space), a, b);
            && (r.Some? ==> Composes(u, r.value, a, b))
            && (r.None? ==> forall x :: !Composes(u, x, a, b))
  {
    PairFound(u, codes, depth, a, b);
    if TableComposite(Generate(u, codes, space), a, b).None? {
      forall x ensures !Composes(u, x, a, b) {
        if Composes(u, x, a, b) {
          PairExists(u, codes, depth, a, b, x);
        }
      }
    }
  }

  /** With distinct pairs, composing what a primary composite decomposes into returns it. */
  lemma {:induction false} ComposeUndoesDecompose(u: Ucd, codes: seq<nat>, depth: nat -> nat, space: nat, x: nat)
    requires WellFormed(u, codes, depth)
    requires x in u.decomp && |u.decomp[x]| == 2 && x !in u.exclusions
    requires forall y, a, b :: Composes(u, x, a, b) && Composes(u, y, a, b) ==> x == y
    ensures TableComposite(Generate(u, codes, space), u.decomp[x][0], u.decomp[x][1]) == Some(x)
  {
    var m := u.decomp[x];
    assert m == [m[0], m[1]];
    CompositeAgrees(u, codes, depth, space, m[0], m[1]);
    assert Composes(u, x, m[0], m[1]);
  }

  /** The generated tables fit together as the normalizer needs, so everything proved of
      NFD and NFC holds of the running code. */
  lemma {:induction false} GeneratedTablesAreSound(u: Ucd, codes: seq<nat>, depth: nat -> nat, space: nat)
    requires WellFormed(u, codes, depth)
    ensures Sound(RuntimeData(Generate(u, codes, space), depth))
  {
    var t := Generate(u, codes, space);
    var d := RuntimeData(t, depth);
    forall c: nat ensures d.partsOf(c).Some? ==> Grounded(d, c, d.partsOf(c).value) {
      PartsAgree(u, codes, depth, space, c);
    }
    forall c: nat | Jamo(c) ensures d.partsOf(c) == None {
      PartsAgree(u, codes, depth, space, c);
    }
    forall a: nat, b: nat | d.compositeOf(a, b).Some?
      ensures !Syllable(d.compositeOf(a, b).value) && d.partsOf(d.compositeOf(a, b).value) == Some([a, b])
    {
      CompositeAgrees(u, codes, depth, space, a, b);
      PartsAgree(u, codes, depth, space, d.compositeOf(a, b).value);
    }
  }
}
