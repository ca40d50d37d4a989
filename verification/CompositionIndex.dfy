/** The sorted index of primary composites, and the runtime's searches by code and by pair. */
module CompositionIndex {
  import opened Bits
  import opened Options
  import opened Search
  import opened Sequences
  import opened NormalizationTables

  // ---- The index ----

  predicate PairLess(e: Entry, f: Entry) {
    e.first < f.first || (e.first == f.first && e.second < f.second)
  }

  /** Put `i` behind every index whose pair is not greater, as a stable sort does. */
  function InsertIndex(entries: seq<Entry>, index: seq<nat>, i: nat): seq<nat>
    requires i < |entries| && forall j | 0 <= j < |index| :: index[j] < |entries|
  {
    if index == [] || PairLess(entries[i], entries[index[0]]) then [i] + index
    else [index[0]] + InsertIndex(entries, index[1..], i)
  }

  /** The composable ones among the first `n` entries, sorted by pair. */
  function IndexUpTo(entries: seq<Entry>, n: nat): (index: seq<nat>)
    requires n <= |entries|
    ensures forall j | 0 <= j < |index| :: index[j] < n
  {
    if n == 0 then []
    else if entries[n - 1].composable then
      InsertIndexElements(entries, IndexUpTo(entries, n - 1), n - 1);
      InsertIndex(entries, IndexUpTo(entries, n - 1), n - 1)
    else IndexUpTo(entries, n - 1)
  }

  function ComposeOf(entries: seq<Entry>): seq<nat> {
    IndexUpTo(entries, |entries|)
  }

  /** The order of a stable sort by pair. */
  predicate ComesFirst(entries: seq<Entry>, x: nat, y: nat)
    requires x < |entries| && y < |entries|
  {
    PairLess(entries[x], entries[y]) || (!PairLess(entries[y], entries[x]) && x < y)
  }

  predicate SortedByPair(entries: seq<Entry>, index: seq<nat>)
    requires forall j | 0 <= j < |index| :: index[j] < |entries|
  {
    forall i, j | 0 <= i < j < |index| :: ComesFirst(entries, index[i], index[j])
  }

  lemma {:induction false} InsertIndexElements(entries: seq<Entry>, index: seq<nat>, i: nat)
    requires i < |entries| && forall j | 0 <= j < |index| :: index[j] < |entries|
    ensures multiset(InsertIndex(entries, index, i)) == multiset(index) + multiset{i}
    ensures forall x :: x in InsertIndex(entries, index, i) <==> x in index || x == i
    ensures var r := InsertIndex(entries, index, i); forall j | 0 <= j < |r| :: r[j] in index || r[j] == i
  {
    if index != [] && !PairLess(entries[i], entries[index[0]]) {
      InsertIndexElements(entries, index[1..], i);
      assert index == [index[0]] + index[1..];
    }
  }

  lemma {:induction false} InsertIndexSorted(entries: seq<Entry>, index: seq<nat>, i: nat)
    requires i < |entries| && forall j | 0 <= j < |index| :: index[j] < i
    requires SortedByPair(entries, index)
    ensures forall j | 0 <= j < |InsertIndex(entries, index, i)| :: InsertIndex(entries, index, i)[j] < |entries|
    ensures SortedByPair(entries, InsertIndex(entries, index, i))
  {
    InsertIndexElements(entries, index, i);
    if index != [] && !PairLess(entries[i], entries[index[0]]) {
      InsertIndexSorted(entries, index[1..], i);
      InsertIndexElements(entries, index[1..], i);
      var rest := InsertIndex(entries, index[1..], i);
      forall j | 0 <= j < |rest| ensures ComesFirst(entries, index[0], rest[j]) {
        assert rest[j] in index[1..] || rest[j] == i;
      }
      SortedCons(entries, index[0], rest);
    } else {
      forall j | 0 <= j < |index| ensures ComesFirst(entries, i, index[j]) {
        assert PairLess(entries[i], entries[index[0]]) && (j == 0 || ComesFirst(entries, index[0], index[j]));
      }
      SortedCons(entries, i, index);
    }
  }

  lemma {:induction false} SortedCons(entries: seq<Entry>, first: nat, rest: seq<nat>)
    requires first < |entries| && forall j | 0 <= j < |rest| :: rest[j] < |entries|
    requires SortedByPair(entries, rest) && forall j | 0 <= j < |rest| :: ComesFirst(entries, first, rest[j])
    ensures forall j | 0 <= j < |[first] + rest| :: ([first] + rest)[j] < |entries|
    ensures SortedByPair(entries, [first] + rest)
  {}

  lemma {:induction false} InsertIndexDistinct(entries: seq<Entry>, index: seq<nat>, i: nat)
    requires i < |entries| && forall j | 0 <= j < |index| :: index[j] < |entries|
    requires NoDuplicates(index) && i !in index
    ensures NoDuplicates(InsertIndex(entries, index, i))
  {
    if index != [] && !PairLess(entries[i], entries[index[0]]) {
      InsertIndexDistinct(entries, index[1..], i);
      var rest := InsertIndex(entries, index[1..], i);
      InsertIndexElements(entries, index[1..], i);
      assert forall j | 0 <= j < |rest| :: rest[j] in rest && rest[j] != index[0];
    }
  }

  lemma {:induction false} IndexElements(entries: seq<Entry>, n: nat)
    requires n <= |entries|
    ensures forall x :: x in IndexUpTo(entries, n) <==> 0 <= x < n && entries[x].composable
  {
    if n > 0 {
      IndexElements(entries, n - 1);
      if entries[n - 1].composable {
        InsertedMembers(entries, IndexUpTo(entries, n - 1), n - 1);
      }
    }
  }

  lemma {:induction false} InsertedMembers(entries: seq<Entry>, index: seq<nat>, i: nat)
    requires i < |entries| && forall j | 0 <= j < |index| :: index[j] < |entries|
    ensures forall x :: x in InsertIndex(entries, index, i) <==> x in index || x == i
  {
    InsertIndexElements(entries, index, i);
  }

  lemma {:induction false} IndexOrder(entries: seq<Entry>, n: nat)
    requires n <= |entries|
    ensures SortedByPair(entries, IndexUpTo(entries, n))
  {
    if n > 0 {
      IndexOrder(entries, n - 1);
      var before := IndexUpTo(entries, n - 1);
      if entries[n - 1].composable {
        assert IndexUpTo(entries, n) == InsertIndex(entries, before, n - 1);
        InsertIndexSorted(entries, before, n - 1);
      } else {
        assert IndexUpTo(entries, n) == before;
      }
    }
  }

  lemma {:induction false} IndexDistinct(entries: seq<Entry>, n: nat)
    requires n <= |entries|
    ensures NoDuplicates(IndexUpTo(entries, n))
  {
    if n > 0 {
      IndexDistinct(entries, n - 1);
      if entries[n - 1].composable {
        InsertIndexDistinct(entries, IndexUpTo(entries, n - 1), n - 1);
      }
    }
  }

  /** The index lists exactly the composable entries, each once, in the order of their pairs;
      entries of one pair keep their order. */
  lemma {:induction false} IndexIsSorted(entries: seq<Entry>)
    ensures forall x :: x in ComposeOf(entries) <==> 0 <= x < |entries| && entries[x].composable
    ensures NoDuplicates(ComposeOf(entries)) && SortedByPair(entries, ComposeOf(entries))
  {
    IndexElements(entries, |entries|);
    IndexOrder(entries, |entries|);
    IndexDistinct(entries, |entries|);
  }

  /** Under the generator's last assertion every index fits the 16 bits it is stored in. */
  lemma {:induction false} IndexFits(entries: seq<Entry>)
    requires |entries| < Shl(1, 16)
    ensures forall j | 0 <= j < |ComposeOf(entries)| :: ComposeOf(entries)[j] < Shl(1, 16)
  {}

  // ---- Searching the packed words ----

  /** The words hold these entries. */
  predicate Describes(words: seq<nat>, entries: seq<Entry>) {
    |words| == |entries| && forall i | 0 <= i < |words| :: HoldsEntry(words[i], entries[i])
  }

  predicate HoldsEntry(word: nat, e: Entry) {
    EntryCode(word) == e.code && EntryFirst(word) == e.first && EntrySecond(word) == e.second
  }

  /** The word with this code: a binary search by code. */
  function FindCode(words: seq<nat>, code: nat): Option<nat> {
    var k := PartitionPoint(words, CodeBelow(code));
    if k < |words| && EntryCode(words[k]) == code then Some(k) else None
  }

  function CodeBelow(code: nat): nat -> bool {
    (word: nat) => EntryCode(word) < code
  }

  predicate CodesIncrease(entries: seq<Entry>) {
    forall i, j | 0 <= i < j < |entries| :: entries[i].code < entries[j].code
  }

  /** Words in the order of their codes are partitioned by every code. */
  lemma {:induction false} CodesPartitioned(words: seq<nat>, entries: seq<Entry>, code: nat)
    requires Describes(words, entries) && CodesIncrease(entries)
    ensures Partitioned(words, CodeBelow(code))
  {
    forall i, j | 0 <= i < j < |words| && CodeBelow(code)(words[j]) ensures CodeBelow(code)(words[i]) {
      assert HoldsEntry(words[i], entries[i]) && HoldsEntry(words[j], entries[j]);
    }
  }

  /** The search by code, by bisection. */
  method SearchCode(words: seq<nat>, code: nat, ghost entries: seq<Entry>) returns (r: Option<nat>)
    requires Describes(words, entries) && CodesIncrease(entries)
    ensures r == FindCode(words, code)
    ensures r.None? ==> forall i | 0 <= i < |entries| :: entries[i].code != code
    ensures r.Some? ==> r.value < |entries| && entries[r.value].code == code
  {
    CodesPartitioned(words, entries, code);
    var k := Bisect(words, CodeBelow(code));
    r := if k < |words| && EntryCode(words[k]) == code then Some(k) else None;
    FindCodeSound(words, entries, code);
    forall i | 0 <= i < |entries| && entries[i].code == code ensures r.Some? { FindCodeFinds(words, entries, i); }
  }

  lemma {:induction false} FindCodeFinds(words: seq<nat>, entries: seq<Entry>, i: nat)
    requires Describes(words, entries) && CodesIncrease(entries) && i < |entries|
    ensures FindCode(words, entries[i].code) == Some(i)
  {
    var p := CodeBelow(entries[i].code);
    forall j | 0 <= j < |words| ensures p(words[j]) <==> j < i {
      assert HoldsEntry(words[j], entries[j]);
    }
    PartitionPointIs(words, p, i);
  }

  lemma {:induction false} FindCodeSound(words: seq<nat>, entries: seq<Entry>, code: nat)
    requires Describes(words, entries)
    ensures FindCode(words, code).Some? ==>
              FindCode(words, code).value < |entries| && entries[FindCode(words, code).value].code == code
  {
    var k := PartitionPoint(words, CodeBelow(code));
    if k < |words| { assert HoldsEntry(words[k], entries[k]); }
  }

  predicate WordBefore(words: seq<nat>, i: nat, a: nat, b: nat) {
    i < |words| && (EntryFirst(words[i]) < a || (EntryFirst(words[i]) == a && EntrySecond(words[i]) < b))
  }

  function PairBelow(words: seq<nat>, a: nat, b: nat): nat -> bool {
    (i: nat) => WordBefore(words, i, a, b)
  }

  /** The composite with this pair: the first index not before the pair, if it has it. */
  function FindPair(words: seq<nat>, index: seq<nat>, a: nat, b: nat): Option<nat> {
    var k := PartitionPoint(index, PairBelow(words, a, b));
    if k < |index| && index[k] < |words| && EntryFirst(words[index[k]]) == a && EntrySecond(words[index[k]]) == b
    then Some(index[k]) else None
  }

  predicate HasPair(e: Entry, a: nat, b: nat) {
    e.composable && e.first == a && e.second == b
  }

  lemma {:induction false} FindPairSound(words: seq<nat>, entries: seq<Entry>, a: nat, b: nat)
    requires Describes(words, entries)
    ensures var r := FindPair(words, ComposeOf(entries), a, b);
            r.Some? ==> r.value < |entries| && HasPair(entries[r.value], a, b)
  {
    var index := ComposeOf(entries);
    IndexIsSorted(entries);
    var k := PartitionPoint(index, PairBelow(words, a, b));
    if k < |index| {
      assert index[k] in index;
      assert HoldsEntry(words[index[k]], entries[index[k]]);
    }
  }

  /** The index is partitioned by every pair. */
  lemma {:induction false} PairsPartitioned(words: seq<nat>, entries: seq<Entry>, a: nat, b: nat)
    requires Describes(words, entries)
    ensures Partitioned(ComposeOf(entries), PairBelow(words, a, b))
  {
    var index := ComposeOf(entries);
    IndexIsSorted(entries);
    forall i, j | 0 <= i < j < |index| && PairBelow(words, a, b)(index[j]) ensures PairBelow(words, a, b)(index[i]) {
      assert index[i] in index && index[j] in index;
      assert HoldsEntry(words[index[i]], entries[index[i]]) && HoldsEntry(words[index[j]], entries[index[j]]);
      assert ComesFirst(entries, index[i], index[j]);
    }
  }

  /** The search by pair, by bisection of the index: it succeeds exactly when some composable
      entry has the pair, and returns the first such entry. */
  method SearchPair(words: seq<nat>, index: seq<nat>, a: nat, b: nat, ghost entries: seq<Entry>)
    returns (r: Option<nat>)
    requires Describes(words, entries) && index == ComposeOf(entries)
    ensures r == FindPair(words, index, a, b)
    ensures r.Some? ==> r.value < |entries| && HasPair(entries[r.value], a, b)
    ensures forall i | 0 <= i < |entries| && HasPair(entries[i], a, b) :: r.Some? && r.value <= i
  {
    PairsPartitioned(words, entries, a, b);
    var k := Bisect(index, PairBelow(words, a, b));
    if k < |index| && index[k] < |words| && EntryFirst(words[index[k]]) == a && EntrySecond(words[index[k]]) == b {
      r := Some(index[k]);
    } else {
      r := None;
    }
    FindPairSound(words, entries, a, b);
    forall i | 0 <= i < |entries| && HasPair(entries[i], a, b) ensures r.Some? && r.value <= i {
      FindPairComplete(words, entries, a, b, i);
    }
  }

  /** The search by pair succeeds whenever some composable entry has the pair, and returns the
      first of them. */
  lemma {:induction false} FindPairComplete(words: seq<nat>, entries: seq<Entry>, a: nat, b: nat, i: nat)
    requires Describes(words, entries) && i < |entries| && HasPair(entries[i], a, b)
    ensures var r := FindPair(words, ComposeOf(entries), a, b); r.Some? && r.value <= i
  {
    var index := ComposeOf(entries);
    IndexIsSorted(entries);
    var p := PairBelow(words, a, b);
    var k := PartitionPoint(index, p);
    assert i in index;
    var m :| 0 <= m < |index| && index[m] == i;
    assert HoldsEntry(words[i], entries[i]) && !p(i);
    assert forall j | 0 <= j < k :: p(index[j]);
    assert index[k] in index;
    assert HoldsEntry(words[index[k]], entries[index[k]]) && !p(index[k]);
    assert m == k || ComesFirst(entries, index[k], index[m]);
  }
}
