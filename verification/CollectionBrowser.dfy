/** The grouped list of a collection: entries in the chosen order with a header wherever the
group changes. */
module CollectionBrowser {
  import opened Options
  import opened Sequences

  /** A note or file; `modified` is its time of modification where it has a valid one. */
  datatype Entry = Entry(key: string, path: string, isNote: bool, modified: Option<int>)

  datatype Item = Header(count: nat, title: string) | Row(entry: Entry, entryIndex: nat)

  // ---- Grouping ----

  /** The list of the first `n` entries, grouped. */
  function Items(titles: seq<string>, entries: seq<Entry>, n: nat): seq<Item>
    requires n <= |titles| == |entries|
  {
    if n == 0 then [] else Items(titles, entries, n - 1) + Opening(titles, n - 1) + [Row(entries[n - 1], n - 1)]
  }

  /** The header before entry `n`, where it begins a group. */
  function Opening(titles: seq<string>, n: nat): (r: seq<Item>)
    requires n < |titles|
    ensures r == [] || (|r| == 1 && r[0].Header? && r[0].title == titles[n])
  {
    if n == 0 || titles[n] != titles[n - 1] then [Header(Headers(titles, n), titles[n])] else []
  }

  /** How many headers the first `n` titles need. */
  function Headers(titles: seq<string>, n: nat): nat
    requires n <= |titles|
  {
    if n == 0 then 0 else Headers(titles, n - 1) + (if n == 1 || titles[n - 1] != titles[n - 2] then 1 else 0)
  }

  function Grouped(entries: seq<Entry>, titleOf: Entry -> string): seq<Item> {
    Items(Mapped(entries, titleOf), entries, |entries|)
  }

  /** The entries alone, as search results are listed. */
  function Ungrouped(entries: seq<Entry>): (r: seq<Item>)
    ensures |r| == |entries| && forall i | 0 <= i < |r| :: r[i] == Row(entries[i], i)
  {
    seq(|entries|, i requires 0 <= i < |entries| => Row(entries[i], i))
  }

  /** `browserListItems`, the title of every entry being computed by `titleOf`. */
  method ListItems(entries: seq<Entry>, titleOf: Entry -> string, searching: bool) returns (items: seq<Item>)
    ensures items == if searching then Ungrouped(entries) else Grouped(entries, titleOf)
  {
    if searching {
      return Ungrouped(entries);
    }
    items := [];
    var current: Option<string> := None;
    var headerCount := 0;
    var titles := Mapped(entries, titleOf);
    for i := 0 to |entries|
      invariant items == Items(titles, entries, i) && headerCount == Headers(titles, i)
      invariant current == if i == 0 then None else Some(titles[i - 1])
    {
      var title := titleOf(entries[i]);
      if current != Some(title) {
        current := Some(title);
        items := items + [Header(headerCount, title)];
        headerCount := headerCount + 1;
      }
      items := items + [Row(entries[i], i)];
    }
  }

  function Rows(items: seq<Item>): seq<Item> {
    if items == [] then []
    else Rows(items[..|items| - 1]) + (if items[|items| - 1].Row? then [items[|items| - 1]] else [])
  }

  function HeaderTitles(items: seq<Item>): seq<string> {
    if items == [] then []
    else HeaderTitles(items[..|items| - 1]) + (if items[|items| - 1].Header? then [items[|items| - 1].title] else [])
  }

  lemma {:induction false} RowsPush(items: seq<Item>, x: Item)
    ensures Rows(items + [x]) == Rows(items) + (if x.Row? then [x] else [])
    ensures HeaderTitles(items + [x]) == HeaderTitles(items) + (if x.Header? then [x.title] else [])
  {
    assert (items + [x])[..|items|] == items;
  }

  predicate RowsOf(rows: seq<Item>, entries: seq<Entry>, n: nat)
    requires n <= |entries|
  {
    |rows| == n && forall i | 0 <= i < n :: rows[i] == Row(entries[i], i)
  }

  lemma {:induction false} RowsOfPush(rows: seq<Item>, entries: seq<Entry>, n: nat)
    requires n < |entries| && RowsOf(rows, entries, n)
    ensures RowsOf(rows + [Row(entries[n], n)], entries, n + 1)
  {}

  /** Without its headers the list is the entries in order, each with its own index. */
  lemma {:induction false} RowsAreEntries(titles: seq<string>, entries: seq<Entry>, n: nat)
    requires n <= |titles| == |entries|
    ensures RowsOf(Rows(Items(titles, entries, n)), entries, n)
  {
    if n > 0 {
      var before := Items(titles, entries, n - 1);
      RowsAreEntries(titles, entries, n - 1);
      RowsStep(before, Opening(titles, n - 1), Row(entries[n - 1], n - 1));
      RowsOfPush(Rows(before), entries, n - 1);
    }
  }

  lemma {:induction false} RowsStep(before: seq<Item>, title: seq<Item>, row: Item)
    requires row.Row? && (title == [] || (|title| == 1 && title[0].Header?))
    ensures Rows(before + title + [row]) == Rows(before) + [row]
    ensures HeaderTitles(before + title + [row]) ==
            HeaderTitles(before) + (if title == [] then [] else [title[0].title])
  {
    RowsPush(before + title, row);
    if title == [] {
      assert before + title == before;
    } else {
      assert title == [title[0]];
      RowsPush(before, title[0]);
    }
  }

  /** The title and number of the last header of a list. */
  function LastHeader(items: seq<Item>): (r: Option<Item>)
    ensures r.Some? ==> r.value.Header?
  {
    if items == [] then None
    else if items[|items| - 1].Header? then Some(items[|items| - 1])
    else LastHeader(items[..|items| - 1])
  }

  lemma {:induction false} LastHeaderPush(items: seq<Item>, x: Item)
    ensures LastHeader(items + [x]) == if x.Header? then Some(x) else LastHeader(items)
  {
    assert (items + [x])[..|items|] == items;
  }

  /** Every row stands under the header with its own title, headers being numbered from 0. */
  predicate UnderHeaders(items: seq<Item>, titles: seq<string>) {
    forall m | 0 <= m < |items| :: InItsPlace(items, titles, m)
  }

  predicate InItsPlace(items: seq<Item>, titles: seq<string>, m: nat)
    requires m < |items|
  {
    var before := LastHeader(items[..m]);
    match items[m]
    case Header(count, _) => count == (if before.None? then 0 else before.value.count + 1)
    case Row(_, i) => i < |titles| && before.Some? && before.value.title == titles[i]
  }

  lemma {:induction false} UnderHeadersPush(items: seq<Item>, x: Item, titles: seq<string>)
    requires UnderHeaders(items, titles)
    requires match x
             case Header(count, _) =>
               count == (if LastHeader(items).None? then 0 else LastHeader(items).value.count + 1)
             case Row(_, i) => i < |titles| && LastHeader(items).Some? && LastHeader(items).value.title == titles[i]
    ensures UnderHeaders(items + [x], titles)
  {
    forall m | 0 <= m < |items + [x]| ensures InItsPlace(items + [x], titles, m) {
      assert (items + [x])[..m] == items[..m];
      if m < |items| { assert InItsPlace(items, titles, m); } else { assert items[..m] == items; }
    }
  }

  lemma {:induction false} RowsUnderHeaders(titles: seq<string>, entries: seq<Entry>, n: nat)
    requires n <= |titles| == |entries|
    ensures UnderHeaders(Items(titles, entries, n), titles)
    ensures var last := LastHeader(Items(titles, entries, n));
            if n == 0 then last == None && Headers(titles, n) == 0
            else last.Some? && last.value.Header? && last.value.title == titles[n - 1]
                 && last.value.count + 1 == Headers(titles, n)
  {
    if n > 0 {
      var before, row := Items(titles, entries, n - 1), Row(entries[n - 1], n - 1);
      RowsUnderHeaders(titles, entries, n - 1);
      var opening := Opening(titles, n - 1);
      if opening == [] {
        assert before + opening == before;
      } else {
        assert opening == [opening[0]];
        UnderHeadersPush(before, opening[0], titles);
        LastHeaderPush(before, opening[0]);
      }
      UnderHeadersPush(before + opening, row, titles);
      LastHeaderPush(before + opening, row);
    }
  }

  /** The first `n` titles with repetitions in a row left out. */
  function Groups(titles: seq<string>, n: nat): seq<string>
    requires n <= |titles|
  {
    if n == 0 then []
    else Groups(titles, n - 1) + (if n == 1 || titles[n - 1] != titles[n - 2] then [titles[n - 1]] else [])
  }

  lemma {:induction false} HeadersAreGroups(titles: seq<string>, entries: seq<Entry>, n: nat)
    requires n <= |titles| == |entries|
    ensures HeaderTitles(Items(titles, entries, n)) == Groups(titles, n)
  {
    if n > 0 {
      HeadersAreGroups(titles, entries, n - 1);
      RowsStep(Items(titles, entries, n - 1), Opening(titles, n - 1), Row(entries[n - 1], n - 1));
    }
  }

  // ---- Modified order ----

  /** `compareOptional` on times: entries without one come last in either direction. */
  function CompareModified(a: Option<int>, b: Option<int>, descending: bool): int {
    if a.None? && b.None? then 0
    else if a.None? then 1
    else if b.None? then -1
    else if descending then b.value - a.value else a.value - b.value
  }

  /** Sorted by time of modification, as the comparator orders it. */
  predicate InModifiedOrder(entries: seq<Entry>, descending: bool) {
    forall i, j | 0 <= i < j < |entries| :: CompareModified(entries[i].modified, entries[j].modified, descending) <= 0
  }

  /** The comparator is a total preorder, so that sorting with it is well defined. */
  lemma {:induction false} ModifiedOrderIsPreorder(a: Option<int>, b: Option<int>, c: Option<int>, descending: bool)
    ensures CompareModified(a, b, descending) <= 0 || CompareModified(b, a, descending) <= 0
    ensures CompareModified(a, b, descending) <= 0 && CompareModified(b, c, descending) <= 0 ==>
              CompareModified(a, c, descending) <= 0
    ensures CompareModified(a, b, descending) < 0 <==> CompareModified(b, a, descending) > 0
  {}

  /** A list in which no entry comes before its predecessor, as sorting leaves it, is in
      modified order throughout. */
  lemma {:induction false} SortedIsModifiedOrder(entries: seq<Entry>, descending: bool)
    requires forall i | 0 <= i < |entries| - 1 ::
               CompareModified(entries[i].modified, entries[i + 1].modified, descending) <= 0
    ensures InModifiedOrder(entries, descending)
  {
    if |entries| > 1 {
      var n := |entries| - 1;
      SortedIsModifiedOrder(entries[..n], descending);
      forall i | 0 <= i < n ensures CompareModified(entries[i].modified, entries[n].modified, descending) <= 0 {
        var last := entries[n - 1].modified;
        assert CompareModified(last, entries[n - 1 + 1].modified, descending) <= 0;
        if i < n - 1 {
          assert CompareModified(entries[..n][i].modified, entries[..n][n - 1].modified, descending) <= 0;
        }
        ModifiedOrderIsPreorder(entries[i].modified, last, entries[n].modified, descending);
      }
    }
  }

  /** Dated entries come newest first when descending, oldest first otherwise. */
  lemma {:induction false} DatedInOrder(entries: seq<Entry>, descending: bool, i: nat, j: nat)
    requires InModifiedOrder(entries, descending) && i < j < |entries|
    requires entries[i].modified.Some? && entries[j].modified.Some?
    ensures var a, b := entries[i].modified.value, entries[j].modified.value; if descending then a >= b else a <= b
  {}

  lemma {:induction false} UndatedLast(entries: seq<Entry>, descending: bool, i: nat, j: nat)
    requires InModifiedOrder(entries, descending) && i < j < |entries| && entries[i].modified.None?
    ensures entries[j].modified.None?
  {}

  const DAY := 86_400_000

  /** Rounding down, as `Math.floor` does for either sign. */
  function FloorDiv(a: int, b: int): int
    requires b > 0
  {
    a / b
  }

  /** The group of a time, numbered from today backwards; 5 is the group of entries without
      one. `dayStart` gives the start of the day a time falls in. */
  function Rank(dayStart: int -> int, now: int, modified: Option<int>): nat {
    if modified.None? then 5
    else
      var day := FloorDiv(dayStart(now) - dayStart(modified.value), DAY);
      if day <= 0 then 0 else if day == 1 then 1 else if day < 7 then 2 else if day < 30 then 3 else 4
  }

  /** Which time each group covers, counted in whole days between the starts of the two days. */
  lemma {:induction false} RankCovers(dayStart: int -> int, now: int, modified: int)
    ensures var ago, rank := dayStart(now) - dayStart(modified), Rank(dayStart, now, Some(modified));
            && (rank == 0 <==> ago < 86_400_000)
            && (rank == 1 <==> 86_400_000 <= ago < 2 * 86_400_000)
            && (rank == 2 <==> 2 * 86_400_000 <= ago < 7 * 86_400_000)
            && (rank == 3 <==> 7 * 86_400_000 <= ago < 30 * 86_400_000)
            && (rank == 4 <==> 30 * 86_400_000 <= ago)
  {}

  /** The labels of the groups. */
  lemma {:induction false} TitlesMean(dayStart: int -> int, now: int, e: Entry)
    ensures ModifiedTitle(dayStart, now)(e) ==
            if e.modified.None? then "Undated"
            else match Rank(dayStart, now, e.modified)
                 case 0 => "Today" case 1 => "Yesterday" case 2 => "Previous 7 days"
                 case 3 => "Previous 30 days" case _ => "Older"
  {}

  const TITLES: seq<string> := ["Today", "Yesterday", "Previous 7 days", "Previous 30 days", "Older", "Undated"]

  function ModifiedTitle(dayStart: int -> int, now: int): Entry -> string {
    (e: Entry) => TITLES[Rank(dayStart, now, e.modified)]
  }

  ghost predicate Monotone(dayStart: int -> int) {
    forall a, b :: a <= b ==> dayStart(a) <= dayStart(b)
  }

  lemma {:induction false} RankMonotone(dayStart: int -> int, now: int, a: int, b: int)
    requires Monotone(dayStart) && a <= b
    ensures Rank(dayStart, now, Some(b)) <= Rank(dayStart, now, Some(a))
  {
    var x, y := dayStart(now) - dayStart(b), dayStart(now) - dayStart(a);
    assert x <= y;
    assert FloorDiv(x, DAY) <= FloorDiv(y, DAY);
  }

  /** In a sorted list ranks only grow (newest first) or only shrink until the undated end
      (oldest first), so equal ranks stand together. */
  predicate Together(ranks: seq<nat>) {
    forall i, j, k | 0 <= i < j < k < |ranks| && ranks[i] == ranks[k] :: ranks[j] == ranks[i]
  }

  function Ranks(dayStart: int -> int, now: int, entries: seq<Entry>): (r: seq<nat>)
    ensures |r| == |entries| && forall i | 0 <= i < |r| :: r[i] == Rank(dayStart, now, entries[i].modified)
  {
    seq(|entries|, i requires 0 <= i < |entries| => Rank(dayStart, now, entries[i].modified))
  }

  lemma {:induction false} RanksTogether(dayStart: int -> int, now: int, entries: seq<Entry>, descending: bool)
    requires Monotone(dayStart) && InModifiedOrder(entries, descending)
    ensures Together(Ranks(dayStart, now, entries))
  {
    var ranks := Ranks(dayStart, now, entries);
    forall i, j, k | 0 <= i < j < k < |ranks| && ranks[i] == ranks[k] ensures ranks[j] == ranks[i] {
      var a, b, c := entries[i].modified, entries[j].modified, entries[k].modified;
      assert CompareModified(a, b, descending) <= 0 && CompareModified(b, c, descending) <= 0;
      if a.Some? && c.Some? {
        if descending {
          RankMonotone(dayStart, now, b.value, a.value);
          RankMonotone(dayStart, now, c.value, b.value);
        } else {
          RankMonotone(dayStart, now, a.value, b.value);
          RankMonotone(dayStart, now, b.value, c.value);
        }
      }
    }
  }

  // ---- Every group once ----

  predicate TitlesTogether(titles: seq<string>) {
    forall i, j, k | 0 <= i < j < k < |titles| && titles[i] == titles[k] :: titles[j] == titles[i]
  }

  lemma {:induction false} GroupsElements(titles: seq<string>, n: nat, x: string)
    requires n <= |titles|
    ensures x in Groups(titles, n) ==> x in titles[..n]
  {
    if n > 0 {
      GroupsElements(titles, n - 1, x);
      assert titles[..n] == titles[..n - 1] + [titles[n - 1]];
    }
  }

  /** A title that differs from the one before it did not occur earlier. */
  lemma {:induction false} NewTitle(titles: seq<string>, n: nat)
    requires TitlesTogether(titles) && 0 < n < |titles| && titles[n] != titles[n - 1]
    ensures titles[n] !in titles[..n]
  {}

  lemma {:induction false} GroupsDistinct(titles: seq<string>, n: nat)
    requires TitlesTogether(titles) && n <= |titles|
    ensures NoDuplicates(Groups(titles, n))
  {
    if n > 0 {
      GroupsDistinct(titles, n - 1);
      if n > 1 && titles[n - 1] != titles[n - 2] {
        NewTitle(titles, n - 1);
        GroupsElements(titles, n - 1, titles[n - 1]);
      }
    }
  }

  lemma {:induction false} TitlesDiffer(i: nat, j: nat)
    requires i < 6 && j < 6 && TITLES[i] == TITLES[j]
    ensures i == j
  {
    assert TITLES[0][0] == 'T' && TITLES[1][0] == 'Y' && TITLES[4][0] == 'O' && TITLES[5][0] == 'U';
    assert TITLES[2][9] == '7' && TITLES[3][9] == '3' && TITLES[2][0] == 'P' && TITLES[3][0] == 'P';
  }

  /** In modified order, either direction, every group has one header: entries of one group
      stand together, and those without a time are last. */
  lemma {:induction false} ModifiedHeadersOnce(dayStart: int -> int, now: int, entries: seq<Entry>, descending: bool)
    requires Monotone(dayStart) && InModifiedOrder(entries, descending)
    ensures NoDuplicates(HeaderTitles(Grouped(entries, ModifiedTitle(dayStart, now))))
  {
    var titles := Mapped(entries, ModifiedTitle(dayStart, now));
    var ranks := Ranks(dayStart, now, entries);
    RanksTogether(dayStart, now, entries, descending);
    forall i, j, k | 0 <= i < j < k < |titles| && titles[i] == titles[k] ensures titles[j] == titles[i] {
      TitlesDiffer(ranks[i], ranks[k]);
    }
    GroupedOnce(entries, ModifiedTitle(dayStart, now));
  }

  /** Where equal titles stand together, every title is the header of one group. */
  lemma {:induction false} GroupedOnce(entries: seq<Entry>, titleOf: Entry -> string)
    requires TitlesTogether(Mapped(entries, titleOf))
    ensures NoDuplicates(HeaderTitles(Grouped(entries, titleOf)))
  {
    var titles := Mapped(entries, titleOf);
    HeadersAreGroups(titles, entries, |entries|);
    GroupsDistinct(titles, |entries|);
  }

  /** Pinned notes get a group of their own. */
  function PinnedTitle(pinned: set<string>, titleOf: Entry -> string): Entry -> string {
    (e: Entry) => if e.isNote && e.path in pinned then "Pinned" else titleOf(e)
  }

  predicate IsPinned(pinned: set<string>, e: Entry) { e.isNote && e.path in pinned }

  /** With pinned notes moved to the front, and the rest in modified order, every group still
      has one header. */
  lemma {:induction false} PinnedHeadersOnce(dayStart: int -> int, now: int, front: seq<Entry>, rest: seq<Entry>,
                                             descending: bool, pinned: set<string>)
    requires Monotone(dayStart) && InModifiedOrder(rest, descending)
    requires forall i | 0 <= i < |front| :: IsPinned(pinned, front[i])
    requires forall i | 0 <= i < |rest| :: !IsPinned(pinned, rest[i])
    ensures var titleOf := PinnedTitle(pinned, ModifiedTitle(dayStart, now));
            NoDuplicates(HeaderTitles(Grouped(front + rest, titleOf)))
  {
    PinnedTogether(dayStart, now, front, rest, descending, pinned);
    GroupedOnce(front + rest, PinnedTitle(pinned, ModifiedTitle(dayStart, now)));
  }

  /** The header above a row is "Pinned" for the pinned notes, and the label of its day for
      every other entry, an attachment with a pinned path included. */
  lemma {:induction false} PinnedUnderPinned(dayStart: int -> int, now: int, entries: seq<Entry>, pinned: set<string>,
                                             m: nat)
    requires var items := Grouped(entries, PinnedTitle(pinned, ModifiedTitle(dayStart, now)));
             m < |items| && items[m].Row?
    ensures var items := Grouped(entries, PinnedTitle(pinned, ModifiedTitle(dayStart, now)));
            var i := items[m].entryIndex;
            && i < |entries| && LastHeader(items[..m]).Some?
            && LastHeader(items[..m]).value.title ==
               if entries[i].isNote && entries[i].path in pinned then "Pinned"
               else TITLES[Rank(dayStart, now, entries[i].modified)]
  {
    var titles := Mapped(entries, PinnedTitle(pinned, ModifiedTitle(dayStart, now)));
    RowsUnderHeaders(titles, entries, |entries|);
    assert InItsPlace(Items(titles, entries, |entries|), titles, m);
  }

  lemma {:induction false} PinnedTogether(dayStart: int -> int, now: int, front: seq<Entry>, rest: seq<Entry>,
                                          descending: bool, pinned: set<string>)
    requires Monotone(dayStart) && InModifiedOrder(rest, descending)
    requires forall i | 0 <= i < |front| :: IsPinned(pinned, front[i])
    requires forall i | 0 <= i < |rest| :: !IsPinned(pinned, rest[i])
    ensures TitlesTogether(Mapped(front + rest, PinnedTitle(pinned, ModifiedTitle(dayStart, now))))
  {
    var titles := Mapped(front + rest, PinnedTitle(pinned, ModifiedTitle(dayStart, now)));
    var ranks := Ranks(dayStart, now, rest);
    RanksTogether(dayStart, now, rest, descending);
    var m := |front|;
    forall i | 0 <= i < |titles| ensures i < m ==> titles[i] == "Pinned"
                                 ensures i >= m ==> titles[i] == TITLES[ranks[i - m]] && titles[i] != "Pinned"
    {
      if i >= m { NotPinned(ranks[i - m]); }
    }
    forall i, j, k | 0 <= i < j < k < |titles| && titles[i] == titles[k] ensures titles[j] == titles[i] {
      if i >= m { TitlesDiffer(ranks[i - m], ranks[k - m]); }
    }
  }

  lemma {:induction false} NotPinned(i: nat)
    requires i < 6
    ensures TITLES[i] != "Pinned"
  {
    assert "Pinned"[0] == 'P' && "Pinned"[1] == 'i' && TITLES[2][1] == 'r' && TITLES[3][1] == 'r';
    assert TITLES[0][0] == 'T' && TITLES[1][0] == 'Y' && TITLES[4][0] == 'O' && TITLES[5][0] == 'U';
  }
}
