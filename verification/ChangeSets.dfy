/** Position mapping through a document change, as the editor library does it.

A change is a list of sections covering the whole old document: a stretch that is
kept, or a stretch that is replaced by new cells. The pending-attachment field maps
its anchors with `MapPos` and drops those for which `Touched` holds. */
module ChangeSets {
  import opened Sequences

  datatype Section<T> = Keep(len: nat) | Replace(len: nat, inserted: seq<T>)

  /** The length of the document the change applies to. */
  function OldLength<T>(cs: seq<Section<T>>): nat {
    if cs == [] then 0 else cs[0].len + OldLength(cs[1..])
  }

  function Apply<T>(doc: seq<T>, cs: seq<Section<T>>): seq<T>
    requires |doc| == OldLength(cs)
  {
    if cs == [] then []
    else
      (if cs[0].Keep? then doc[..cs[0].len] else cs[0].inserted) + Apply(doc[cs[0].len..], cs[1..])
  }

  /** Where position `pos` goes. A position exactly at an insertion stays before it
      when `assoc` is negative and moves behind it otherwise. */
  function MapPos<T>(cs: seq<Section<T>>, pos: nat, assoc: int): nat
    requires pos <= OldLength(cs)
  {
    if cs == [] then 0
    else
      var n := cs[0].len;
      match cs[0]
      case Keep(_) =>
        if n > pos then pos else n + MapPos(cs[1..], pos - n, assoc)
      case Replace(_, inserted) =>
        if n > pos || (n == pos && assoc < 0 && n == 0) then
          if pos == 0 || assoc < 0 then 0 else |inserted|
        else
          |inserted| + MapPos(cs[1..], pos - n, assoc)
  }

  /** Some non-empty changed range reaches `pos`, its end points included. Changed
      ranges that border each other are one range for the editor; that makes no
      difference, since their union is the same set of positions. */
  predicate Touched<T>(cs: seq<Section<T>>, pos: int) {
    cs != [] &&
    ((cs[0].Replace? && cs[0].len != 0 && 0 <= pos <= cs[0].len) || Touched(cs[1..], pos - cs[0].len))
  }

  /** The change that inserts `inserted` at `at` and nothing else. */
  function Insertion<T>(length: nat, at: nat, inserted: seq<T>): seq<Section<T>>
    requires at <= length
  {
    [Keep(at), Replace(0, inserted), Keep(length - at)]
  }

  function Unchanged<T>(length: nat): seq<Section<T>> {
    [Keep(length)]
  }

  lemma {:induction false} MapPosInDocument<T>(doc: seq<T>, cs: seq<Section<T>>, pos: nat, assoc: int)
    requires pos <= OldLength(cs) == |doc|
    ensures MapPos(cs, pos, assoc) <= |Apply(doc, cs)|
  {
    if cs != [] && pos >= cs[0].len {
      MapPosInDocument(doc[cs[0].len..], cs[1..], pos - cs[0].len, assoc);
    }
  }

  /** Two positions that no deletion reaches keep their strict order, whatever side
      each of them leans to. */
  lemma {:induction false} MapPosStrict<T>(cs: seq<Section<T>>, p: nat, q: nat, a: int, b: int)
    requires p < q <= OldLength(cs)
    requires !Touched(cs, p) && !Touched(cs, q)
    ensures MapPos(cs, p, a) < MapPos(cs, q, b)
  {
    var n := cs[0].len;
    if p >= n {
      MapPosStrict(cs[1..], p - n, q - n, a, b);
    }
  }

  // ---- What the three functions mean, section by section ----

  lemma {:induction false} LengthConcat<T>(a: seq<Section<T>>, b: seq<Section<T>>)
    ensures OldLength(a + b) == OldLength(a) + OldLength(b)
  {
    if a == [] {
      assert a + b == b;
    } else {
      assert (a + b)[1..] == a[1..] + b;
      LengthConcat(a[1..], b);
    }
  }

  /** A kept stretch is copied, and a replaced one gives way to its new cells. */
  lemma {:induction false} ApplyOne<T>(doc: seq<T>, section: Section<T>)
    requires |doc| == section.len
    ensures OldLength([section]) == |doc|
    ensures Apply(doc, [section]) == if section.Keep? then doc else section.inserted
  {
    assert [section][1..] == [];
    assert doc[..section.len] == doc;
    assert Apply(doc, [section]) == (if section.Keep? then doc else section.inserted) + [];
  }

  /** Sections follow each other. */
  lemma {:induction false} ApplyConcat<T>(doc: seq<T>, a: seq<Section<T>>, b: seq<Section<T>>)
    requires |doc| == OldLength(a) + OldLength(b)
    ensures OldLength(a + b) == |doc|
    ensures Apply(doc, a + b) == Apply(doc[..OldLength(a)], a) + Apply(doc[OldLength(a)..], b)
  {
    LengthConcat(a, b);
    if a == [] {
      assert a + b == b && doc[OldLength(a)..] == doc;
      assert Apply(doc[..0], a) == [];
    } else {
      var n, m := a[0].len, OldLength(a);
      assert (a + b)[1..] == a[1..] + b;
      ApplyConcat(doc[n..], a[1..], b);
      ApplySlices(doc, n, m);
      var head := if a[0].Keep? then doc[..n] else a[0].inserted;
      Assoc(head, Apply(doc[n..][..m - n], a[1..]), Apply(doc[m..], b));
    }
  }

  lemma {:induction false} ApplySlices<T>(doc: seq<T>, n: nat, m: nat)
    requires n <= m <= |doc|
    ensures doc[n..][..m - n] == doc[..m][n..] && doc[n..][m - n..] == doc[m..] && doc[..m][..n] == doc[..n]
  {}

  /** Section `i` of the change deletes or replaces a stretch that `pos` is in or borders on. */
  predicate Reaches<T>(cs: seq<Section<T>>, i: nat, pos: int)
    requires i < |cs|
  {
    cs[i].Replace? && cs[i].len > 0 && OldLength(cs[..i]) <= pos <= OldLength(cs[..i]) + cs[i].len
  }

  lemma {:induction false} ReachesShifted<T>(cs: seq<Section<T>>, i: nat, pos: int)
    requires 0 < i < |cs|
    ensures Reaches(cs, i, pos) <==> Reaches(cs[1..], i - 1, pos - cs[0].len)
  {
    assert cs[..i][1..] == cs[1..][..i - 1];
  }

  /** A position is touched exactly when some section reaches it. */
  lemma {:induction false} TouchedIff<T>(cs: seq<Section<T>>, pos: int)
    ensures Touched(cs, pos) <==> exists i :: 0 <= i < |cs| && Reaches(cs, i, pos)
  {
    if cs != [] {
      var later := pos - cs[0].len;
      TouchedIff(cs[1..], later);
      assert OldLength(cs[..0]) == 0;
      if Touched(cs[1..], later) {
        var j :| 0 <= j < |cs[1..]| && Reaches(cs[1..], j, later);
        ReachesShifted(cs, j + 1, pos);
        assert Reaches(cs, j + 1, pos);
      } else if cs[0].Replace? && cs[0].len != 0 && 0 <= pos <= cs[0].len {
        assert Reaches(cs, 0, pos);
      } else {
        forall i | 0 <= i < |cs| ensures !Reaches(cs, i, pos) {
          if i > 0 { ReachesShifted(cs, i, pos); }
        }
      }
    }
  }

  lemma {:induction false} TouchedMeans<T>(cs: seq<Section<T>>, pos: int)
    ensures Touched(cs, pos) <==>
            exists i :: && 0 <= i < |cs| && cs[i].Replace? && cs[i].len > 0
                        && OldLength(cs[..i]) <= pos <= OldLength(cs[..i]) + cs[i].len
  {
    TouchedIff(cs, pos);
    if Touched(cs, pos) {
      var i :| 0 <= i < |cs| && Reaches(cs, i, pos);
      assert cs[i].Replace? && cs[i].len > 0;
    } else {
      forall i | 0 <= i < |cs| && cs[i].Replace? && cs[i].len > 0
        ensures !(OldLength(cs[..i]) <= pos <= OldLength(cs[..i]) + cs[i].len)
      {
        assert !Reaches(cs, i, pos);
      }
    }
  }

  /** An untouched position keeps its neighbours: it stays right behind the cell before it when
      it leans to the left, and right before the cell behind it otherwise. */
  lemma {:induction false} MapPosKeepsNeighbours<T>(doc: seq<T>, cs: seq<Section<T>>, pos: nat, assoc: int)
    requires pos <= OldLength(cs) == |doc| && !Touched(cs, pos)
    ensures var new', p := Apply(doc, cs), MapPos(cs, pos, assoc);
            && p <= |new'|
            && (assoc < 0 && pos > 0 ==> p > 0 && new'[p - 1] == doc[pos - 1])
            && (assoc >= 0 && pos < |doc| ==> p < |new'| && new'[p] == doc[pos])
  {
    MapPosInDocument(doc, cs, pos, assoc);
    if cs != [] {
      var n := cs[0].len;
      if n <= pos {
        MapPosKeepsNeighbours(doc[n..], cs[1..], pos - n, assoc);
        if assoc < 0 && n == pos { LeftEdge(cs[1..], assoc); }
        var head := if cs[0].Keep? then doc[..n] else cs[0].inserted;
        NeighboursBehind(doc, n, head, Apply(doc[n..], cs[1..]), pos, MapPos(cs[1..], pos - n, assoc));
      }
    }
  }

  /** The start of the document, leaning to the left, stays the start unless it is touched. */
  lemma {:induction false} LeftEdge<T>(cs: seq<Section<T>>, assoc: int)
    requires assoc < 0 && !Touched(cs, 0)
    ensures MapPos(cs, 0, assoc) == 0
  {
    if cs != [] && cs[0] == Keep(0) { LeftEdge(cs[1..], assoc); }
  }

  /** The end of the document, leaning to the right, stays the end unless it is touched. */
  lemma {:induction false} RightEdge<T>(doc: seq<T>, cs: seq<Section<T>>, assoc: int)
    requires assoc >= 0 && OldLength(cs) == |doc| && !Touched(cs, |doc|)
    ensures MapPos(cs, |doc|, assoc) == |Apply(doc, cs)|
  {
    if cs != [] { RightEdge(doc[cs[0].len..], cs[1..], assoc); }
  }

  lemma {:induction false} NeighboursBehind<T>(doc: seq<T>, n: nat, head: seq<T>, tail: seq<T>, pos: nat, m: nat)
    requires n <= pos <= |doc| && m <= |tail|
    ensures m > 0 && pos > n && tail[m - 1] == doc[n..][pos - n - 1] ==> (head + tail)[|head| + m - 1] == doc[pos - 1]
    ensures m < |tail| && pos < |doc| && tail[m] == doc[n..][pos - n] ==> (head + tail)[|head| + m] == doc[pos]
  {}

  predicate All<T>(cells: seq<T>, P: T -> bool) {
    forall i | 0 <= i < |cells| :: P(cells[i])
  }

  predicate AllInserted<T>(cs: seq<Section<T>>, P: T -> bool) {
    forall i | 0 <= i < |cs| && cs[i].Replace? :: All(cs[i].inserted, P)
  }

  lemma {:induction false} AllConcat<T>(a: seq<T>, b: seq<T>, P: T -> bool)
    ensures All(a + b, P) <==> All(a, P) && All(b, P)
  {
    if All(a + b, P) {
      forall i | 0 <= i < |a| ensures P(a[i]) { assert (a + b)[i] == a[i]; }
      forall i | 0 <= i < |b| ensures P(b[i]) { assert (a + b)[|a| + i] == b[i]; }
    }
  }

  /** `P` is any property of cells that all new cells have. */
  lemma {:induction false} ApplyKeepsAll<T>(doc: seq<T>, cs: seq<Section<T>>, P: T -> bool)
    requires OldLength(cs) == |doc|
    requires AllInserted(cs, P) && All(doc, P)
    ensures All(Apply(doc, cs), P)
  {
    if cs != [] {
      ApplyKeepsAll(doc[cs[0].len..], cs[1..], P);
    }
  }

  /** Everything left of a mapped position is new or was left of the position. */
  lemma {:induction false} ApplyKeepsLeft<T>(doc: seq<T>, cs: seq<Section<T>>, pos: nat, assoc: int, P: T -> bool)
    requires pos <= OldLength(cs) == |doc|
    requires AllInserted(cs, P) && All(doc[..pos], P)
    ensures MapPos(cs, pos, assoc) <= |Apply(doc, cs)|
    ensures All(Apply(doc, cs)[..MapPos(cs, pos, assoc)], P)
  {
    MapPosInDocument(doc, cs, pos, assoc);
    if cs != [] && pos >= cs[0].len {
      var n := cs[0].len;
      assert doc[n..][..pos - n] == doc[..pos][n..];
      ApplyKeepsLeft(doc[n..], cs[1..], pos - n, assoc, P);
      assert doc[..pos][..n] == doc[..n];
      LeftStep(doc, cs, pos, assoc, P);
    } else if cs != [] {
      var head := if cs[0].Keep? then doc[..cs[0].len] else cs[0].inserted;
      var q := MapPos(cs, pos, assoc);
      assert Apply(doc, cs)[..q] == head[..q];
      assert cs[0].Keep? ==> head[..q] == doc[..pos];
    }
  }

  lemma {:induction false} LeftStep<T>(doc: seq<T>, cs: seq<Section<T>>, pos: nat, assoc: int, P: T -> bool)
    requires pos <= OldLength(cs) == |doc| && cs != [] && cs[0].len <= pos
    requires AllInserted(cs, P) && All(doc[..cs[0].len], P)
    requires var m := MapPos(cs[1..], pos - cs[0].len, assoc);
             var tail := Apply(doc[cs[0].len..], cs[1..]);
             m <= |tail| && All(tail[..m], P)
    ensures MapPos(cs, pos, assoc) <= |Apply(doc, cs)|
    ensures All(Apply(doc, cs)[..MapPos(cs, pos, assoc)], P)
  {
    var head := if cs[0].Keep? then doc[..cs[0].len] else cs[0].inserted;
    var tail := Apply(doc[cs[0].len..], cs[1..]);
    var m := MapPos(cs[1..], pos - cs[0].len, assoc);
    AllConcat(head, tail[..m], P);
    assert (head + tail)[..|head| + m] == head + tail[..m];
  }

  /** Everything right of a mapped position is new or was right of the position. */
  lemma {:induction false} ApplyKeepsRight<T>(doc: seq<T>, cs: seq<Section<T>>, pos: nat, assoc: int, P: T -> bool)
    requires pos <= OldLength(cs) == |doc|
    requires AllInserted(cs, P) && All(doc[pos..], P)
    ensures MapPos(cs, pos, assoc) <= |Apply(doc, cs)|
    ensures All(Apply(doc, cs)[MapPos(cs, pos, assoc)..], P)
  {
    MapPosInDocument(doc, cs, pos, assoc);
    if cs != [] {
      var n := cs[0].len;
      if n > pos {
        RightInside(doc, cs, pos, assoc, P);
      } else {
        assert doc[n..][pos - n..] == doc[pos..];
        ApplyKeepsRight(doc[n..], cs[1..], pos - n, assoc, P);
        RightStep(doc, cs, pos, assoc, P);
      }
    }
  }

  lemma {:induction false} RightInside<T>(doc: seq<T>, cs: seq<Section<T>>, pos: nat, assoc: int, P: T -> bool)
    requires pos <= OldLength(cs) == |doc| && cs != [] && cs[0].len > pos
    requires AllInserted(cs, P) && All(doc[pos..], P)
    ensures MapPos(cs, pos, assoc) <= |Apply(doc, cs)|
    ensures All(Apply(doc, cs)[MapPos(cs, pos, assoc)..], P)
  {
    var n := cs[0].len;
    var head := if cs[0].Keep? then doc[..n] else cs[0].inserted;
    var tail := Apply(doc[n..], cs[1..]);
    var q := MapPos(cs, pos, assoc);
    assert All(tail, P) by {
      assert doc[n..] == doc[pos..][n - pos..];
      ApplyKeepsAll(doc[n..], cs[1..], P);
    }
    assert cs[0].Keep? ==> head[q..] == doc[pos..][..n - pos];
    AllConcat(head[q..], tail, P);
    assert (head + tail)[q..] == head[q..] + tail;
  }

  lemma {:induction false} RightStep<T>(doc: seq<T>, cs: seq<Section<T>>, pos: nat, assoc: int, P: T -> bool)
    requires pos <= OldLength(cs) == |doc| && cs != [] && cs[0].len <= pos
    requires AllInserted(cs, P) && All(doc[pos..], P)
    requires var m := MapPos(cs[1..], pos - cs[0].len, assoc);
             var tail := Apply(doc[cs[0].len..], cs[1..]);
             m <= |tail| && All(tail[m..], P)
    ensures MapPos(cs, pos, assoc) <= |Apply(doc, cs)|
    ensures All(Apply(doc, cs)[MapPos(cs, pos, assoc)..], P)
  {
    var head := if cs[0].Keep? then doc[..cs[0].len] else cs[0].inserted;
    var tail := Apply(doc[cs[0].len..], cs[1..]);
    var m := MapPos(cs[1..], pos - cs[0].len, assoc);
    if MapPos(cs, pos, assoc) == |head| + m {
      assert (head + tail)[|head| + m..] == tail[m..];
    } else {
      assert doc[0..] == doc;
      ApplyKeepsAll(doc, cs, P);
    }
  }

  /** What a single insertion does to the document and to every position. */
  lemma {:induction false} InsertionEffect<T>(doc: seq<T>, at: nat, inserted: seq<T>, pos: nat, assoc: int)
    requires at <= |doc| && pos <= |doc|
    ensures var cs := Insertion(|doc|, at, inserted);
            && OldLength(cs) == |doc|
            && Apply(doc, cs) == doc[..at] + inserted + doc[at..]
            && !Touched(cs, pos)
            && MapPos(cs, pos, assoc) ==
               if pos < at || (pos == at && assoc < 0) then pos else pos + |inserted|
  {
    var cs := Insertion(|doc|, at, inserted);
    var last: seq<Section<T>> := [Keep(|doc| - at)];
    assert cs[1..] == [Replace(0, inserted)] + last;
    assert cs[1..][1..] == last;
    assert last[1..] == [];
    assert OldLength(last) == |doc| - at;
    assert OldLength(cs[1..]) == |doc| - at;
    assert doc[at..][0..] == doc[at..];
    assert Apply(doc[at..], last) == doc[at..] + [];
    assert Apply(doc[at..], cs[1..]) == inserted + doc[at..];
    assert !Touched(last, pos - at) && !Touched(last, pos - at - 0);
    assert !Touched(cs[1..], pos - at);
    if pos >= at {
      assert MapPos(last, pos - at, assoc) == pos - at;
    }
  }

  lemma {:induction false} UnchangedEffect<T>(doc: seq<T>, pos: nat, assoc: int)
    requires pos <= |doc|
    ensures var cs: seq<Section<T>> := Unchanged(|doc|);
            && OldLength(cs) == |doc|
            && Apply(doc, cs) == doc
            && !Touched(cs, pos)
            && MapPos(cs, pos, assoc) == pos
  {
    var cs: seq<Section<T>> := Unchanged(|doc|);
    assert cs[1..] == [];
    assert OldLength(cs) == |doc|;
    assert Apply(doc, cs) == doc[..|doc|] + [];
  }
}
