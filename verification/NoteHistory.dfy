/** The editor's note history: a list of paths and an index, against a zipper of what lies
behind and ahead. */
module NoteHistory {
  import opened Sequences

  datatype History = History(paths: seq<string>, index: int)

  /** `behind` ends with the current entry; `ahead` is what going forward would visit. */
  datatype Zipper = Zipper(behind: seq<string>, ahead: seq<string>)

  const LIMIT := 100

  predicate Valid(h: History) {
    -1 <= h.index < |h.paths| <= LIMIT || (h.paths == [] && h.index == -1)
  }

  function View(h: History): Zipper
    requires Valid(h)
  {
    Zipper(h.paths[..h.index + 1], h.paths[h.index + 1..])
  }

  function Count(paths: seq<string>, path: string): nat {
    if paths == [] then 0 else (if paths[0] == path then 1 else 0) + Count(paths[1..], path)
  }

  function Renamed(paths: seq<string>, from: string, to: string): (r: seq<string>)
    ensures |r| == |paths| && forall i | 0 <= i < |r| :: r[i] == if paths[i] == from then to else paths[i]
  {
    seq(|paths|, i requires 0 <= i < |paths| => if paths[i] == from then to else paths[i])
  }

  function LastOnes(s: seq<string>): seq<string> {
    if |s| <= LIMIT then s else s[|s| - LIMIT..]
  }

  datatype Action =
    | Visit(path: string)
    | Select(index: int, path: string)
    | Rename(from: string, to: string)
    | Forget(path: string)

  /** The four operations on the zipper. */
  function Move(z: Zipper, a: Action): Zipper {
    match a
    case Visit(path) =>
      if z.behind != [] && z.behind[|z.behind| - 1] == path then z else Zipper(LastOnes(z.behind + [path]), [])
    case Select(index, path) =>
      var all := z.behind + z.ahead;
      if 0 <= index < |all| && all[index] == path then Zipper(all[..index + 1], all[index + 1..]) else z
    case Rename(from, to) => Zipper(Renamed(z.behind, from, to), Renamed(z.ahead, from, to))
    case Forget(path) => Zipper(Without(z.behind, path), Without(z.ahead, path))
  }

  /** After a visit the visited path is current and nothing is ahead, unless it was current
      before; behind it are the entries that were behind, the newest hundred in all. */
  lemma {:induction false} VisitMeans(z: Zipper, path: string)
    ensures var t := Move(z, Visit(path));
            && t.behind != [] && t.behind[|t.behind| - 1] == path
            && (z.behind != [] && z.behind[|z.behind| - 1] == path ==> t == z)
            && (z.behind == [] || z.behind[|z.behind| - 1] != path ==>
                  && t.ahead == [] && |t.behind| == (if |z.behind| < 100 then |z.behind| + 1 else 100)
                  && forall j | 0 <= j < |t.behind| - 1 :: t.behind[j] == z.behind[j + (|z.behind| + 1 - |t.behind|)])
  {}

  /** A selection of an entry that is still there makes it current and keeps the list; any other
      changes nothing. */
  lemma {:induction false} SelectMeans(z: Zipper, index: int, path: string)
    ensures var all, t := z.behind + z.ahead, Move(z, Select(index, path));
            if 0 <= index < |all| && all[index] == path then
              t.behind + t.ahead == all && |t.behind| == index + 1 && t.behind[index] == path
            else t == z
  {
    var all := z.behind + z.ahead;
    if 0 <= index < |all| { assert all[..index + 1] + all[index + 1..] == all; }
  }

  /** A rename keeps every place and changes exactly the entries with the old path. */
  lemma {:induction false} RenameMeans(z: Zipper, from: string, to: string)
    ensures var t := Move(z, Rename(from, to));
            && |t.behind| == |z.behind| && |t.ahead| == |z.ahead|
            && (forall i | 0 <= i < |t.behind| :: t.behind[i] == if z.behind[i] == from then to else z.behind[i])
            && (forall i | 0 <= i < |t.ahead| :: t.ahead[i] == if z.ahead[i] == from then to else z.ahead[i])
  {}

  /** Removal takes out exactly the entries with the path, one by one. */
  lemma {:induction false} WithoutOne(entry: string, path: string)
    ensures Without([entry], path) == if entry == path then [] else [entry]
  {
    assert [entry][1..] == [];
  }

  lemma {:induction false} WithoutConcat(a: seq<string>, b: seq<string>, path: string)
    ensures Without(a + b, path) == Without(a, path) + Without(b, path)
  {
    if a == [] {
      assert a + b == b;
    } else {
      assert (a + b)[1..] == a[1..] + b;
      WithoutConcat(a[1..], b, path);
    }
  }

  lemma {:induction false} WithoutCount(a: seq<string>, path: string)
    ensures |Without(a, path)| == |a| - Count(a, path)
  {
    if a != [] { WithoutCount(a[1..], path); }
  }

  lemma {:induction false} RenameAbsent(a: seq<string>, from: string, to: string)
    requires from !in a
    ensures Renamed(a, from, to) == a
  {
    forall i | 0 <= i < |a| ensures Renamed(a, from, to)[i] == a[i] { assert a[i] in a; }
  }

  /** If the current entry survives a removal it stays current; otherwise the nearest
      earlier survivor becomes current, or nothing when there is none. */
  lemma {:induction false} ForgetKeepsNearest(behind: seq<string>, path: string)
    ensures var r := Without(behind, path);
            if r == [] then forall i | 0 <= i < |behind| :: behind[i] == path
            else exists i :: && 0 <= i < |behind| && behind[i] == r[|r| - 1]
                             && forall j | i < j < |behind| :: behind[j] == path
  {
    if behind != [] {
      var init, last := behind[..|behind| - 1], behind[|behind| - 1];
      assert behind == init + [last];
      WithoutConcat(init, [last], path);
      var r := Without(behind, path);
      if last == path {
        ForgetKeepsNearest(init, path);
        if r != [] {
          var i :| 0 <= i < |init| && init[i] == r[|r| - 1] && forall j | i < j < |init| :: init[j] == path;
          assert behind[i] == r[|r| - 1] && forall j | i < j < |behind| :: behind[j] == path;
        }
      } else {
        assert behind[|behind| - 1] == r[|r| - 1];
      }
    }
  }

  lemma {:induction false} NewestIsCurrent(paths: seq<string>)
    requires 0 < |paths| <= LIMIT
    ensures var h := History(paths, |paths| - 1); Valid(h) && View(h) == Zipper(paths, [])
  {
    assert paths[..|paths|] == paths;
  }

  class Navigation {
    var current: History

    constructor ()
      ensures Valid(current) && View(current) == Zipper([], [])
    {
      current := History([], -1);
    }

    method RecordNavigation(path: string)
      requires Valid(current)
      modifies this
      ensures Valid(current) && View(current) == Move(View(old(current)), Visit(path))
    {
      var h := current;
      if 0 <= h.index && h.paths[h.index] == path {
        return;
      }
      var paths := LastOnes(h.paths[..h.index + 1] + [path]);
      NewestIsCurrent(paths);
      current := History(paths, |paths| - 1);
    }

    method SelectIndex(index: int, path: string)
      requires Valid(current)
      modifies this
      ensures Valid(current) && View(current) == Move(View(old(current)), Select(index, path))
    {
      var h := current;
      assert h.paths[..h.index + 1] + h.paths[h.index + 1..] == h.paths;
      if index < 0 || index >= |h.paths| || h.paths[index] != path {
        return;
      }
      current := History(h.paths, index);
    }

    method ReplacePath(from: string, to: string)
      requires Valid(current)
      modifies this
      ensures Valid(current) && View(current) == Move(View(old(current)), Rename(from, to))
    {
      var h := current;
      if from !in h.paths {
        RenameAbsent(h.paths[..h.index + 1], from, to);
        RenameAbsent(h.paths[h.index + 1..], from, to);
        return;
      }
      current := History(Renamed(h.paths, from, to), h.index);
    }

    method ForgetPath(path: string)
      requires Valid(current)
      modifies this
      ensures Valid(current) && View(current) == Move(View(old(current)), Forget(path))
    {
      var h := current;
      var behind, ahead := h.paths[..h.index + 1], h.paths[h.index + 1..];
      var paths := Without(h.paths, path);
      var removed := Count(behind, path);
      assert h.paths == behind + ahead;
      WithoutConcat(behind, ahead, path);
      WithoutCount(behind, path);
      var index := h.index - removed;
      index := if index < -1 then -1 else index;
      index := if index > |paths| - 1 then |paths| - 1 else index;
      current := History(paths, index);
    }
  }
}
