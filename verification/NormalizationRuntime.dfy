/** The normalizer's loops, working on buffers as the runtime does. */
module NormalizationRuntime {
  import opened Options
  import opened Normalization
  import opened NormalizationTables
  import opened GeneratedTables

  // ---- Runs of marks ----

  function InsertByClass(d: Data, z: seq<nat>, c: nat): seq<nat> {
    if z != [] && d.classOf(c) < d.classOf(z[|z| - 1]) then InsertByClass(d, z[..|z| - 1], c) + [z[|z| - 1]]
    else z + [c]
  }

  /** A stable sort by combining class. */
  function SortByClass(d: Data, run: seq<nat>): seq<nat> {
    if run == [] then [] else InsertByClass(d, SortByClass(d, run[..|run| - 1]), run[|run| - 1])
  }

  predicate EndsInStarter(d: Data, s: seq<nat>) {
    s == [] || d.classOf(s[|s| - 1]) == 0
  }

  lemma {:induction false} InsertBehindStarter(d: Data, p: seq<nat>, z: seq<nat>, c: nat)
    requires EndsInStarter(d, p) && d.classOf(c) != 0
    ensures InsertMark(d, p + z, c) == p + InsertByClass(d, z, c)
  {
    if z == [] {
      assert p + z == p;
    } else {
      var init, last := z[..|z| - 1], z[|z| - 1];
      InsertBehindStarter(d, p, init, c);
      assert p + z == p + init + [last];
      InsertMarkAfter(d, p + init, last, c);
      assert p + InsertByClass(d, init, c) + [last] == p + (InsertByClass(d, init, c) + [last]);
      assert p + init + [last] + [c] == p + (z + [c]);
    }
  }

  lemma {:induction false} ReorderedStarter(d: Data, p: seq<nat>)
    requires EndsInStarter(d, p)
    ensures EndsInStarter(d, Reorder(d, p))
  {}

  /** A run of marks behind a starter is ordered by itself. */
  lemma {:induction false} ReorderRun(d: Data, p: seq<nat>, run: seq<nat>)
    requires EndsInStarter(d, p) && forall i | 0 <= i < |run| :: d.classOf(run[i]) != 0
    ensures Reorder(d, p + run) == Reorder(d, p) + SortByClass(d, run)
  {
    if run == [] {
      assert p + run == p;
    } else {
      var init, c := run[..|run| - 1], run[|run| - 1];
      ReorderRun(d, p, init);
      assert p + run == p + init + [c];
      ReorderPush(d, p + init, c);
      ReorderedStarter(d, p);
      InsertBehindStarter(d, Reorder(d, p), SortByClass(d, init), c);
    }
  }

  /** `now` is `was` with its first `i` characters put in canonical order. */
  predicate OrderedUpTo(d: Data, was: seq<nat>, now: seq<nat>, i: nat) {
    && i <= |was| == |now|
    && now[..i] == Reorder(d, was[..i])
    && now[i..] == was[i..]
    && (i < |was| && d.classOf(was[i]) != 0 ==> EndsInStarter(d, was[..i]))
  }

  lemma {:induction false} StarterStep(d: Data, was: seq<nat>, now: seq<nat>, i: nat)
    requires OrderedUpTo(d, was, now, i) && i < |was| && d.classOf(now[i]) == 0
    ensures OrderedUpTo(d, was, now, i + 1)
  {
    assert now[i] == now[i..][0] == was[i];
    ReorderPush(d, was[..i], was[i]);
    assert was[..i] + [was[i]] == was[..i + 1] && now[..i + 1] == now[..i] + [was[i]];
    assert now[i + 1..] == now[i..][1..];
  }

  lemma {:induction false} RunStep(d: Data, was: seq<nat>, before: seq<nat>, now: seq<nat>, i: nat, j: nat)
    requires OrderedUpTo(d, was, before, i) && i < j <= |was| == |now|
    requires forall k | i <= k < j :: d.classOf(before[k]) != 0
    requires j < |was| ==> d.classOf(before[j]) == 0
    requires now[..i] == before[..i] && now[j..] == before[j..]
    requires now[i..j] == SortByClass(d, before[i..j])
    ensures OrderedUpTo(d, was, now, j)
  {
    SameTail(was, before, i, j);
    var run := was[i..j];
    forall k | 0 <= k < |run| ensures d.classOf(run[k]) != 0 { assert run[k] == before[i + k]; }
    ReorderRun(d, was[..i], run);
    assert was[..j] == was[..i] + run;
    assert now[..j] == now[..i] + now[i..j];
  }

  lemma {:induction false} SameTail(was: seq<nat>, now: seq<nat>, i: nat, j: nat)
    requires i <= j <= |was| == |now| && now[i..] == was[i..]
    ensures now[i..j] == was[i..j] && now[j..] == was[j..]
    ensures i < |was| ==> now[i] == was[i]
    ensures j < |was| ==> now[j] == was[j]
  {
    SliceOfTail(now, i, j);
    SliceOfTail(was, i, j);
    TailOfTail(now, i, j);
    TailOfTail(was, i, j);
  }

  lemma {:induction false} SliceOfTail(s: seq<nat>, i: nat, j: nat)
    requires i <= j <= |s|
    ensures s[i..j] == s[i..][..j - i] && (i < |s| ==> s[i] == s[i..][0])
  {}

  lemma {:induction false} TailOfTail(s: seq<nat>, i: nat, j: nat)
    requires i <= j <= |s|
    ensures s[j..] == s[i..][j - i..] && (j < |s| ==> s[j] == s[i..][j - i])
  {}

  /** Canonical ordering in place: every run of marks sorted by class, stably. */
  method ReorderInPlace(d: Data, chars: array<nat>)
    modifies chars
    ensures chars[..] == Reorder(d, old(chars[..]))
  {
    ghost var was := chars[..];
    var i := 0;
    while i < chars.Length
      invariant 0 <= i <= chars.Length && OrderedUpTo(d, was, chars[..], i)
    {
      if d.classOf(chars[i]) == 0 {
        StarterStep(d, was, chars[..], i);
        i := i + 1;
      } else {
        var start := i;
        ghost var before := chars[..];
        while i < chars.Length && d.classOf(chars[i]) != 0
          invariant start <= i <= chars.Length && chars[..] == before
          invariant forall k | start <= k < i :: d.classOf(before[k]) != 0
        {
          i := i + 1;
        }
        SortRun(d, chars, start, i);
        RunStep(d, was, before, chars[..], start, i);
      }
    }
    assert was[..i] == was && chars[..i] == chars[..];
  }

  lemma {:induction false} InsertByClassLength(d: Data, z: seq<nat>, c: nat)
    ensures |InsertByClass(d, z, c)| == |z| + 1
  {
    if z != [] { InsertByClassLength(d, z[..|z| - 1], c); }
  }

  lemma {:induction false} SortByClassLength(d: Data, run: seq<nat>)
    ensures |SortByClass(d, run)| == |run|
  {
    if run != [] {
      SortByClassLength(d, run[..|run| - 1]);
      InsertByClassLength(d, SortByClass(d, run[..|run| - 1]), run[|run| - 1]);
    }
  }

  method SortRun(d: Data, chars: array<nat>, from: nat, to: nat)
    requires from <= to <= chars.Length
    modifies chars
    ensures chars[..][..from] == old(chars[..])[..from] && chars[..][to..] == old(chars[..])[to..]
    ensures chars[..][from..to] == SortByClass(d, old(chars[..])[from..to])
  {
    var run := chars[..][from..to];
    var sorted := SortByClass(d, run);
    SortByClassLength(d, run);
    forall k | from <= k < to {
      chars[k] := sorted[k - from];
    }
  }

  // ---- NFD and NFC ----

  /** Append the decomposition of every character, then order the buffer. */
  method ToNfd(d: Data, s: seq<nat>) returns (r: seq<nat>)
    requires Sound(d)
    ensures r == Nfd(d, s)
  {
    var buffer: seq<nat> := [];
    for i := 0 to |s|
      invariant buffer == DecomposeAll(d, s[..i])
    {
      DecomposeAllPush(d, s[..i], s[i]);
      assert s[..i] + [s[i]] == s[..i + 1];
      buffer := buffer + Decompose(d, s[i]);
    }
    assert s[..|s|] == s;
    var chars := new nat[|buffer|](i requires 0 <= i < |buffer| => buffer[i]);
    assert chars[..] == buffer;
    ReorderInPlace(d, chars);
    r := chars[..];
  }

  method ToNfc(d: Data, s: seq<nat>) returns (r: seq<nat>)
    requires Sound(d)
    ensures r == Nfc(d, s)
  {
    var chars := ToNfd(d, s);
    var out: seq<nat> := [];
    var starter: Option<nat> := None;
    var last := 0;
    for i := 0 to |chars|
      invariant Progress(out, starter, last) == ComposeRun(d, chars[..i])
      invariant starter.Some? ==> starter.value < |out|
    {
      var c := chars[i];
      assert chars[..i + 1][..i] == chars[..i];
      var cc := d.classOf(c);
      if starter.Some? {
        var si := starter.value;
        var composed := ComposePair(d, out[si], c);
        if (|out| == si + 1 || (last != 0 && last < cc)) && composed.Some? {
          out := out[si := composed.value];
          continue;
        }
      }
      if cc == 0 {
        starter := Some(|out|);
      }
      last := cc;
      out := out + [c];
    }
    assert chars[..|chars|] == chars;
    r := out;
  }

  // ---- The shortcut for ASCII ----

  /** ASCII has no decompositions, no marks and no compositions. */
  ghost predicate AsciiInert(d: Data) {
    && (forall c: nat | c < 0x80 :: d.partsOf(c) == None && d.classOf(c) == 0)
    && (forall a: nat, b: nat | a < 0x80 && b < 0x80 :: d.compositeOf(a, b) == None)
  }

  ghost predicate Ascii(s: seq<nat>) {
    forall i | 0 <= i < |s| :: s[i] < 0x80
  }

  lemma {:induction false} AsciiDecomposed(d: Data, s: seq<nat>)
    requires Sound(d) && AsciiInert(d) && Ascii(s)
    ensures DecomposeAll(d, s) == s && Reorder(d, s) == s
  {
    if s != [] {
      var front, c := s[..|s| - 1], s[|s| - 1];
      AsciiDecomposed(d, front);
      assert s == front + [c];
      assert Decompose(d, c) == [c];
      assert InsertMark(d, front, c) == front + [c];
    }
  }

  lemma {:induction false} AsciiComposed(d: Data, s: seq<nat>)
    requires AsciiInert(d) && Ascii(s)
    ensures var p := ComposeRun(d, s);
            p.out == s && (p.starter == if s == [] then None else Some(|s| - 1))
  {
    if s != [] {
      var front := s[..|s| - 1];
      AsciiComposed(d, front);
      AsciiStep(d, s, ComposeRun(d, front));
    }
  }

  lemma {:induction false} AsciiStep(d: Data, s: seq<nat>, p: Progress)
    requires AsciiInert(d) && Ascii(s) && s != [] && p.out == s[..|s| - 1]
    ensures var q := ComposeStep(d, p, s[|s| - 1]); q.out == s && q.starter == Some(|s| - 1)
  {
    var c := s[|s| - 1];
    if Reaches(p, d.classOf(c)) {
      assert p.out[p.starter.value] < 0x80;
      assert ComposePair(d, p.out[p.starter.value], c) == None;
    }
    assert p.out + [c] == s;
  }

  /** Returning ASCII unchanged is what the full algorithm does. */
  lemma {:induction false} AsciiShortcut(d: Data, s: seq<nat>)
    requires Sound(d) && AsciiInert(d) && Ascii(s)
    ensures Nfc(d, s) == s
  {
    AsciiDecomposed(d, s);
    AsciiComposed(d, s);
  }

  /** The database has no mapping and no class for ASCII, and no primary composite of two
      ASCII characters. */
  ghost predicate AsciiPlain(u: Ucd) {
    && (forall c: nat | c < 0x80 :: c !in u.decomp && ClassIn(u)(c) == 0)
    && (forall x: nat, a: nat, b: nat | a < 0x80 && b < 0x80 :: !Composes(u, x, a, b))
  }

  /** The lookups at one pair of code points agree with the database. */
  ghost predicate AgreesAt(d: Data, u: Ucd, a: nat, b: nat) {
    && (d.partsOf(a) == None <==> a !in u.decomp) && d.classOf(a) == ClassIn(u)(a)
    && (d.compositeOf(a, b) == None <==> forall x: nat :: !Composes(u, x, a, b))
  }

  lemma {:induction false} GeneratedAgrees(u: Ucd, codes: seq<nat>, depth: nat -> nat, space: nat, a: nat, b: nat)
    requires WellFormed(u, codes, depth) && a < space
    ensures AgreesAt(RuntimeData(Generate(u, codes, space), depth), u, a, b)
  {
    PartsAgree(u, codes, depth, space, a);
    ClassAgrees(u, codes, depth, space, a);
    CompositeAgrees(u, codes, depth, space, a, b);
  }

  lemma {:induction false} InertIff(d: Data, u: Ucd)
    requires forall a: nat, b: nat | a < 0x80 && b < 0x80 :: AgreesAt(d, u, a, b)
    ensures AsciiInert(d) <==> AsciiPlain(u)
  {
    if AsciiPlain(u) {
      forall c: nat | c < 0x80 ensures d.partsOf(c) == None && d.classOf(c) == 0 { assert AgreesAt(d, u, c, 0); }
      forall a: nat, b: nat | a < 0x80 && b < 0x80 ensures d.compositeOf(a, b) == None {
        assert AgreesAt(d, u, a, b);
      }
    }
    if AsciiInert(d) {
      forall c: nat | c < 0x80 ensures c !in u.decomp && ClassIn(u)(c) == 0 { assert AgreesAt(d, u, c, 0); }
      forall x: nat, a: nat, b: nat | a < 0x80 && b < 0x80 ensures !Composes(u, x, a, b) {
        assert AgreesAt(d, u, a, b);
        assert d.compositeOf(a, b) == None;
      }
    }
  }

  /** The generated tables are inert on ASCII exactly when the database is plain there. */
  lemma {:induction false} AsciiInertIff(u: Ucd, codes: seq<nat>, depth: nat -> nat, space: nat, d: Data)
    requires WellFormed(u, codes, depth) && 0x80 <= space && d == RuntimeData(Generate(u, codes, space), depth)
    ensures AsciiInert(d) <==> AsciiPlain(u)
  {
    forall a: nat, b: nat | a < 0x80 && b < 0x80 ensures AgreesAt(d, u, a, b) {
      GeneratedAgrees(u, codes, depth, space, a, b);
    }
    InertIff(d, u);
  }

  /** So the runtime's shortcut is sound on generated tables. */
  lemma {:induction false} GeneratedAsciiShortcut(u: Ucd, codes: seq<nat>, depth: nat -> nat, space: nat, d: Data,
                                                  s: seq<nat>)
    requires WellFormed(u, codes, depth) && 0x80 <= space && d == RuntimeData(Generate(u, codes, space), depth)
    requires AsciiPlain(u) && Ascii(s)
    ensures Sound(d) && Nfc(d, s) == s
  {
    GeneratedTablesAreSound(u, codes, depth, space);
    AsciiInertIff(u, codes, depth, space, d);
    AsciiShortcut(d, s);
  }
}
