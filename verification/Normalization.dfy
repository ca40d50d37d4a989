/** Canonical normalization (NFD and NFC) as the runtime computes it, over any character
data that fits together the way the generated tables do. */
module Normalization {
  import opened Options
  import opened Sequences

  /** The lookups the algorithm makes. `depth` bounds how deep decompositions nest below a
      character; only termination uses it. */
  datatype Data = Data(
    classOf: nat -> nat,
    partsOf: nat -> Option<seq<nat>>,
    compositeOf: (nat, nat) -> Option<nat>,
    depth: nat -> nat)

  const S_BASE := 0xAC00
  const L_BASE := 0x1100
  const V_BASE := 0x1161
  const T_BASE := 0x11A7
  const L_COUNT := 19
  const V_COUNT := 21
  const T_COUNT := 28
  const N_COUNT := 588
  const S_COUNT := 11172

  predicate Syllable(c: nat) { S_BASE <= c < S_BASE + S_COUNT }

  predicate Jamo(c: nat) {
    || L_BASE <= c < L_BASE + L_COUNT
    || V_BASE <= c < V_BASE + V_COUNT
    || T_BASE < c < T_BASE + T_COUNT
  }

  /** Decompositions nest finitely, conjoining jamo have none, and a composite is listed
      under the pair it decomposes into. */
  ghost predicate Sound(d: Data) {
    && (forall c: nat :: d.partsOf(c).Some? ==> Grounded(d, c, d.partsOf(c).value))
    && (forall c: nat :: Jamo(c) ==> d.partsOf(c) == None)
    && (forall a: nat, b: nat :: d.compositeOf(a, b).Some? ==>
          !Syllable(d.compositeOf(a, b).value) && d.partsOf(d.compositeOf(a, b).value) == Some([a, b]))
  }

  predicate Grounded(d: Data, c: nat, parts: seq<nat>) {
    1 <= |parts| <= 2 && forall i | 0 <= i < |parts| :: d.depth(parts[i]) < d.depth(c)
  }

  // ---- Decomposition ----

  function HangulParts(c: nat): seq<nat>
    requires Syllable(c)
  {
    var s := c - S_BASE;
    [L_BASE + s / N_COUNT, V_BASE + (s % N_COUNT) / T_COUNT]
    + (if s % T_COUNT != 0 then [T_BASE + s % T_COUNT] else [])
  }

  /** The full canonical decomposition of a character. */
  function Decompose(d: Data, c: nat): seq<nat>
    requires Sound(d)
    decreases d.depth(c)
  {
    if Syllable(c) then HangulParts(c)
    else
      match d.partsOf(c)
      case None => [c]
      case Some(parts) =>
        assert Grounded(d, c, parts);
        Decompose(d, parts[0]) + (if |parts| == 2 then Decompose(d, parts[1]) else [])
  }

  function DecomposeAll(d: Data, s: seq<nat>): seq<nat>
    requires Sound(d)
  {
    if s == [] then [] else DecomposeAll(d, s[..|s| - 1]) + Decompose(d, s[|s| - 1])
  }

  ghost predicate Irreducible(d: Data, s: seq<nat>)
    requires Sound(d)
  {
    forall i | 0 <= i < |s| :: Decompose(d, s[i]) == [s[i]]
  }

  lemma {:induction false} JamoIrreducible(d: Data, c: nat)
    requires Sound(d) && Jamo(c)
    ensures Decompose(d, c) == [c]
  {}

  /** Decomposition is complete: nothing in its result decomposes further. */
  lemma {:induction false} DecomposeIrreducible(d: Data, c: nat)
    requires Sound(d)
    ensures Irreducible(d, Decompose(d, c))
    decreases d.depth(c)
  {
    if Syllable(c) {
      var parts := HangulParts(c);
      forall i | 0 <= i < |parts| ensures Decompose(d, parts[i]) == [parts[i]] {
        JamoIrreducible(d, parts[i]);
      }
    } else if d.partsOf(c).Some? {
      var parts := d.partsOf(c).value;
      assert Grounded(d, c, parts);
      DecomposeIrreducible(d, parts[0]);
      if |parts| == 2 { DecomposeIrreducible(d, parts[1]); }
    }
  }

  lemma {:induction false} DecomposeAllIrreducible(d: Data, s: seq<nat>)
    requires Sound(d)
    ensures Irreducible(d, DecomposeAll(d, s))
  {
    if s != [] {
      DecomposeAllIrreducible(d, s[..|s| - 1]);
      DecomposeIrreducible(d, s[|s| - 1]);
    }
  }

  lemma {:induction false} IrreducibleFixed(d: Data, s: seq<nat>)
    requires Sound(d) && Irreducible(d, s)
    ensures DecomposeAll(d, s) == s
  {
    if s != [] {
      IrreducibleFixed(d, s[..|s| - 1]);
    }
  }

  lemma {:induction false} DecomposeAllPush(d: Data, s: seq<nat>, c: nat)
    requires Sound(d)
    ensures DecomposeAll(d, s + [c]) == DecomposeAll(d, s) + Decompose(d, c)
  {
    assert (s + [c])[..|s|] == s;
  }

  lemma {:induction false} ConcatPush(d: Data, s: seq<nat>, t: seq<nat>, c: nat, all: seq<nat>)
    requires Sound(d) && DecomposeAll(d, s + t) == DecomposeAll(d, s) + DecomposeAll(d, t) && all == t + [c]
    ensures DecomposeAll(d, s + all) == DecomposeAll(d, s) + DecomposeAll(d, all)
  {
    Assoc(s, t, [c]);
    DecomposeAllPush(d, s + t, c);
    DecomposeAllPush(d, t, c);
    Assoc(DecomposeAll(d, s), DecomposeAll(d, t), Decompose(d, c));
  }

  lemma {:induction false} DecomposeAllConcat(d: Data, s: seq<nat>, t: seq<nat>)
    requires Sound(d)
    ensures DecomposeAll(d, s + t) == DecomposeAll(d, s) + DecomposeAll(d, t)
    decreases |t|
  {
    if t == [] {
      assert s + t == s;
    } else {
      var init, c := t[..|t| - 1], t[|t| - 1];
      assert t == init + [c];
      DecomposeAllConcat(d, s, init);
      ConcatPush(d, s, init, c, t);
    }
  }

  // ---- Canonical order ----

  /** Append a character and move it before the marks of higher class that precede it. */
  function InsertMark(d: Data, z: seq<nat>, c: nat): (r: seq<nat>)
    ensures |r| == |z| + 1
  {
    if z != [] && 0 < d.classOf(c) < d.classOf(z[|z| - 1]) then
      InsertMark(d, z[..|z| - 1], c) + [z[|z| - 1]]
    else z + [c]
  }

  function Reorder(d: Data, s: seq<nat>): (r: seq<nat>)
    ensures |r| == |s|
  {
    if s == [] then [] else InsertMark(d, Reorder(d, s[..|s| - 1]), s[|s| - 1])
  }

  /** No mark stands right after a mark of higher class. */
  predicate Ordered(d: Data, s: seq<nat>) {
    forall i | 0 < i < |s| :: !(0 < d.classOf(s[i]) < d.classOf(s[i - 1]))
  }

  lemma {:induction false} InsertMarkElements(d: Data, z: seq<nat>, c: nat)
    ensures multiset(InsertMark(d, z, c)) == multiset(z) + multiset{c}
  {
    if z != [] && 0 < d.classOf(c) < d.classOf(z[|z| - 1]) {
      InsertMarkElements(d, z[..|z| - 1], c);
      assert z == z[..|z| - 1] + [z[|z| - 1]];
    }
  }

  lemma {:induction false} ReorderElements(d: Data, s: seq<nat>)
    ensures multiset(Reorder(d, s)) == multiset(s)
  {
    if s != [] {
      ReorderElements(d, s[..|s| - 1]);
      InsertMarkElements(d, Reorder(d, s[..|s| - 1]), s[|s| - 1]);
      assert s == s[..|s| - 1] + [s[|s| - 1]];
    }
  }

  lemma {:induction false} InsertMarkOrdered(d: Data, z: seq<nat>, c: nat)
    requires Ordered(d, z)
    ensures Ordered(d, InsertMark(d, z, c))
    ensures var r := InsertMark(d, z, c); r[|r| - 1] == c || (z != [] && r[|r| - 1] == z[|z| - 1])
  {
    if z != [] && 0 < d.classOf(c) < d.classOf(z[|z| - 1]) {
      InsertMarkOrdered(d, z[..|z| - 1], c);
    }
  }

  lemma {:induction false} ReorderOrdered(d: Data, s: seq<nat>)
    ensures Ordered(d, Reorder(d, s))
  {
    if s != [] {
      ReorderOrdered(d, s[..|s| - 1]);
      InsertMarkOrdered(d, Reorder(d, s[..|s| - 1]), s[|s| - 1]);
    }
  }

  lemma {:induction false} OrderedFixed(d: Data, s: seq<nat>)
    requires Ordered(d, s)
    ensures Reorder(d, s) == s
  {
    if s != [] {
      OrderedFixed(d, s[..|s| - 1]);
      assert s == s[..|s| - 1] + [s[|s| - 1]];
    }
  }

  /** Two marks of different classes can be inserted in either order. */
  lemma {:induction false} InsertMarksCommute(d: Data, z: seq<nat>, m: nat, c: nat)
    requires 0 < d.classOf(m) < d.classOf(c)
    ensures InsertMark(d, InsertMark(d, z, c), m) == InsertMark(d, InsertMark(d, z, m), c)
  {
    if z != [] {
      var init, last := z[..|z| - 1], z[|z| - 1];
      InsertMarksCommute(d, init, m, c);
      InsertMarkAfter(d, InsertMark(d, init, c), last, m);
      InsertMarkAfter(d, InsertMark(d, init, m), last, c);
      InsertMarkAfter(d, z, c, m);
      InsertMarkAfter(d, z, m, c);
    } else {
      InsertMarkAfter(d, [], c, m);
      InsertMarkAfter(d, [], m, c);
    }
  }

  lemma {:induction false} InsertMarkAfter(d: Data, init: seq<nat>, last: nat, c: nat)
    ensures InsertMark(d, init + [last], c) ==
            if 0 < d.classOf(c) < d.classOf(last) then InsertMark(d, init, c) + [last] else init + [last] + [c]
  {
    assert (init + [last])[..|init|] == init;
  }

  lemma {:induction false} ReorderPush(d: Data, s: seq<nat>, c: nat)
    ensures Reorder(d, s + [c]) == InsertMark(d, Reorder(d, s), c)
  {
    assert (s + [c])[..|s|] == s;
  }

  /** What follows does not tell apart two texts with the same canonical order. */
  lemma {:induction false} ReorderCongruent(d: Data, s: seq<nat>, t: seq<nat>, tail: seq<nat>)
    requires Reorder(d, s) == Reorder(d, t)
    ensures Reorder(d, s + tail) == Reorder(d, t + tail)
  {
    if tail == [] {
      assert s + tail == s && t + tail == t;
    } else {
      var init, c := tail[..|tail| - 1], tail[|tail| - 1];
      ReorderCongruent(d, s, t, init);
      ReorderPush(d, s + init, c);
      ReorderPush(d, t + init, c);
      assert s + tail == s + init + [c] && t + tail == t + init + [c];
    }
  }

  /** Exchanging two neighbouring marks of different classes changes nothing: the ordered
      text is the only one that such exchanges lead to. */
  lemma {:induction false} ReorderIgnoresExchange(d: Data, s: seq<nat>, m: nat, c: nat, tail: seq<nat>)
    requires 0 < d.classOf(m) < d.classOf(c)
    ensures Reorder(d, s + [c, m] + tail) == Reorder(d, s + [m, c] + tail)
  {
    ReorderPush(d, s, c);
    ReorderPush(d, s + [c], m);
    ReorderPush(d, s, m);
    ReorderPush(d, s + [m], c);
    assert s + [c] + [m] == s + [c, m] && s + [m] + [c] == s + [m, c];
    InsertMarksCommute(d, Reorder(d, s), m, c);
    ReorderCongruent(d, s + [c, m], s + [m, c], tail);
  }

  /** A mark may jump over any run of lower marks. */
  lemma {:induction false} ReorderIgnoresJump(d: Data, s: seq<nat>, marks: seq<nat>, c: nat)
    requires forall i | 0 <= i < |marks| :: 0 < d.classOf(marks[i]) < d.classOf(c)
    ensures Reorder(d, s + [c] + marks) == Reorder(d, s + marks + [c])
    decreases |marks|
  {
    if marks == [] {
      assert s + [c] + marks == s + marks + [c];
    } else {
      var m, rest := marks[0], marks[1..];
      ReorderIgnoresExchange(d, s, m, c, rest);
      ReorderIgnoresJump(d, s + [m], rest, c);
      assert s + [c] + marks == s + [c, m] + rest;
      assert s + [m, c] + rest == s + [m] + [c] + rest;
      assert s + [m] + rest + [c] == s + marks + [c];
    }
  }

  // ---- NFD ----

  function Nfd(d: Data, s: seq<nat>): seq<nat>
    requires Sound(d)
  {
    Reorder(d, DecomposeAll(d, s))
  }

  lemma {:induction false} NfdIrreducible(d: Data, s: seq<nat>)
    requires Sound(d)
    ensures Irreducible(d, Nfd(d, s))
  {
    var t := DecomposeAll(d, s);
    DecomposeAllIrreducible(d, s);
    ReorderElements(d, t);
    forall i | 0 <= i < |Nfd(d, s)| ensures Decompose(d, Nfd(d, s)[i]) == [Nfd(d, s)[i]] {
      assert Nfd(d, s)[i] in multiset(Nfd(d, s));
      assert Nfd(d, s)[i] in t;
    }
  }

  /** NFD is fully decomposed, canonically ordered, and stable. */
  lemma {:induction false} NfdIdempotent(d: Data, s: seq<nat>)
    requires Sound(d)
    ensures Ordered(d, Nfd(d, s)) && Irreducible(d, Nfd(d, s))
    ensures Nfd(d, Nfd(d, s)) == Nfd(d, s)
  {
    NfdIrreducible(d, s);
    IrreducibleFixed(d, Nfd(d, s));
    ReorderOrdered(d, DecomposeAll(d, s));
    OrderedFixed(d, Nfd(d, s));
  }

  // ---- NFC ----

  function HangulComposite(a: nat, b: nat): Option<nat> {
    if L_BASE <= a < L_BASE + L_COUNT && V_BASE <= b < V_BASE + V_COUNT then
      Some(S_BASE + ((a - L_BASE) * V_COUNT + (b - V_BASE)) * T_COUNT)
    else if Syllable(a) && (a - S_BASE) % T_COUNT == 0 && T_BASE < b < T_BASE + T_COUNT then
      Some(a + (b - T_BASE))
    else None
  }

  function ComposePair(d: Data, a: nat, b: nat): Option<nat> {
    var hangul := HangulComposite(a, b);
    if hangul.Some? then hangul else d.compositeOf(a, b)
  }

  /** The composition loop's variables. */
  datatype Progress = Progress(out: seq<nat>, starter: Option<nat>, last: nat)

  /** One turn: combine with the last starter unless something in between blocks it. */
  function ComposeStep(d: Data, p: Progress, c: nat): Progress {
    if Reaches(p, d.classOf(c)) && ComposePair(d, p.out[p.starter.value], c).Some? then
      p.(out := p.out[p.starter.value := ComposePair(d, p.out[p.starter.value], c).value])
    else Pushed(d, p, c)
  }

  predicate Reaches(p: Progress, cc: nat) {
    && p.starter.Some?
    && p.starter.value < |p.out|
    && (|p.out| == p.starter.value + 1 || (p.last != 0 && p.last < cc))
  }

  function ComposeRun(d: Data, chars: seq<nat>): Progress {
    if chars == [] then Progress([], None, 0)
    else ComposeStep(d, ComposeRun(d, chars[..|chars| - 1]), chars[|chars| - 1])
  }

  function Nfc(d: Data, s: seq<nat>): seq<nat>
    requires Sound(d)
  {
    ComposeRun(d, Nfd(d, s)).out
  }

  lemma {:induction false} LvParts(l: nat, v: nat)
    requires l < L_COUNT && v < V_COUNT
    ensures var x := S_BASE + (l * V_COUNT + v) * T_COUNT;
            Syllable(x) && HangulParts(x) == [L_BASE + l, V_BASE + v]
  {
    var s := (l * V_COUNT + v) * T_COUNT;
    assert s == N_COUNT * l + T_COUNT * v;
    assert s / N_COUNT == l && s % N_COUNT == T_COUNT * v && s % T_COUNT == 0;
  }

  lemma {:induction false} LvtParts(a: nat, t: nat)
    requires Syllable(a) && (a - S_BASE) % T_COUNT == 0 && 0 < t < T_COUNT
    ensures Syllable(a + t) && HangulParts(a + t) == HangulParts(a) + [T_BASE + t]
  {
    var s := a - S_BASE;
    var q := s / T_COUNT;
    assert s == T_COUNT * q;
    assert (s + t) % T_COUNT == t && (s + t) / N_COUNT == q / V_COUNT == s / N_COUNT;
    assert (s % N_COUNT) / T_COUNT == q % V_COUNT;
    assert ((s + t) % N_COUNT) / T_COUNT == q % V_COUNT;
  }

  lemma {:induction false} HangulPairDecomposes(d: Data, a: nat, b: nat)
    requires Sound(d) && HangulComposite(a, b).Some?
    ensures Decompose(d, HangulComposite(a, b).value) == Decompose(d, a) + Decompose(d, b)
  {
    JamoIrreducible(d, b);
    if L_BASE <= a < L_BASE + L_COUNT && V_BASE <= b < V_BASE + V_COUNT {
      JamoIrreducible(d, a);
      LvParts(a - L_BASE, b - V_BASE);
    } else {
      LvtParts(a, b - T_BASE);
    }
  }

  /** A composite decomposes into what its two parts decompose into. */
  lemma {:induction false} PairDecomposes(d: Data, a: nat, b: nat)
    requires Sound(d) && ComposePair(d, a, b).Some?
    ensures Decompose(d, ComposePair(d, a, b).value) == Decompose(d, a) + Decompose(d, b)
  {
    if HangulComposite(a, b).Some? {
      HangulPairDecomposes(d, a, b);
    } else {
      var x := d.compositeOf(a, b).value;
      assert d.partsOf(x) == Some([a, b]);
    }
  }

  /** What stands behind the last starter are marks, none above the class `p.last` of the
      one appended last, and that is not above the character read last. */
  predicate AscendingBehind(d: Data, p: Progress, read: seq<nat>) {
    p.starter.Some? ==>
      && p.starter.value < |p.out|
      && (forall i | p.starter.value < i < |p.out| :: 0 < d.classOf(p.out[i]) <= p.last)
      && (p.starter.value + 1 < |p.out| ==> read != [] && 0 < p.last <= d.classOf(read[|read| - 1]))
  }

  ghost predicate MarksBehind(d: Data, p: Progress, read: seq<nat>)
    requires Sound(d)
  {
    AscendingBehind(d, p, read) && (p.starter.Some? ==> Irreducible(d, p.out[p.starter.value + 1..]))
  }

  function Pushed(d: Data, p: Progress, c: nat): Progress {
    Progress(p.out + [c], if d.classOf(c) == 0 then Some(|p.out|) else p.starter, d.classOf(c))
  }

  lemma {:induction false} PushAscending(d: Data, p: Progress, read: seq<nat>, c: nat)
    requires AscendingBehind(d, p, read)
    requires read == [] || !(0 < d.classOf(c) < d.classOf(read[|read| - 1]))
    ensures AscendingBehind(d, Pushed(d, p, c), read + [c])
  {}

  lemma {:induction false} IrreducibleConcat(d: Data, s: seq<nat>, t: seq<nat>)
    requires Sound(d) && Irreducible(d, s) && Irreducible(d, t)
    ensures Irreducible(d, s + t)
  {}

  lemma {:induction false} TailPush(s: seq<nat>, k: nat, c: nat)
    requires k <= |s|
    ensures (s + [c])[k..] == s[k..] + [c]
  {}

  lemma {:induction false} PushMarks(d: Data, p: Progress, read: seq<nat>, c: nat)
    requires Sound(d) && Decompose(d, c) == [c] && MarksBehind(d, p, read)
    requires read == [] || !(0 < d.classOf(c) < d.classOf(read[|read| - 1]))
    ensures MarksBehind(d, Pushed(d, p, c), read + [c])
  {
    PushAscending(d, p, read, c);
    if p.starter.Some? && d.classOf(c) != 0 {
      var si := p.starter.value;
      TailPush(p.out, si + 1, c);
      IrreducibleConcat(d, p.out[si + 1..], [c]);
    }
  }

  lemma {:induction false} ReplaceMarks(d: Data, p: Progress, read: seq<nat>, c: nat, x: nat)
    requires Sound(d) && MarksBehind(d, p, read) && Reaches(p, d.classOf(c))
    ensures MarksBehind(d, p.(out := p.out[p.starter.value := x]), read + [c])
  {
    var si := p.starter.value;
    assert p.out[si := x][si + 1..] == p.out[si + 1..];
  }

  lemma {:induction false} ComposeStepMarks(d: Data, p: Progress, read: seq<nat>, c: nat)
    requires Sound(d) && Decompose(d, c) == [c] && MarksBehind(d, p, read)
    requires read == [] || !(0 < d.classOf(c) < d.classOf(read[|read| - 1]))
    ensures MarksBehind(d, ComposeStep(d, p, c), read + [c])
  {
    if Reaches(p, d.classOf(c)) && ComposePair(d, p.out[p.starter.value], c).Some? {
      ReplaceMarks(d, p, read, c, ComposePair(d, p.out[p.starter.value], c).value);
    } else {
      PushMarks(d, p, read, c);
    }
  }

  /** One turn of the composition loop keeps the text canonically equivalent. */
  lemma {:induction false} ComposeStepEquivalent(d: Data, p: Progress, read: seq<nat>, c: nat)
    requires Sound(d) && Decompose(d, c) == [c] && MarksBehind(d, p, read)
    ensures Reorder(d, DecomposeAll(d, ComposeStep(d, p, c).out)) == Reorder(d, DecomposeAll(d, p.out) + [c])
  {
    if Reaches(p, d.classOf(c)) && ComposePair(d, p.out[p.starter.value], c).Some? {
      var si := p.starter.value;
      var x := ComposePair(d, p.out[si], c).value;
      PairDecomposes(d, p.out[si], c);
      ReplacedStarter(d, p.out, si, x, c);
    } else {
      DecomposeAllPush(d, p.out, c);
    }
  }

  lemma {:induction false} DecomposeAllAround(d: Data, out: seq<nat>, si: nat)
    requires Sound(d) && si < |out| && Irreducible(d, out[si + 1..])
    ensures DecomposeAll(d, out) == DecomposeAll(d, out[..si]) + Decompose(d, out[si]) + out[si + 1..]
  {
    DecomposeAllPush(d, out[..si], out[si]);
    assert out[..si] + [out[si]] == out[..si + 1];
    DecomposeAllConcat(d, out[..si + 1], out[si + 1..]);
    assert out == out[..si + 1] + out[si + 1..];
    IrreducibleFixed(d, out[si + 1..]);
  }

  lemma {:induction false} ReplacedStarter(d: Data, out: seq<nat>, si: nat, x: nat, c: nat)
    requires Sound(d) && si < |out| && Irreducible(d, out[si + 1..])
    requires forall i | si < i < |out| :: 0 < d.classOf(out[i]) < d.classOf(c)
    requires Decompose(d, x) == Decompose(d, out[si]) + [c]
    ensures Reorder(d, DecomposeAll(d, out[si := x])) == Reorder(d, DecomposeAll(d, out) + [c])
  {
    var marks := out[si + 1..];
    var out' := out[si := x];
    assert out'[..si] == out[..si] && out'[si + 1..] == marks;
    DecomposeAllAround(d, out, si);
    DecomposeAllAround(d, out', si);
    var head := DecomposeAll(d, out[..si]) + Decompose(d, out[si]);
    assert DecomposeAll(d, out[..si]) + Decompose(d, x) == head + [c];
    ReorderIgnoresJump(d, head, marks, c);
  }

  lemma {:induction false} ComposeRunMarks(d: Data, chars: seq<nat>)
    requires Sound(d) && Irreducible(d, chars) && Ordered(d, chars)
    ensures MarksBehind(d, ComposeRun(d, chars), chars)
  {
    if chars != [] {
      var init, c := chars[..|chars| - 1], chars[|chars| - 1];
      ComposeRunMarks(d, init);
      ComposeStepMarks(d, ComposeRun(d, init), init, c);
      assert chars == init + [c];
    }
  }

  lemma {:induction false} ComposeRunEquivalent(d: Data, chars: seq<nat>)
    requires Sound(d) && Irreducible(d, chars) && Ordered(d, chars)
    ensures Reorder(d, DecomposeAll(d, ComposeRun(d, chars).out)) == Reorder(d, chars)
  {
    if chars != [] {
      var init, c := chars[..|chars| - 1], chars[|chars| - 1];
      ComposeRunEquivalent(d, init);
      ComposeRunMarks(d, init);
      EquivalentPush(d, ComposeRun(d, init), init, c);
    }
  }

  lemma {:induction false} EquivalentPush(d: Data, p: Progress, read: seq<nat>, c: nat)
    requires Sound(d) && Decompose(d, c) == [c] && MarksBehind(d, p, read)
    requires Reorder(d, DecomposeAll(d, p.out)) == Reorder(d, read)
    ensures Reorder(d, DecomposeAll(d, ComposeStep(d, p, c).out)) == InsertMark(d, Reorder(d, read), c)
  {
    ComposeStepEquivalent(d, p, read, c);
    ReorderPush(d, DecomposeAll(d, p.out), c);
  }

  /** Composition keeps the text canonically equivalent: NFC decomposes back to NFD. */
  lemma {:induction false} NfdOfNfc(d: Data, s: seq<nat>)
    requires Sound(d)
    ensures Nfd(d, Nfc(d, s)) == Nfd(d, s)
  {
    NfdIdempotent(d, s);
    ComposeRunEquivalent(d, Nfd(d, s));
    OrderedFixed(d, Nfd(d, s));
  }

  /** NFC is stable, and it does not matter whether its input was decomposed first. */
  lemma {:induction false} NfcIdempotent(d: Data, s: seq<nat>)
    requires Sound(d)
    ensures Nfc(d, Nfc(d, s)) == Nfc(d, s)
    ensures Nfc(d, Nfd(d, s)) == Nfc(d, s)
  {
    NfdOfNfc(d, s);
    NfdIdempotent(d, s);
  }

  /** Two texts have one NFC exactly when they have one NFD: both forms decide canonical
      equivalence, so equal path keys mean equivalent paths. */
  lemma {:induction false} FormsAgree(d: Data, s: seq<nat>, t: seq<nat>)
    requires Sound(d)
    ensures Nfc(d, s) == Nfc(d, t) <==> Nfd(d, s) == Nfd(d, t)
  {
    NfdOfNfc(d, s);
    NfdOfNfc(d, t);
  }
}
