/** Canonical equivalence as the standard builds it, from one-step mappings and exchanges of
neighbouring marks, and that the normalization forms decide it. */
module CanonicalEquivalence {
  import opened Options
  import opened Sequences
  import opened Normalization

  // ---- One-step rewriting ----

  /** The canonical mapping of one character: the database's, or the arithmetic one of a
      Hangul syllable, into a leading pair or into a pair of syllable and trailing jamo. */
  function Mapping(d: Data, c: nat): Option<seq<nat>> {
    if !Syllable(c) then d.partsOf(c)
    else
      var s := c - S_BASE;
      var t := s % T_COUNT;
      Some(if t == 0 then [L_BASE + s / N_COUNT, V_BASE + (s % N_COUNT) / T_COUNT] else [c - t, T_BASE + t])
  }

  /** A mapping is applied, or two unmapped marks of different classes change places. */
  predicate Rule(d: Data, x: seq<nat>, y: seq<nat>) {
    || (|x| == 1 && Mapping(d, x[0]) == Some(y))
    || (&& |x| == 2 && y == [x[1], x[0]] && Mapping(d, x[0]) == None && Mapping(d, x[1]) == None
        && 0 < d.classOf(x[0]) && 0 < d.classOf(x[1]) && d.classOf(x[0]) != d.classOf(x[1]))
  }

  predicate RewriteAt(d: Data, s: seq<nat>, t: seq<nat>, l: seq<nat>, x: seq<nat>, y: seq<nat>, r: seq<nat>) {
    s == l + x + r && t == l + y + r && Rule(d, x, y)
  }

  ghost predicate Rewrites(d: Data, s: seq<nat>, t: seq<nat>) {
    exists l, x, y, r :: RewriteAt(d, s, t, l, x, y, r)
  }

  ghost predicate Linked(d: Data, s: seq<nat>, t: seq<nat>) {
    Rewrites(d, s, t) || Rewrites(d, t, s)
  }

  ghost predicate Connected(d: Data, s: seq<nat>, t: seq<nat>, n: nat)
    decreases n
  {
    if n == 0 then s == t else exists u :: Linked(d, s, u) && Connected(d, u, t, n - 1)
  }

  /** Some number of such steps, forwards or backwards, leads from one text to the other. */
  ghost predicate Equivalent(d: Data, s: seq<nat>, t: seq<nat>) {
    exists n: nat :: Connected(d, s, t, n)
  }

  // ---- It is an equivalence, and keeps to any context ----

  lemma {:induction false} ConnectedTransitive(d: Data, s: seq<nat>, t: seq<nat>, u: seq<nat>, n: nat, m: nat)
    requires Connected(d, s, t, n) && Connected(d, t, u, m)
    ensures Connected(d, s, u, n + m)
    decreases n
  {
    if n > 0 {
      var v :| Linked(d, s, v) && Connected(d, v, t, n - 1);
      ConnectedTransitive(d, v, t, u, n - 1, m);
      assert n - 1 + m == n + m - 1;
    }
  }

  lemma {:induction false} ConnectedSymmetric(d: Data, s: seq<nat>, t: seq<nat>, n: nat)
    requires Connected(d, s, t, n)
    ensures Connected(d, t, s, n)
    decreases n
  {
    if n > 0 {
      var v :| Linked(d, s, v) && Connected(d, v, t, n - 1);
      ConnectedSymmetric(d, v, t, n - 1);
      assert Linked(d, v, s) && Connected(d, s, s, 0);
      assert Connected(d, v, s, 1);
      ConnectedTransitive(d, t, v, s, n - 1, 1);
    }
  }

  lemma {:induction false} RewritesInContext(d: Data, a: seq<nat>, s: seq<nat>, t: seq<nat>, b: seq<nat>)
    requires Rewrites(d, s, t)
    ensures Rewrites(d, a + s + b, a + t + b)
  {
    var l, x, y, r :| RewriteAt(d, s, t, l, x, y, r);
    Inside(a, l, x, r, b);
    Inside(a, l, y, r, b);
    assert RewriteAt(d, a + s + b, a + t + b, a + l, x, y, r + b);
  }

  lemma {:induction false} Inside(a: seq<nat>, l: seq<nat>, x: seq<nat>, r: seq<nat>, b: seq<nat>)
    ensures a + (l + x + r) + b == (a + l) + x + (r + b)
  {
    Assoc(a, l + x, r);
    Assoc(a, l, x);
    Assoc(a + l + x, r, b);
  }

  lemma {:induction false} ConnectedInContext(d: Data, a: seq<nat>, s: seq<nat>, t: seq<nat>, b: seq<nat>, n: nat)
    requires Connected(d, s, t, n)
    ensures Connected(d, a + s + b, a + t + b, n)
    decreases n
  {
    if n > 0 {
      var u :| Linked(d, s, u) && Connected(d, u, t, n - 1);
      if Rewrites(d, s, u) { RewritesInContext(d, a, s, u, b); } else { RewritesInContext(d, a, u, s, b); }
      ConnectedInContext(d, a, u, t, b, n - 1);
      assert Linked(d, a + s + b, a + u + b);
    }
  }

  lemma {:induction false} Reflexive(d: Data, s: seq<nat>)
    ensures Equivalent(d, s, s)
  {
    assert Connected(d, s, s, 0);
  }

  lemma {:induction false} Symmetric(d: Data, s: seq<nat>, t: seq<nat>)
    requires Equivalent(d, s, t)
    ensures Equivalent(d, t, s)
  {
    var n: nat :| Connected(d, s, t, n);
    ConnectedSymmetric(d, s, t, n);
  }

  lemma {:induction false} Transitive(d: Data, s: seq<nat>, t: seq<nat>, u: seq<nat>)
    requires Equivalent(d, s, t) && Equivalent(d, t, u)
    ensures Equivalent(d, s, u)
  {
    var n: nat :| Connected(d, s, t, n);
    var m: nat :| Connected(d, t, u, m);
    ConnectedTransitive(d, s, t, u, n, m);
  }

  lemma {:induction false} InContext(d: Data, a: seq<nat>, s: seq<nat>, t: seq<nat>, b: seq<nat>)
    requires Equivalent(d, s, t)
    ensures Equivalent(d, a + s + b, a + t + b)
  {
    var n: nat :| Connected(d, s, t, n);
    ConnectedInContext(d, a, s, t, b, n);
  }

  /** Two neighbouring pieces, each replaced by an equivalent one. */
  lemma {:induction false} SideBySide(d: Data, s: seq<nat>, s': seq<nat>, t: seq<nat>, t': seq<nat>)
    requires Equivalent(d, s, s') && Equivalent(d, t, t')
    ensures Equivalent(d, s + t, s' + t')
  {
    InContext(d, [], s, s', t);
    InContext(d, s', t, t', []);
    assert [] + s + t == s + t && [] + s' + t == s' + t;
    assert s' + t + [] == s' + t && s' + t' + [] == s' + t';
    Transitive(d, s + t, s' + t, s' + t');
  }

  lemma {:induction false} ByRule(d: Data, x: seq<nat>, y: seq<nat>)
    requires Rule(d, x, y)
    ensures Equivalent(d, x, y)
  {
    assert [] + x + [] == x && [] + y + [] == y;
    assert RewriteAt(d, x, y, [], x, y, []);
    assert Linked(d, x, y) && Connected(d, y, y, 0);
    assert Connected(d, x, y, 1);
  }

  // ---- Every text is equivalent to its NFD ----

  predicate Unmapped(d: Data, s: seq<nat>) {
    forall i | 0 <= i < |s| :: Mapping(d, s[i]) == None
  }

  lemma {:induction false} UnmappedConcat(d: Data, s: seq<nat>, t: seq<nat>)
    requires Unmapped(d, s) && Unmapped(d, t)
    ensures Unmapped(d, s + t)
  {}

  /** Decomposing a character applies mappings to it until nothing has one. */
  ghost predicate Decomposes(d: Data, c: nat)
    requires Sound(d)
  {
    Equivalent(d, [c], Decompose(d, c)) && Unmapped(d, Decompose(d, c))
  }

  lemma {:induction false} ListDecomposes(d: Data, s: seq<nat>)
    requires Sound(d) && forall i | 0 <= i < |s| :: Decomposes(d, s[i])
    ensures Equivalent(d, s, DecomposeAll(d, s)) && Unmapped(d, DecomposeAll(d, s))
  {
    if s == [] {
      Reflexive(d, []);
    } else {
      var init, c := s[..|s| - 1], s[|s| - 1];
      ListDecomposes(d, init);
      assert Decomposes(d, c);
      SideBySide(d, init, DecomposeAll(d, init), [c], Decompose(d, c));
      UnmappedConcat(d, DecomposeAll(d, init), Decompose(d, c));
      assert s == init + [c];
    }
  }

  lemma {:induction false} JamoDecomposes(d: Data, c: nat)
    requires Sound(d) && Jamo(c)
    ensures Decomposes(d, c)
  {
    JamoIrreducible(d, c);
    Reflexive(d, [c]);
  }

  lemma {:induction false} PairDecomposed(d: Data, x: nat, y: nat)
    requires Sound(d)
    ensures DecomposeAll(d, [x]) == Decompose(d, x) && DecomposeAll(d, [x, y]) == Decompose(d, x) + Decompose(d, y)
  {
    DecomposeAllPush(d, [], x);
    assert [] + [x] == [x];
    DecomposeAllPush(d, [x], y);
    assert [x] + [y] == [x, y];
  }

  /** Decomposing a character is decomposing its mapping. */
  lemma {:induction false} DecomposeMapped(d: Data, c: nat)
    requires Sound(d)
    ensures Mapping(d, c).Some? ==> DecomposeAll(d, Mapping(d, c).value) == Decompose(d, c)
    ensures Mapping(d, c).None? ==> Decompose(d, c) == [c]
  {
    if Syllable(c) {
      SyllableMapped(d, c);
    } else if d.partsOf(c).Some? {
      var parts := d.partsOf(c).value;
      assert Grounded(d, c, parts);
      PairDecomposed(d, parts[0], parts[|parts| - 1]);
      assert parts == if |parts| == 2 then [parts[0], parts[1]] else [parts[0]];
    }
  }

  lemma {:induction false} SyllableMapped(d: Data, c: nat)
    requires Sound(d) && Syllable(c)
    ensures DecomposeAll(d, Mapping(d, c).value) == Decompose(d, c)
  {
    var t := (c - S_BASE) % T_COUNT;
    if t == 0 { PlainSyllableMapped(d, c); } else { ClosedSyllableMapped(d, c, c - t, t); }
  }

  lemma {:induction false} PlainSyllableMapped(d: Data, c: nat)
    requires Sound(d) && Syllable(c) && (c - S_BASE) % T_COUNT == 0
    ensures DecomposeAll(d, Mapping(d, c).value) == Decompose(d, c)
  {
    var x, y := Mapping(d, c).value[0], Mapping(d, c).value[1];
    OpenSyllable(c);
    JamoPairDecomposed(d, x, y);
  }

  lemma {:induction false} OpenSyllable(c: nat)
    requires Syllable(c) && (c - S_BASE) % T_COUNT == 0
    ensures var s := c - S_BASE;
            var x, y := L_BASE + s / N_COUNT, V_BASE + (s % N_COUNT) / T_COUNT;
            Jamo(x) && Jamo(y) && HangulParts(c) == [x, y]
  {}

  lemma {:induction false} JamoPairDecomposed(d: Data, x: nat, y: nat)
    requires Sound(d) && Jamo(x) && Jamo(y)
    ensures DecomposeAll(d, [x, y]) == [x, y]
  {
    JamoIrreducible(d, x);
    JamoIrreducible(d, y);
    PairDecomposed(d, x, y);
  }

  lemma {:induction false} ClosedSyllableMapped(d: Data, c: nat, lv: nat, t: nat)
    requires Sound(d) && Syllable(c) && t == (c - S_BASE) % T_COUNT != 0 && c == lv + t
    ensures DecomposeAll(d, Mapping(d, c).value) == Decompose(d, c)
  {
    assert (lv - S_BASE) % T_COUNT == 0;
    LvtParts(lv, t);
    TrailingDecomposed(d, lv, t);
    assert Mapping(d, c) == Some([lv, T_BASE + t]);
  }

  lemma {:induction false} TrailingDecomposed(d: Data, lv: nat, t: nat)
    requires Sound(d) && Syllable(lv) && 0 < t < T_COUNT
    ensures DecomposeAll(d, [lv, T_BASE + t]) == HangulParts(lv) + [T_BASE + t]
  {
    JamoIrreducible(d, T_BASE + t);
    PairDecomposed(d, lv, T_BASE + t);
  }

  lemma {:induction false} MappingDecomposes(d: Data, c: nat, parts: seq<nat>)
    requires Sound(d) && Mapping(d, c) == Some(parts) && forall i | 0 <= i < |parts| :: Decomposes(d, parts[i])
    ensures Decomposes(d, c)
  {
    ByRule(d, [c], parts);
    ListDecomposes(d, parts);
    DecomposeMapped(d, c);
    Transitive(d, [c], parts, Decompose(d, c));
  }

  lemma {:induction false} SyllableDecomposes(d: Data, c: nat)
    requires Sound(d) && Syllable(c)
    ensures Decomposes(d, c)
    decreases (c - S_BASE) % T_COUNT
  {
    var parts := Mapping(d, c).value;
    var t := (c - S_BASE) % T_COUNT;
    JamoDecomposes(d, parts[1]);
    if t == 0 {
      JamoDecomposes(d, parts[0]);
    } else {
      assert (c - t - S_BASE) % T_COUNT == 0;
      SyllableDecomposes(d, c - t);
    }
    MappingDecomposes(d, c, parts);
  }

  lemma {:induction false} CharacterDecomposes(d: Data, c: nat)
    requires Sound(d)
    ensures Decomposes(d, c)
    decreases d.depth(c)
  {
    if Syllable(c) {
      SyllableDecomposes(d, c);
    } else if d.partsOf(c).None? {
      Reflexive(d, [c]);
    } else {
      var parts := d.partsOf(c).value;
      assert Grounded(d, c, parts);
      forall i | 0 <= i < |parts| ensures Decomposes(d, parts[i]) { CharacterDecomposes(d, parts[i]); }
      MappingDecomposes(d, c, parts);
    }
  }

  lemma {:induction false} TextDecomposes(d: Data, s: seq<nat>)
    requires Sound(d)
    ensures Equivalent(d, s, DecomposeAll(d, s)) && Unmapped(d, DecomposeAll(d, s))
  {
    forall i | 0 <= i < |s| ensures Decomposes(d, s[i]) { CharacterDecomposes(d, s[i]); }
    ListDecomposes(d, s);
  }

  /** Moving a mark to its place exchanges it with one neighbour after another. */
  lemma {:induction false} MarkMoves(d: Data, z: seq<nat>, c: nat)
    requires Unmapped(d, z + [c])
    ensures Equivalent(d, z + [c], InsertMark(d, z, c)) && Unmapped(d, InsertMark(d, z, c))
  {
    if z != [] && 0 < d.classOf(c) < d.classOf(z[|z| - 1]) {
      var init, last := z[..|z| - 1], z[|z| - 1];
      UnmappedEnds(d, init, last, c, z);
      MarkMoves(d, init, c);
      ByRule(d, [last, c], [c, last]);
      InContext(d, init, [last, c], [c, last], []);
      InContext(d, [], init + [c], InsertMark(d, init, c), [last]);
      assert init + [last, c] + [] == z + [c];
      assert init + [c, last] + [] == [] + (init + [c]) + [last];
      assert [] + InsertMark(d, init, c) + [last] == InsertMark(d, z, c);
      Transitive(d, z + [c], init + [c, last] + [], InsertMark(d, z, c));
      UnmappedConcat(d, InsertMark(d, init, c), [last]);
    } else {
      Reflexive(d, z + [c]);
    }
  }

  lemma {:induction false} UnmappedEnds(d: Data, init: seq<nat>, last: nat, c: nat, z: seq<nat>)
    requires z == init + [last] && Unmapped(d, z + [c])
    ensures Unmapped(d, init + [c]) && Unmapped(d, [last]) && Mapping(d, last) == None && Mapping(d, c) == None
  {
    var s := z + [c];
    assert s[|init|] == last && s[|init| + 1] == c;
    forall i | 0 <= i < |init + [c]| ensures Mapping(d, (init + [c])[i]) == None {
      assert i < |init| ==> s[i] == init[i];
    }
  }

  lemma {:induction false} TextOrders(d: Data, s: seq<nat>)
    requires Unmapped(d, s)
    ensures Equivalent(d, s, Reorder(d, s)) && Unmapped(d, Reorder(d, s))
  {
    if s == [] {
      Reflexive(d, []);
    } else {
      var init, c := s[..|s| - 1], s[|s| - 1];
      assert s == init + [c];
      TextOrders(d, init);
      Reflexive(d, [c]);
      SideBySide(d, init, Reorder(d, init), [c], [c]);
      UnmappedConcat(d, Reorder(d, init), [c]);
      MarkMoves(d, Reorder(d, init), c);
      Transitive(d, s, Reorder(d, init) + [c], Reorder(d, s));
    }
  }

  lemma {:induction false} EquivalentToNfd(d: Data, s: seq<nat>)
    requires Sound(d)
    ensures Equivalent(d, s, Nfd(d, s))
  {
    TextDecomposes(d, s);
    TextOrders(d, DecomposeAll(d, s));
    Transitive(d, s, DecomposeAll(d, s), Nfd(d, s));
  }

  // ---- Equivalent texts have one NFD ----

  lemma {:induction false} AroundDecomposes(d: Data, l: seq<nat>, x: seq<nat>, r: seq<nat>)
    requires Sound(d)
    ensures DecomposeAll(d, l + x + r) == DecomposeAll(d, l) + DecomposeAll(d, x) + DecomposeAll(d, r)
  {
    DecomposeAllConcat(d, l + x, r);
    DecomposeAllConcat(d, l, x);
  }

  /** A character may be replaced by its mapping without being noticed, wherever it stands. */
  lemma {:induction false} MappingIsInvisible(d: Data, a: seq<nat>, c: nat, b: seq<nat>)
    requires Sound(d) && Mapping(d, c).Some?
    ensures Nfd(d, a + [c] + b) == Nfd(d, a + Mapping(d, c).value + b)
  {
    AroundDecomposes(d, a, [c], b);
    AroundDecomposes(d, a, Mapping(d, c).value, b);
    PairDecomposed(d, c, c);
    DecomposeMapped(d, c);
  }

  lemma {:induction false} UnmappedFixed(d: Data, s: seq<nat>)
    requires Sound(d) && Unmapped(d, s)
    ensures DecomposeAll(d, s) == s
  {
    forall i | 0 <= i < |s| ensures Decompose(d, s[i]) == [s[i]] { DecomposeMapped(d, s[i]); }
    IrreducibleFixed(d, s);
  }

  /** A character without a mapping stays. */
  lemma {:induction false} UnmappedStays(d: Data, c: nat)
    requires Sound(d) && Mapping(d, c) == None
    ensures Nfd(d, [c]) == [c] && Nfc(d, [c]) == [c]
  {
    UnmappedFixed(d, [c]);
    OrderedFixed(d, [c]);
    assert [c][..0] == [];
    assert ComposeRun(d, [c]) == ComposeStep(d, ComposeRun(d, []), c);
  }

  lemma {:induction false} UnmappedAround(d: Data, l: seq<nat>, x: seq<nat>, r: seq<nat>)
    requires Sound(d) && Unmapped(d, x)
    ensures Nfd(d, l + x + r) == Reorder(d, DecomposeAll(d, l) + x + DecomposeAll(d, r))
  {
    AroundDecomposes(d, l, x, r);
    UnmappedFixed(d, x);
  }

  lemma {:induction false} ExchangeIsInvisible(d: Data, l: seq<nat>, x: nat, y: nat, r: seq<nat>)
    requires Sound(d) && Mapping(d, x) == None && Mapping(d, y) == None && 0 < d.classOf(x) < d.classOf(y)
    ensures Nfd(d, l + [x, y] + r) == Nfd(d, l + [y, x] + r)
  {
    UnmappedAround(d, l, [x, y], r);
    UnmappedAround(d, l, [y, x], r);
    ReorderIgnoresExchange(d, DecomposeAll(d, l), x, y, DecomposeAll(d, r));
  }

  lemma {:induction false} RewriteKeepsNfd(d: Data, s: seq<nat>, t: seq<nat>)
    requires Sound(d) && Rewrites(d, s, t)
    ensures Nfd(d, s) == Nfd(d, t)
  {
    var l, x, y, r :| RewriteAt(d, s, t, l, x, y, r);
    if |x| == 1 && Mapping(d, x[0]) == Some(y) {
      assert x == [x[0]];
      MappingIsInvisible(d, l, x[0], r);
    } else {
      assert x == [x[0], x[1]];
      if d.classOf(x[0]) < d.classOf(x[1]) {
        ExchangeIsInvisible(d, l, x[0], x[1], r);
      } else {
        ExchangeIsInvisible(d, l, x[1], x[0], r);
      }
    }
  }

  lemma {:induction false} ConnectedKeepsNfd(d: Data, s: seq<nat>, t: seq<nat>, n: nat)
    requires Sound(d) && Connected(d, s, t, n)
    ensures Nfd(d, s) == Nfd(d, t)
    decreases n
  {
    if n > 0 {
      var u :| Linked(d, s, u) && Connected(d, u, t, n - 1);
      if Rewrites(d, s, u) { RewriteKeepsNfd(d, s, u); } else { RewriteKeepsNfd(d, u, s); }
      ConnectedKeepsNfd(d, u, t, n - 1);
    }
  }

  /** Normalization decides canonical equivalence: two texts have one NFD, and one NFC, if and
      only if mappings and exchanges of marks lead from one to the other. */
  lemma {:induction false} FormsDecideEquivalence(d: Data, s: seq<nat>, t: seq<nat>)
    requires Sound(d)
    ensures Nfd(d, s) == Nfd(d, t) <==> Equivalent(d, s, t)
    ensures Nfc(d, s) == Nfc(d, t) <==> Equivalent(d, s, t)
  {
    FormsAgree(d, s, t);
    if Nfd(d, s) == Nfd(d, t) {
      EquivalentToNfd(d, s);
      EquivalentToNfd(d, t);
      Symmetric(d, t, Nfd(d, t));
      Transitive(d, s, Nfd(d, s), t);
    }
    if Equivalent(d, s, t) {
      var n: nat :| Connected(d, s, t, n);
      ConnectedKeepsNfd(d, s, t, n);
    }
  }

  /** Both forms of a text are equivalent to it. */
  lemma {:induction false} FormsAreEquivalent(d: Data, s: seq<nat>)
    requires Sound(d)
    ensures Equivalent(d, s, Nfd(d, s)) && Equivalent(d, s, Nfc(d, s))
  {
    EquivalentToNfd(d, s);
    NfdOfNfc(d, s);
    FormsDecideEquivalence(d, s, Nfc(d, s));
  }
}
