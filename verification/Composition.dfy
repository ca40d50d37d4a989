/** What canonical composition achieves: a character is combined with the last starter exactly
when it is not blocked from it and the two have a composite, so that primary composites and
Hangul syllables come back from their decompositions. */
module Composition {
  import opened Options
  import opened Normalization

  /** A character between the starter and `c` that is itself a starter, or whose class is not
      lower than that of `c` (definition D115 of section 3.11 of the Unicode Standard). */
  predicate Blocked(d: Data, out: seq<nat>, si: nat, c: nat) {
    exists i :: si < i < |out| && (d.classOf(out[i]) == 0 || d.classOf(out[i]) >= d.classOf(c))
  }

  /** The loop's variables: `starter` is the place where a character of class 0 was appended
      last, and `last` the class of the character that ends the output behind it. */
  predicate Tracked(d: Data, p: Progress) {
    && (p.starter.Some? ==> p.starter.value < |p.out|)
    && (p.starter.None? ==> forall i | 0 <= i < |p.out| :: d.classOf(p.out[i]) != 0)
    && (p.starter.Some? && p.starter.value + 1 < |p.out| ==> d.classOf(p.out[|p.out| - 1]) == p.last)
  }

  lemma {:induction false} RunTracked(d: Data, chars: seq<nat>)
    ensures Tracked(d, ComposeRun(d, chars))
  {
    if chars != [] { RunTracked(d, chars[..|chars| - 1]); }
  }

  /** The two tests of the loop, on adjacency and on the last class, decide blocking. */
  lemma {:induction false} ReachesUnlessBlocked(d: Data, p: Progress, read: seq<nat>, c: nat)
    requires Tracked(d, p) && AscendingBehind(d, p, read) && p.starter.Some?
    ensures Reaches(p, d.classOf(c)) <==> !Blocked(d, p.out, p.starter.value, c)
  {
    var si, n := p.starter.value, |p.out|;
    if si + 1 < n && !(p.last < d.classOf(c)) {
      assert d.classOf(p.out[n - 1]) >= d.classOf(c);
    }
  }

  /** The composite that the next character forms with the last starter, if it may. */
  function Merged(d: Data, p: Progress, c: nat): Option<nat> {
    if p.starter.Some? && p.starter.value < |p.out| && !Blocked(d, p.out, p.starter.value, c)
    then ComposePair(d, p.out[p.starter.value], c) else None
  }

  /** One turn of the loop does what `Merged` says. */
  lemma {:induction false} StepMerges(d: Data, p: Progress, read: seq<nat>, c: nat)
    requires Tracked(d, p) && AscendingBehind(d, p, read)
    ensures var q := ComposeStep(d, p, c);
            && (Merged(d, p, c).None? ==> q.out == p.out + [c])
            && (Merged(d, p, c).Some? ==> q.out == p.out[p.starter.value := Merged(d, p, c).value])
  {
    if p.starter.Some? { ReachesUnlessBlocked(d, p, read, c); }
  }

  lemma {:induction false} PrefixSound(d: Data, chars: seq<nat>, n: nat)
    requires Sound(d) && Irreducible(d, chars) && Ordered(d, chars) && n <= |chars|
    ensures Irreducible(d, chars[..n]) && Ordered(d, chars[..n])
  {}

  lemma {:induction false} RunTo(d: Data, chars: seq<nat>, n: nat)
    requires n < |chars|
    ensures ComposeRun(d, chars[..n + 1]) == ComposeStep(d, ComposeRun(d, chars[..n]), chars[n])
  {
    RunPush(d, chars[..n], chars[n]);
    assert chars[..n + 1] == chars[..n] + [chars[n]];
  }

  /** Composition is as the standard defines it. Every character of the decomposed text, in
      turn, either replaces the last starter by its composite with it, or is left in the
      output; it is left only if there is no starter before it, something blocks it from the
      starter, or the two have no composite. */
  lemma {:induction false} ComposesUnlessBlocked(d: Data, s: seq<nat>, n: nat, p: Progress, q: Progress)
    requires Sound(d) && n < |Nfd(d, s)|
    requires p == ComposeRun(d, Nfd(d, s)[..n]) && q == ComposeRun(d, Nfd(d, s)[..n + 1])
    ensures Tracked(d, p)
    ensures var c := Nfd(d, s)[n];
            && (Merged(d, p, c).None? ==> q.out == p.out + [c])
            && (Merged(d, p, c).Some? ==> q.out == p.out[p.starter.value := Merged(d, p, c).value])
  {
    var chars := Nfd(d, s);
    NfdIdempotent(d, s);
    PrefixSound(d, chars, n);
    ComposeRunMarks(d, chars[..n]);
    RunTracked(d, chars[..n]);
    RunTo(d, chars, n);
    StepMerges(d, p, chars[..n], chars[n]);
  }

  // ---- Composites come back ----

  /** A starter without decomposition, a Hangul syllable, or the composite of such a character
      and one more. */
  ghost predicate Primary(d: Data, x: nat)
    requires Sound(d)
    decreases d.depth(x)
  {
    if Syllable(x) then true
    else
      match d.partsOf(x)
      case None => d.classOf(x) == 0
      case Some(parts) =>
        assert Grounded(d, x, parts);
        && |parts| == 2 && d.compositeOf(parts[0], parts[1]) == Some(x)
        && HangulComposite(parts[0], parts[1]).None?
        && Primary(d, parts[0]) && Decompose(d, parts[1]) == [parts[1]]
  }

  ghost predicate JamoAreStarters(d: Data) {
    forall c: nat :: Jamo(c) ==> d.classOf(c) == 0
  }

  /** The composition loop has made one starter of all it read. */
  predicate Made(p: Progress, x: nat) {
    p.out == [x] && p.starter == Some(0)
  }

  lemma {:induction false} RunPush(d: Data, chars: seq<nat>, c: nat)
    ensures ComposeRun(d, chars + [c]) == ComposeStep(d, ComposeRun(d, chars), c)
  {
    assert (chars + [c])[..|chars|] == chars;
  }

  lemma {:induction false} MadeFirst(d: Data, x: nat)
    requires d.classOf(x) == 0
    ensures Made(ComposeRun(d, [x]), x)
  {
    RunPush(d, [], x);
    assert [] + [x] == [x];
  }

  lemma {:induction false} MadeNext(d: Data, chars: seq<nat>, a: nat, b: nat, x: nat)
    requires Made(ComposeRun(d, chars), a) && ComposePair(d, a, b) == Some(x)
    ensures Made(ComposeRun(d, chars + [b]), x)
  {
    RunPush(d, chars, b);
  }

  lemma {:induction false} SyllableParts(x: nat)
    requires Syllable(x)
    ensures var s := x - S_BASE;
            var l, v, t := s / N_COUNT, (s % N_COUNT) / T_COUNT, s % T_COUNT;
            && l < L_COUNT && v < V_COUNT && t < T_COUNT
            && x == S_BASE + (l * V_COUNT + v) * T_COUNT + t
  {
    var s := x - S_BASE;
    var r := s % N_COUNT;
    assert s == N_COUNT * (s / N_COUNT) + r && r == T_COUNT * (r / T_COUNT) + r % T_COUNT;
    assert s == T_COUNT * (V_COUNT * (s / N_COUNT) + r / T_COUNT) + r % T_COUNT;
    assert s % T_COUNT == r % T_COUNT;
  }

  lemma {:induction false} PairMade(d: Data, l: nat, v: nat, x: nat)
    requires l < L_COUNT && v < V_COUNT && JamoAreStarters(d) && x == S_BASE + (l * V_COUNT + v) * T_COUNT
    ensures Made(ComposeRun(d, [L_BASE + l, V_BASE + v]), x)
  {
    assert Jamo(L_BASE + l);
    MadeFirst(d, L_BASE + l);
    MadeNext(d, [L_BASE + l], L_BASE + l, V_BASE + v, x);
    assert [L_BASE + l] + [V_BASE + v] == [L_BASE + l, V_BASE + v];
  }

  lemma {:induction false} TripleMade(d: Data, chars: seq<nat>, lv: nat, t: nat)
    requires Made(ComposeRun(d, chars), lv) && Syllable(lv) && (lv - S_BASE) % T_COUNT == 0 && 0 < t < T_COUNT
    ensures Made(ComposeRun(d, chars + [T_BASE + t]), lv + t)
  {
    assert HangulComposite(lv, T_BASE + t) == Some(lv + t);
    MadeNext(d, chars, lv, T_BASE + t, lv + t);
  }

  lemma {:induction false} SyllableMade(d: Data, x: nat)
    requires Syllable(x) && JamoAreStarters(d)
    ensures Made(ComposeRun(d, HangulParts(x)), x)
  {
    SyllableParts(x);
    var s := x - S_BASE;
    var l, v, t := s / N_COUNT, (s % N_COUNT) / T_COUNT, s % T_COUNT;
    var chars := [L_BASE + l, V_BASE + v];
    PairMade(d, l, v, x - t);
    if t != 0 {
      TripleMade(d, chars, x - t, t);
      assert HangulParts(x) == chars + [T_BASE + t];
    } else {
      assert HangulParts(x) == chars;
    }
  }

  lemma {:induction false} PrimaryMade(d: Data, x: nat)
    requires Sound(d) && JamoAreStarters(d) && Primary(d, x)
    ensures Made(ComposeRun(d, Decompose(d, x)), x)
    decreases d.depth(x)
  {
    if Syllable(x) {
      SyllableMade(d, x);
    } else if d.partsOf(x).None? {
      MadeFirst(d, x);
    } else {
      var parts := d.partsOf(x).value;
      assert Grounded(d, x, parts);
      PrimaryMade(d, parts[0]);
      MadeNext(d, Decompose(d, parts[0]), parts[0], parts[1], x);
    }
  }

  /** NFC leaves every Hangul syllable and every primary composite in one piece, however deep
      it decomposes. */
  lemma {:induction false} NfcKeepsPrimary(d: Data, x: nat)
    requires Sound(d) && JamoAreStarters(d) && Primary(d, x) && Ordered(d, Decompose(d, x))
    ensures Nfc(d, [x]) == [x] && Nfc(d, Decompose(d, x)) == [x]
  {
    PrimaryMade(d, x);
    assert DecomposeAll(d, [x]) == Decompose(d, x) by {
      DecomposeAllPush(d, [], x);
      assert [] + [x] == [x];
    }
    OrderedFixed(d, Decompose(d, x));
    assert Nfd(d, [x]) == Decompose(d, x);
    NfcIdempotent(d, [x]);
  }
}
