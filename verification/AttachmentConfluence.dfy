/** Confluence: files dropped at one place and left alone by the writer produce a document
that depends only on which uploads got through, not on the order of events. */
module AttachmentConfluence {
  import opened Options
  import opened Sequences
  import opened PendingAttachments
  import opened AttachmentProtocol
  import opened AttachmentOrder

  // ---- The text that should come out ----

  /** The text before and after the place of the drop. */
  datatype Site = Site(left: string, right: string)

  function GapBefore(left: string): string {
    if left != "" && left[|left| - 1] != '\n' then GAP else ""
  }

  function GapAfter(right: string): string {
    if right != "" && right[0] != '\n' then GAP else ""
  }

  function Join(texts: seq<string>): string {
    if texts == [] then ""
    else if |texts| == 1 then texts[0]
    else texts[0] + GAP + Join(texts[1..])
  }

  /** Left text, references separated by blank lines, right text; blank lines towards
      the surrounding text only where it does not bring its own line break. */
  function Document(site: Site, texts: seq<string>): string {
    if texts == [] then site.left + site.right
    else site.left + GapBefore(site.left) + Join(texts) + GapAfter(site.right) + site.right
  }

  predicate Proper(reference: string) {
    reference != "" && reference[0] != '\n' && reference[|reference| - 1] != '\n'
  }

  predicate AllProper(texts: seq<string>) {
    forall i | 0 <= i < |texts| :: Proper(texts[i])
  }

  lemma {:induction false} JoinConcat(a: seq<string>, b: seq<string>)
    requires a != [] && b != []
    ensures Join(a + b) == Join(a) + GAP + Join(b)
  {
    if |a| == 1 {
      assert (a + b)[1..] == b;
    } else {
      assert (a + b)[1..] == a[1..] + b;
      JoinConcat(a[1..], b);
    }
  }

  lemma {:induction false} JoinEnds(texts: seq<string>)
    requires texts != [] && AllProper(texts)
    ensures Proper(Join(texts))
  {
    if |texts| > 1 {
      JoinEnds(texts[1..]);
    }
  }

  /** The document up to and including the references `a`, and from the references `b` on. */
  function Front(site: Site, a: seq<string>): string {
    site.left + GapBefore(site.left) + Join(a)
  }

  function Back(site: Site, b: seq<string>): string {
    Join(b) + GapAfter(site.right) + site.right
  }

  lemma {:induction false} Regroup(l: string, a: string, g: string, b: string, t: string, r: string)
    ensures l + (a + g + b) + t + r == (l + a + g) + (b + t + r) == (l + a) + (g + (b + t + r))
  {
    Assoc(l + (a + g + b), t, r);
    Assoc(b, t, r);
    Assoc(l, a + g + b, t + r);
    Assoc(a + g, b, t + r);
    Assoc(l, a + g, b + (t + r));
    Assoc(l, a, g);
    Assoc(l + a, g, b + t + r);
  }

  lemma {:induction false} DocumentSplits(site: Site, a: seq<string>, b: seq<string>)
    requires a != [] && b != []
    ensures Document(site, a + b) == Front(site, a) + (GAP + Back(site, b)) == (Front(site, a) + GAP) + Back(site, b)
  {
    JoinConcat(a, b);
    Regroup(site.left + GapBefore(site.left), Join(a), GAP, Join(b), GapAfter(site.right), site.right);
  }

  lemma {:induction false} DocumentEnds(site: Site, texts: seq<string>)
    requires texts != []
    ensures Document(site, texts) == site.left + (GapBefore(site.left) + Back(site, texts))
    ensures Document(site, texts) == (Front(site, texts) + GapAfter(site.right)) + site.right
  {}

  // ---- Where an anchor may stand ----

  /** What may precede the anchor of a pending job, `a` being the references of the
      finished jobs before it and `b` those after it. */
  predicate LeftFits(site: Site, x: string, a: seq<string>, b: seq<string>) {
    if a == [] then x == site.left
    else if b == [] then x == Front(site, a) + GapAfter(site.right)
    else x == Front(site, a) || x == Front(site, a) + GAP
  }

  /** What may follow it. */
  predicate RightFits(site: Site, y: string, a: seq<string>, b: seq<string>) {
    if b == [] then y == site.right
    else if a == [] then y == GapBefore(site.left) + Back(site, b)
    else y == Back(site, b) || y == GAP + Back(site, b)
  }

  lemma {:induction false} Cancel(x: string, y: string, z: string)
    requires x + y == x + z
    ensures y == z
  {
    assert y == (x + y)[|x|..];
    assert z == (x + z)[|x|..];
  }

  lemma {:induction false} CancelRight(x: string, y: string, z: string)
    requires x + z == y + z
    ensures x == y
  {
    assert |x + z| == |y + z|;
    assert x == (x + z)[..|x|];
    assert y == (y + z)[..|y|];
  }

  lemma {:induction false} LeftDecides(site: Site, x: string, y: string, a: seq<string>, b: seq<string>)
    requires LeftFits(site, x, a, b) && x + y == Document(site, a + b)
    ensures RightFits(site, y, a, b)
    ensures a != [] && b != [] ==> (x == Front(site, a) <==> y == GAP + Back(site, b))
  {
    if a == [] {
      assert a + b == b;
      if b == [] {
        Cancel(x, y, site.right);
      } else {
        DocumentEnds(site, b);
        Cancel(x, y, GapBefore(site.left) + Back(site, b));
      }
    } else if b == [] {
      assert a + b == a;
      DocumentEnds(site, a);
      Cancel(x, y, site.right);
    } else {
      DocumentSplits(site, a, b);
      Cancel(x, y, if x == Front(site, a) then GAP + Back(site, b) else Back(site, b));
    }
  }

  lemma {:induction false} RightDecides(site: Site, x: string, y: string, a: seq<string>, b: seq<string>)
    requires RightFits(site, y, a, b) && x + y == Document(site, a + b)
    ensures LeftFits(site, x, a, b)
  {
    if a == [] {
      assert a + b == b;
      if b != [] { DocumentEnds(site, b); }
      CancelRight(x, site.left, y);
    } else if b == [] {
      assert a + b == a;
      DocumentEnds(site, a);
      CancelRight(x, Front(site, a) + GapAfter(site.right), y);
    } else {
      DocumentSplits(site, a, b);
      CancelRight(x, if y == Back(site, b) then Front(site, a) + GAP else Front(site, a), y);
    }
  }

  /** A reference landing at a fitting anchor yields the document with the reference at
      its place in the order: the blank lines chosen from the two neighbouring
      characters are always the right ones. */
  lemma {:induction false} LandingFits(site: Site, x: string, y: string, a: seq<string>, b: seq<string>, r: string)
    requires AllProper(a) && AllProper(b) && Proper(r)
    requires LeftFits(site, x, a, b) && x + y == Document(site, a + b)
    ensures x + GapBefore(x) + r + GapAfter(y) + y == Document(site, a + [r] + b)
  {
    LeftDecides(site, x, y, a, b);
    if a != [] { JoinEnds(a); }
    if b != [] { JoinEnds(b); }
    if a == [] && b == [] {
      assert a + [r] + b == [r];
    } else if a == [] {
      LandingFirst(site, x, y, b, r);
    } else if b == [] {
      LandingLast(site, x, y, a, r);
    } else {
      LandingBetween(site, x, y, a, b, r);
    }
  }

  lemma {:induction false} LandingFirst(site: Site, x: string, y: string, b: seq<string>, r: string)
    requires b != [] && Proper(Join(b)) && Proper(r)
    requires x == site.left && y == GapBefore(site.left) + Back(site, b)
    ensures x + GapBefore(x) + r + GapAfter(y) + y == Document(site, [] + [r] + b)
  {
    var base := Back(site, b);
    assert Document(site, [] + [r] + b) == x + GapBefore(x) + r + GAP + base by {
      assert [] + [r] + b == [r] + b;
      DocumentSplits(site, [r], b);
      assert Join([r]) == r;
    }
    BackStarts(site, b);
    BorderedRight(x + GapBefore(x) + r, base, y);
  }

  lemma {:induction false} BorderedRight(before: string, base: string, y: string)
    requires base != "" && base[0] != '\n' && (y == GAP + base || y == "" + base)
    ensures before + GapAfter(y) + y == before + GAP + base
  {
    if y == GAP + base {
      assert GapAfter(y) == "";
    } else {
      assert y == base && GapAfter(y) == GAP;
    }
  }

  lemma {:induction false} LandingLast(site: Site, x: string, y: string, a: seq<string>, r: string)
    requires a != [] && Proper(Join(a)) && Proper(r)
    requires x == Front(site, a) + GapAfter(site.right) && y == site.right
    ensures x + GapBefore(x) + r + GapAfter(y) + y == Document(site, a + [r] + [])
  {
    var front := Front(site, a);
    assert Document(site, a + [r] + []) == front + GAP + r + GapAfter(y) + y by {
      assert a + [r] + [] == a + [r];
      FrontGrows(site, a, r);
    }
    FrontEnds(site, a);
    BorderedLeft(front, x);
  }

  lemma {:induction false} BorderedLeft(front: string, x: string)
    requires front != "" && front[|front| - 1] != '\n' && (x == front + GAP || x == front + "")
    ensures x + GapBefore(x) == front + GAP
  {
    if x == front + GAP {
      assert GapBefore(x) == "";
    } else {
      assert x == front && GapBefore(x) == GAP;
    }
  }

  lemma {:induction false} LandingBetween(site: Site, x: string, y: string, a: seq<string>, b: seq<string>, r: string)
    requires a != [] && b != [] && Proper(Join(a)) && Proper(Join(b)) && Proper(r)
    requires LeftFits(site, x, a, b) && RightFits(site, y, a, b)
    requires x == Front(site, a) <==> y == GAP + Back(site, b)
    ensures x + GapBefore(x) + r + GapAfter(y) + y == Document(site, a + [r] + b)
  {
    var front, back := Front(site, a), Back(site, b);
    DocumentBetween(site, a, b, r);
    FrontEnds(site, a);
    BackStarts(site, b);
    Bordered(front, back, r, x == front);
  }

  lemma {:induction false} DocumentBetween(site: Site, a: seq<string>, b: seq<string>, r: string)
    requires a != [] && b != []
    ensures Document(site, a + [r] + b) == Front(site, a) + GAP + r + GAP + Back(site, b)
  {
    DocumentSplits(site, a + [r], b);
    FrontGrows(site, a, r);
  }

  lemma {:induction false} FrontEnds(site: Site, a: seq<string>)
    requires Proper(Join(a))
    ensures var front := Front(site, a); front != "" && front[|front| - 1] != '\n'
  {
    var front := Front(site, a);
    assert front[|front| - 1] == Join(a)[|Join(a)| - 1];
  }

  lemma {:induction false} BackStarts(site: Site, b: seq<string>)
    requires Proper(Join(b))
    ensures var back := Back(site, b); back != "" && back[0] != '\n'
  {
    assert Back(site, b)[0] == Join(b)[0];
  }

  lemma {:induction false} FrontGrows(site: Site, a: seq<string>, r: string)
    requires a != []
    ensures Front(site, a + [r]) == Front(site, a) + GAP + r
  {
    JoinConcat(a, [r]);
    assert Join([r]) == r;
    Assoc(site.left + GapBefore(site.left), Join(a) + GAP, r);
    Assoc(site.left + GapBefore(site.left), Join(a), GAP);
  }

  lemma {:induction false} Bordered(front: string, back: string, r: string, early: bool)
    requires front != "" && front[|front| - 1] != '\n' && back != "" && back[0] != '\n'
    ensures var x := if early then front else front + GAP;
            var y := if early then GAP + back else back;
            x + GapBefore(x) + r + GapAfter(y) + y == front + GAP + r + GAP + back
  {
    assert (front + GAP)[|front| + 1] == '\n';
    assert (GAP + back)[0] == '\n';
  }

  // ---- The protocol keeps to it ----

  /** The references of the jobs in `(lo, hi]` that were inserted, in drop order. */
  function Finished(done: seq<nat>, refs: nat -> string, lo: nat, hi: nat): seq<string>
    decreases hi - lo
  {
    if lo >= hi then []
    else (if lo + 1 in done then [refs(lo + 1)] else []) + Finished(done, refs, lo + 1, hi)
  }

  lemma {:induction false} FinishedSplits(done: seq<nat>, refs: nat -> string, lo: nat, k: nat, hi: nat)
    requires lo <= k <= hi
    ensures Finished(done, refs, lo, hi) == Finished(done, refs, lo, k) + Finished(done, refs, k, hi)
    decreases hi - lo
  {
    if lo < k {
      FinishedSplits(done, refs, lo + 1, k, hi);
    }
  }

  lemma {:induction false} FinishedElsewhere(done: seq<nat>, refs: nat -> string, k: nat, lo: nat, hi: nat)
    requires !(lo < k <= hi)
    ensures Finished(done + [k], refs, lo, hi) == Finished(done, refs, lo, hi)
    decreases hi - lo
  {
    if lo < hi {
      FinishedElsewhere(done, refs, k, lo + 1, hi);
    }
  }

  lemma {:induction false} FinishedAt(done: seq<nat>, refs: nat -> string, lo: nat, k: nat, hi: nat)
    requires lo < k <= hi
    ensures Finished(done, refs, lo, hi) ==
            if k in done then Finished(done, refs, lo, k - 1) + [refs(k)] + Finished(done, refs, k, hi)
            else Finished(done, refs, lo, k - 1) + Finished(done, refs, k, hi)
  {
    var a, b := Finished(done, refs, lo, k - 1), Finished(done, refs, k, hi);
    FinishedSplits(done, refs, lo, k - 1, hi);
    assert a + ([refs(k)] + b) == a + [refs(k)] + b;
  }

  /** Finishing job `k` puts its reference between those before and those after it. */
  lemma {:induction false} FinishedGrows(done: seq<nat>, refs: nat -> string, k: nat, lo: nat, hi: nat)
    requires lo < k <= hi && k !in done
    ensures Finished(done, refs, lo, hi) == Finished(done, refs, lo, k - 1) + Finished(done, refs, k, hi)
    ensures Finished(done + [k], refs, lo, hi) ==
            Finished(done, refs, lo, k - 1) + [refs(k)] + Finished(done, refs, k, hi)
  {
    FinishedAt(done, refs, lo, k, hi);
    FinishedAt(done + [k], refs, lo, k, hi);
    FinishedElsewhere(done, refs, k, lo, k - 1);
    FinishedElsewhere(done, refs, k, k, hi);
  }

  lemma {:induction false} FinishedProper(done: seq<nat>, refs: nat -> string, lo: nat, hi: nat)
    requires forall id :: Proper(refs(id))
    ensures AllProper(Finished(done, refs, lo, hi))
    decreases hi - lo
  {
    if lo < hi {
      FinishedProper(done, refs, lo + 1, hi);
    }
  }

  // ---- A landing, seen on the text and the anchor positions alone ----

  datatype View = View(text: string, at: map<nat, nat>, done: seq<nat>)

  /** `t` is `v` after `inserted` landed at the anchor of `k`. */
  predicate Landed(v: View, t: View, k: nat, inserted: string) {
    && k in v.at && v.at[k] <= |v.text|
    && t.text == v.text[..v.at[k]] + inserted + v.text[v.at[k]..]
    && t.done == v.done + [k]
    && t.at.Keys == v.at.Keys - {k}
    && (forall j | j in t.at :: t.at[j] ==
          if v.at[j] < v.at[k] || (v.at[j] == v.at[k] && j < k) then v.at[j] else v.at[j] + |inserted|)
  }

  predicate Fits(v: View, site: Site, refs: nat -> string, lo: nat, hi: nat, k: nat)
    requires k in v.at
  {
    && lo < k <= hi
    && k !in v.done
    && v.at[k] <= |v.text|
    && LeftFits(site, v.text[..v.at[k]], Finished(v.done, refs, lo, k - 1), Finished(v.done, refs, k, hi))
  }

  ghost predicate Settled(v: View, site: Site, refs: nat -> string, lo: nat, hi: nat) {
    && v.text == Document(site, Finished(v.done, refs, lo, hi))
    && AllFit(v, site, refs, lo, hi)
    && InDropOrder(v)
  }

  ghost predicate AllFit(v: View, site: Site, refs: nat -> string, lo: nat, hi: nat) {
    forall k | k in v.at :: Fits(v, site, refs, lo, hi, k)
  }

  ghost predicate InDropOrder(v: View) {
    forall i, j | i in v.at && j in v.at && i < j :: v.at[i] <= v.at[j]
  }

  lemma {:induction false} LandingWhole(site: Site, x: string, y: string, a: seq<string>, b: seq<string>, r: string,
                                        all: seq<string>)
    requires AllProper(a) && AllProper(b) && Proper(r) && all == a + [r] + b
    requires LeftFits(site, x, a, b) && x + y == Document(site, a + b)
    ensures x + (GapBefore(x) + r + GapAfter(y)) + y == Document(site, all)
  {
    LandingFits(site, x, y, a, b, r);
    Assoc(x, GapBefore(x) + r, GapAfter(y));
    Assoc(x, GapBefore(x), r);
  }

  /** An anchor behind a landing keeps what is right of it, and so still fits. */
  lemma {:induction false} FitsBehind(site: Site, x: string, x': string, y: string, a: seq<string>, a': seq<string>,
                                      b: seq<string>)
    requires LeftFits(site, x, a, b) && x + y == Document(site, a + b)
    requires a' != [] && x' + y == Document(site, a' + b)
    ensures LeftFits(site, x', a', b)
  {
    LeftDecides(site, x, y, a, b);
    assert RightFits(site, y, a', b);
    RightDecides(site, x', y, a', b);
  }

  function Padded(v: View, k: nat, r: string): string
    requires k in v.at && v.at[k] <= |v.text|
  {
    GapBefore(v.text[..v.at[k]]) + r + GapAfter(v.text[v.at[k]..])
  }

  /** The landing itself: the document is the expected one. */
  lemma {:induction false} LandingDocument(v: View, t: View, site: Site, refs: nat -> string, lo: nat, hi: nat, k: nat)
    requires v.text == Document(site, Finished(v.done, refs, lo, hi)) && k in v.at && Fits(v, site, refs, lo, hi, k)
    requires Landed(v, t, k, Padded(v, k, refs(k))) && forall id :: Proper(refs(id))
    ensures t.text == Document(site, Finished(t.done, refs, lo, hi))
  {
    var a, b := Finished(v.done, refs, lo, k - 1), Finished(v.done, refs, k, hi);
    FinishedLanding(v.done, refs, lo, hi, k, a, b);
    LandingAt(v.text, v.at[k], site, a, b, refs(k), Finished(t.done, refs, lo, hi));
  }

  lemma {:induction false} FinishedLanding(done: seq<nat>, refs: nat -> string, lo: nat, hi: nat, k: nat,
                                           a: seq<string>, b: seq<string>)
    requires lo < k <= hi && k !in done && forall id :: Proper(refs(id))
    requires a == Finished(done, refs, lo, k - 1) && b == Finished(done, refs, k, hi)
    ensures AllProper(a) && AllProper(b)
    ensures Finished(done, refs, lo, hi) == a + b && Finished(done + [k], refs, lo, hi) == a + [refs(k)] + b
  {
    FinishedGrows(done, refs, k, lo, hi);
    FinishedProper(done, refs, lo, k - 1);
    FinishedProper(done, refs, k, hi);
  }

  lemma {:induction false} LandingAt(text: string, p: nat, site: Site, a: seq<string>, b: seq<string>, r: string,
                                     all: seq<string>)
    requires p <= |text| && text == Document(site, a + b) && LeftFits(site, text[..p], a, b)
    requires AllProper(a) && AllProper(b) && Proper(r) && all == a + [r] + b
    ensures text[..p] + (GapBefore(text[..p]) + r + GapAfter(text[p..])) + text[p..] == Document(site, all)
  {
    assert text[..p] + text[p..] == text;
    LandingWhole(site, text[..p], text[p..], a, b, r, all);
  }

  /** An anchor before the landing keeps what is left of it. */
  lemma {:induction false} LandingFitsEarlier(v: View, t: View, site: Site, refs: nat -> string, lo: nat, hi: nat,
                                              k: nat, j: nat)
    requires k in v.at && j in v.at && Fits(v, site, refs, lo, hi, j) && Fits(v, site, refs, lo, hi, k)
    requires j < k && v.at[j] <= v.at[k] && j in t.at && t.at[j] == v.at[j] && t.done == v.done + [k]
    requires |v.text| <= |t.text| && t.text[..v.at[j]] == v.text[..v.at[j]]
    ensures Fits(t, site, refs, lo, hi, j)
  {
    FinishedElsewhere(v.done, refs, k, lo, j - 1);
    FinishedGrows(v.done, refs, k, j, hi);
    FitsEarlier(site, v.text[..v.at[j]], Finished(v.done, refs, lo, j - 1), Finished(v.done, refs, j, hi),
                Finished(t.done, refs, j, hi));
  }

  lemma {:induction false} FitsEarlier(site: Site, x: string, a: seq<string>, b: seq<string>, b': seq<string>)
    requires LeftFits(site, x, a, b) && b' != []
    ensures LeftFits(site, x, a, b')
  {
    assert Front(site, a) + "" == Front(site, a);
  }

  lemma {:induction false} FinishedAround(done: seq<nat>, refs: nat -> string, lo: nat, hi: nat, k: nat, j: nat)
    requires lo < k < j <= hi && k !in done && j !in done
    ensures Finished(done, refs, lo, hi) == Finished(done, refs, lo, j - 1) + Finished(done, refs, j, hi)
    ensures Finished(done + [k], refs, lo, hi) ==
            Finished(done + [k], refs, lo, j - 1) + Finished(done, refs, j, hi)
    ensures Finished(done + [k], refs, j, hi) == Finished(done, refs, j, hi)
    ensures Finished(done + [k], refs, lo, j - 1) != []
  {
    FinishedGrows(done, refs, j, lo, hi);
    FinishedGrows(done + [k], refs, j, lo, hi);
    FinishedGrows(done, refs, k, lo, j - 1);
    FinishedElsewhere(done, refs, k, j, hi);
  }

  lemma {:induction false} LandingFitsLater(v: View, t: View, site: Site, refs: nat -> string, lo: nat, hi: nat,
                                            k: nat, j: nat)
    requires v.text == Document(site, Finished(v.done, refs, lo, hi))
    requires t.text == Document(site, Finished(t.done, refs, lo, hi))
    requires k in v.at && j in v.at && Fits(v, site, refs, lo, hi, j) && Fits(v, site, refs, lo, hi, k)
    requires k < j && j in t.at && t.at[j] <= |t.text| && t.done == v.done + [k]
    requires t.text[t.at[j]..] == v.text[v.at[j]..]
    ensures Fits(t, site, refs, lo, hi, j)
  {
    FinishedAround(v.done, refs, lo, hi, k, j);
    FitsAt(v.text, v.at[j], t.text, t.at[j], site, Finished(v.done, refs, lo, j - 1), Finished(t.done, refs, lo, j - 1),
           Finished(v.done, refs, j, hi));
  }

  lemma {:induction false} FitsAt(text: string, p: nat, text': string, p': nat, site: Site, a: seq<string>,
                                  a': seq<string>, b: seq<string>)
    requires p <= |text| && text == Document(site, a + b) && LeftFits(site, text[..p], a, b)
    requires p' <= |text'| && text' == Document(site, a' + b) && a' != []
    requires text'[p'..] == text[p..]
    ensures LeftFits(site, text'[..p'], a', b)
  {
    Rejoined(text, p);
    Rejoined(text', p');
    FitsBehind(site, text[..p], text'[..p'], text[p..], a, a', b);
  }

  lemma {:induction false} Rejoined(text: string, p: nat)
    requires p <= |text|
    ensures text[..p] + text[p..] == text
  {}

  lemma {:induction false} LandingKeepsSettled(v: View, t: View, site: Site, refs: nat -> string, lo: nat, hi: nat,
                                               k: nat)
    requires Settled(v, site, refs, lo, hi) && k in v.at && v.at[k] <= |v.text|
    requires Landed(v, t, k, Padded(v, k, refs(k))) && forall id :: Proper(refs(id))
    ensures Settled(t, site, refs, lo, hi)
  {
    assert Fits(v, site, refs, lo, hi, k);
    LandingDocument(v, t, site, refs, lo, hi, k);
    LandingFitsAll(v, t, Padded(v, k, refs(k)), site, refs, lo, hi, k);
    LandingOrder(v, t, k, Padded(v, k, refs(k)));
  }

  lemma {:induction false} LandingFitsAll(v: View, t: View, inserted: string, site: Site, refs: nat -> string,
                                          lo: nat, hi: nat, k: nat)
    requires AllFit(v, site, refs, lo, hi) && InDropOrder(v) && Landed(v, t, k, inserted)
    requires v.text == Document(site, Finished(v.done, refs, lo, hi))
    requires t.text == Document(site, Finished(t.done, refs, lo, hi))
    ensures AllFit(t, site, refs, lo, hi)
  {
    forall j | j in t.at ensures Fits(t, site, refs, lo, hi, j) {
      LandingNeighbour(v, t, inserted, k, j);
      FitsOne(v, site, refs, lo, hi, j);
      FitsOne(v, site, refs, lo, hi, k);
      LandingFitsOther(v, t, inserted, site, refs, lo, hi, k, j);
    }
  }

  lemma {:induction false} FitsOne(v: View, site: Site, refs: nat -> string, lo: nat, hi: nat, k: nat)
    requires AllFit(v, site, refs, lo, hi) && k in v.at
    ensures Fits(v, site, refs, lo, hi, k)
  {}

  lemma {:induction false} LandingNeighbour(v: View, t: View, inserted: string, k: nat, j: nat)
    requires Landed(v, t, k, inserted) && InDropOrder(v) && j in t.at
    ensures j in v.at && ((j < k && v.at[j] <= v.at[k]) || (k < j && v.at[k] <= v.at[j]))
  {
    assert j in v.at.Keys - {k};
  }

  lemma {:induction false} LandingOrder(v: View, t: View, k: nat, inserted: string)
    requires Landed(v, t, k, inserted)
    requires InDropOrder(v)
    ensures InDropOrder(t)
  {}

  lemma {:induction false} LandingFitsOther(v: View, t: View, inserted: string, site: Site, refs: nat -> string,
                                            lo: nat, hi: nat, k: nat, j: nat)
    requires k in v.at && Fits(v, site, refs, lo, hi, k) && j in v.at && Fits(v, site, refs, lo, hi, j)
    requires (j < k && v.at[j] <= v.at[k]) || (k < j && v.at[k] <= v.at[j])
    requires Landed(v, t, k, inserted) && j in t.at
    requires v.text == Document(site, Finished(v.done, refs, lo, hi))
    requires t.text == Document(site, Finished(t.done, refs, lo, hi))
    ensures Fits(t, site, refs, lo, hi, j)
  {
    LandingSides(v, t, k, inserted, j);
    if j < k {
      LandingFitsEarlier(v, t, site, refs, lo, hi, k, j);
    } else {
      LandingFitsLater(v, t, site, refs, lo, hi, k, j);
    }
  }

  lemma {:induction false} LandingSides(v: View, t: View, k: nat, inserted: string, j: nat)
    requires Landed(v, t, k, inserted) && j in t.at && v.at[j] <= |v.text|
    requires j < k ==> v.at[j] <= v.at[k]
    requires k < j ==> v.at[k] <= v.at[j]
    ensures t.at[j] <= |t.text| && |v.text| <= |t.text|
    ensures j < k ==> t.at[j] == v.at[j] && t.text[..v.at[j]] == v.text[..v.at[j]]
    ensures k < j ==> t.text[t.at[j]..] == v.text[v.at[j]..]
  {}

  // ---- The protocol keeps to it ----

  function ViewOf(s: State): View {
    View(Text(s.doc), Positions(s.jobs, s.sequence), s.inserted)
  }

  function Positions(jobs: seq<Job>, sequence: nat): map<nat, nat> {
    map k | 0 <= k <= sequence && Find(jobs, k).Some? :: Find(jobs, k).value.position
  }

  /** Nothing but upload events: no edit of the writer and no further drop. */
  predicate Calm(a: Action, refs: nat -> string) {
    !a.Edit? && !a.Drop? && (a.Arrive? ==> a.reference == refs(a.id))
  }

  lemma {:induction false} BlockInsertionIsPadded(text: string, p: nat, r: string)
    requires p <= |text|
    ensures BlockInsertion(text, p, p, r) == GapBefore(text[..p]) + r + GapAfter(text[p..])
  {}

  lemma {:induction false} InsertedText(doc: seq<Cell>, p: nat, cells: seq<Cell>)
    requires p <= |doc|
    ensures Text(doc[..p] + cells + doc[p..]) == Text(doc)[..p] + Text(cells) + Text(doc)[p..]
  {}

  lemma {:induction false} LandingView(s: State, a: Action, refs: nat -> string)
    requires Valid(s) && Legal(s, a) && Lands(s, a) && Calm(a, refs)
    ensures a.id in ViewOf(s).at && ViewOf(s).at[a.id] <= |ViewOf(s).text|
    ensures Landed(ViewOf(s), ViewOf(Step(s, a)), a.id, Padded(ViewOf(s), a.id, refs(a.id)))
  {
    FindPosition(s, a.id);
    LandingText(s, a);
    LandingPositions(s, a);
    DocumentAfter(s, a);
  }

  lemma {:induction false} LandingText(s: State, a: Action)
    requires Valid(s) && Legal(s, a) && Lands(s, a)
    ensures var p := Find(s.jobs, a.id).value.position;
            p <= |s.doc| &&
            var inserted := GapBefore(Text(s.doc)[..p]) + a.reference + GapAfter(Text(s.doc)[p..]);
            && |Inserted(s, Find(s.jobs, a.id).value, a.reference)| == |inserted|
            && Text(Step(s, a).doc) == Text(s.doc)[..p] + inserted + Text(s.doc)[p..]
  {
    DocumentAfter(s, a);
    var job := Find(s.jobs, a.id).value;
    var cells := Inserted(s, job, a.reference);
    BlockInsertionIsPadded(Text(s.doc), job.position, a.reference);
    assert Text(cells) == BlockInsertion(Text(s.doc), job.position, job.position, a.reference);
    InsertedText(s.doc, job.position, cells);
  }

  lemma {:induction false} LandingPositions(s: State, a: Action)
    requires Valid(s) && Legal(s, a) && Lands(s, a)
    ensures Find(s.jobs, a.id).value.position <= |s.doc|
    ensures var v, t := ViewOf(s), ViewOf(Step(s, a));
            var job := Find(s.jobs, a.id).value;
            && t.at.Keys == v.at.Keys - {a.id}
            && forall j | j in t.at :: t.at[j] ==
                 if v.at[j] < job.position || (v.at[j] == job.position && j < a.id) then v.at[j]
                 else v.at[j] + |Inserted(s, job, a.reference)|
  {
    FindPosition(s, a.id);
    LandingCounter(s, a);
    var job := Find(s.jobs, a.id).value;
    forall k: nat ensures Find(Step(s, a).jobs, k) ==
      if k == a.id then None else Shifted(Find(s.jobs, k), job, |Inserted(s, job, a.reference)|)
    {
      LandingAnchor(s, a, k);
    }
    PositionsShift(s.jobs, Step(s, a).jobs, s.sequence, job, |Inserted(s, job, a.reference)|);
  }

  lemma {:induction false} PositionsShift(jobs: seq<Job>, jobs': seq<Job>, sequence: nat, job: Job, length: nat)
    requires forall k: nat :: Find(jobs', k) == if k == job.id then None else Shifted(Find(jobs, k), job, length)
    ensures var at, at' := Positions(jobs, sequence), Positions(jobs', sequence);
            && at'.Keys == at.Keys - {job.id}
            && forall j | j in at' :: at'[j] ==
                 if at[j] < job.position || (at[j] == job.position && j < job.id) then at[j] else at[j] + length
  {}

  lemma {:induction false} LandingCounter(s: State, a: Action)
    requires Valid(s) && Legal(s, a) && Lands(s, a)
    ensures Step(s, a).sequence == s.sequence
  {}

  /** Any other upload event leaves the text alone and at most takes anchors away. */
  lemma {:induction false} QuietView(s: State, a: Action, refs: nat -> string)
    requires Valid(s) && Legal(s, a) && Calm(a, refs) && !Lands(s, a)
    ensures var v, t := ViewOf(s), ViewOf(Step(s, a));
            && t.text == v.text && t.done == v.done
            && t.at.Keys <= v.at.Keys && forall j | j in t.at :: t.at[j] == v.at[j]
  {
    DocumentAfter(s, a);
    assert Step(s, a).sequence == s.sequence;
    forall k: nat | k <= s.sequence
      ensures var t := Find(Step(s, a).jobs, k);
              t.Some? ==> Find(s.jobs, k).Some? && t.value.position == Find(s.jobs, k).value.position
    {
      QuietAnchor(s, a, k);
    }
  }

  lemma {:induction false} RunKeepsSettled(s: State, run: seq<Action>, site: Site, refs: nat -> string, lo: nat,
                                           hi: nat)
    requires Valid(s) && LegalRun(s, run) && (forall i | 0 <= i < |run| :: Calm(run[i], refs))
    requires forall id :: Proper(refs(id))
    requires Settled(ViewOf(s), site, refs, lo, hi)
    ensures Settled(ViewOf(Run(s, run)), site, refs, lo, hi)
    decreases |run|
  {
    if run != [] {
      var a := run[0];
      StepKeepsValid(s, a);
      if Lands(s, a) {
        LandingView(s, a, refs);
        LandingKeepsSettled(ViewOf(s), ViewOf(Step(s, a)), site, refs, lo, hi, a.id);
      } else {
        QuietView(s, a, refs);
        QuietKeepsSettled(ViewOf(s), ViewOf(Step(s, a)), site, refs, lo, hi);
      }
      RunKeepsSettled(Step(s, a), run[1..], site, refs, lo, hi);
    }
  }

  lemma {:induction false} QuietKeepsSettled(v: View, t: View, site: Site, refs: nat -> string, lo: nat, hi: nat)
    requires Settled(v, site, refs, lo, hi)
    requires t.text == v.text && t.done == v.done
    requires t.at.Keys <= v.at.Keys && forall j | j in t.at :: t.at[j] == v.at[j]
    ensures Settled(t, site, refs, lo, hi)
  {
    forall k | k in t.at ensures Fits(t, site, refs, lo, hi, k) {
      assert Fits(v, site, refs, lo, hi, k);
    }
  }

  lemma {:induction false} FinishedNone(done: seq<nat>, refs: nat -> string, lo: nat, hi: nat)
    requires forall k | lo < k <= hi :: k !in done
    ensures Finished(done, refs, lo, hi) == []
    decreases hi - lo
  {
    if lo < hi {
      FinishedNone(done, refs, lo + 1, hi);
    }
  }

  /** All pending uploads stand at one place of the text, none of them finished: what a
      drop into an editor without pending uploads produces. */
  ghost predicate AtOnePlace(s: State, site: Site, lo: nat, hi: nat) {
    && Valid(s)
    && Text(s.doc) == site.left + site.right
    && (forall k: nat :: Find(s.jobs, k).Some? ==> lo < k <= hi && Find(s.jobs, k).value.position == |site.left|)
    && (forall k: nat | lo < k <= hi :: k !in s.inserted)
  }

  lemma {:induction false} DropAtOnePlace(s: State, files: seq<string>, position: nat)
    requires Valid(s) && s.jobs == [] && position <= |s.doc|
    ensures AtOnePlace(Step(s, Drop(files, position)), Site(Text(s.doc)[..position], Text(s.doc)[position..]),
                       s.sequence, s.sequence + |files|)
  {
    var a := Drop(files, position);
    StepKeepsValid(s, a);
    DocumentAfter(s, a);
    assert Text(s.doc) == Text(s.doc)[..position] + Text(s.doc)[position..];
    forall k: nat | Find(Step(s, a).jobs, k).Some?
      ensures s.sequence < k <= s.sequence + |files| && Find(Step(s, a).jobs, k).value.position == position
    {
      FindAfter(s, a, k);
    }
  }

  lemma {:induction false} OnePlaceIsSettled(s: State, site: Site, refs: nat -> string, lo: nat, hi: nat)
    requires AtOnePlace(s, site, lo, hi)
    ensures Settled(ViewOf(s), site, refs, lo, hi)
  {
    FinishedNone(s.inserted, refs, lo, hi);
    var v := ViewOf(s);
    forall k | k in v.at ensures Fits(v, site, refs, lo, hi, k) && v.at[k] == |site.left| {
      FinishedNone(s.inserted, refs, lo, k - 1);
      FinishedNone(s.inserted, refs, k, hi);
      assert (site.left + site.right)[..|site.left|] == site.left;
    }
  }

  /** After a drop, uploads in any order with failures, retries and removals: the text is
      the left part, the references that got through in drop order with blank lines
      between them, and the right part. */
  lemma {:induction false} DropProducesDocument(s: State, site: Site, refs: nat -> string, lo: nat, hi: nat,
                                                run: seq<Action>)
    requires AtOnePlace(s, site, lo, hi) && LegalRun(s, run)
    requires forall id :: Proper(refs(id))
    requires forall i | 0 <= i < |run| :: Calm(run[i], refs)
    ensures Text(Run(s, run).doc) == Document(site, Finished(Run(s, run).inserted, refs, lo, hi))
  {
    OnePlaceIsSettled(s, site, refs, lo, hi);
    RunKeepsSettled(s, run, site, refs, lo, hi);
  }

  lemma {:induction false} FinishedDependsOnSet(a: seq<nat>, b: seq<nat>, refs: nat -> string, lo: nat, hi: nat)
    requires forall k | lo < k <= hi :: k in a <==> k in b
    ensures Finished(a, refs, lo, hi) == Finished(b, refs, lo, hi)
    decreases hi - lo
  {
    if lo < hi {
      FinishedDependsOnSet(a, b, refs, lo + 1, hi);
    }
  }

  /** Confluence: two runs after the same drop in which the same jobs got through end with
      the same text. */
  lemma {:induction false} Confluence(s: State, site: Site, refs: nat -> string, lo: nat, hi: nat, run1: seq<Action>,
                                      run2: seq<Action>)
    requires AtOnePlace(s, site, lo, hi) && LegalRun(s, run1) && LegalRun(s, run2)
    requires forall id :: Proper(refs(id))
    requires forall i | 0 <= i < |run1| :: Calm(run1[i], refs)
    requires forall i | 0 <= i < |run2| :: Calm(run2[i], refs)
    requires forall k | lo < k <= hi :: k in Run(s, run1).inserted <==> k in Run(s, run2).inserted
    ensures Text(Run(s, run1).doc) == Text(Run(s, run2).doc)
  {
    DropProducesDocument(s, site, refs, lo, hi, run1);
    DropProducesDocument(s, site, refs, lo, hi, run2);
    FinishedDependsOnSet(Run(s, run1).inserted, Run(s, run2).inserted, refs, lo, hi);
  }
}
