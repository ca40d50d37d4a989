/** Uploads pending at any number of places: the text that comes out of every order of
completions, from any state of the editor. */
module AttachmentSites {
  import opened Sequences
  import opened AttachmentProtocol
  import opened AttachmentOrder
  import opened AttachmentConfluence

  /** The text and anchors a run starts from, and the reference every job will get. */
  datatype Ground = Ground(text: string, at: map<nat, nat>, hi: nat, refs: nat -> string)

  ghost predicate Sound(g: Ground) {
    && (forall k | k in g.at :: 0 < k <= g.hi && g.at[k] <= |g.text|)
    && (forall id :: Proper(g.refs(id)))
  }

  // ---- The text that should come out ----

  predicate StoodAt(g: Ground, k: nat, p: nat) {
    k in g.at && g.at[k] == p
  }

  /** The finished jobs whose anchor stood at `p`. */
  function DoneAt(g: Ground, done: seq<nat>, p: nat): seq<nat> {
    if done == [] then []
    else
      var init, k := done[..|done| - 1], done[|done| - 1];
      DoneAt(g, init, p) + (if StoodAt(g, k, p) then [k] else [])
  }

  function Texts(g: Ground, done: seq<nat>, p: nat): seq<string> {
    Finished(DoneAt(g, done, p), g.refs, 0, g.hi)
  }

  /** What is inserted at `p`: the references in drop order, separated by blank lines, with
      blank lines towards the neighbours that do not bring a line break. */
  function Block(g: Ground, done: seq<nat>, p: nat): string
    requires p <= |g.text|
  {
    var texts := Texts(g, done, p);
    if texts == [] then "" else GapBefore(g.text[..p]) + Join(texts) + GapAfter(g.text[p..])
  }

  function Blocks(g: Ground, done: seq<nat>): nat -> string {
    (p: nat) => if p <= |g.text| then Block(g, done, p) else ""
  }

  /** A text with blocks put at its places, up to a place and from it on. */
  function Left(text: string, blocks: nat -> string, p: nat): string
    requires p <= |text|
  {
    if p == 0 then "" else Left(text, blocks, p - 1) + blocks(p - 1) + [text[p - 1]]
  }

  function Right(text: string, blocks: nat -> string, p: nat): string
    requires p <= |text|
    decreases |text| - p
  {
    if p == |text| then "" else [text[p]] + blocks(p + 1) + Right(text, blocks, p + 1)
  }

  function Before(g: Ground, done: seq<nat>, p: nat): string
    requires p <= |g.text|
  {
    Left(g.text, Blocks(g, done), p)
  }

  function After(g: Ground, done: seq<nat>, p: nat): string
    requires p <= |g.text|
  {
    Right(g.text, Blocks(g, done), p)
  }

  /** The original text with a block at every place. */
  function Whole(g: Ground, done: seq<nat>): string {
    Before(g, done, |g.text|) + Block(g, done, |g.text|)
  }

  lemma {:induction false} DivideStep(x: string, b: string, c: string, b': string, y: string)
    ensures x + b + (c + b' + y) == (x + b + c) + b' + y
  {
    Assoc(x + b, c + b', y);
    Assoc(x + b, c, b');
  }

  lemma {:induction false} Divided(text: string, blocks: nat -> string, p: nat)
    requires p <= |text|
    ensures Left(text, blocks, p) + blocks(p) + Right(text, blocks, p) == Left(text, blocks, |text|) + blocks(|text|)
    decreases |text| - p
  {
    if p < |text| {
      var x, y := Left(text, blocks, p), Right(text, blocks, p + 1);
      DivideStep(x, blocks(p), [text[p]], blocks(p + 1), y);
      assert Left(text, blocks, p + 1) == x + blocks(p) + [text[p]];
      Divided(text, blocks, p + 1);
    } else {
      assert Left(text, blocks, p) + blocks(p) + "" == Left(text, blocks, p) + blocks(p);
    }
  }

  /** The whole text, divided at any place. */
  lemma {:induction false} WholeAround(g: Ground, done: seq<nat>, p: nat)
    requires p <= |g.text|
    ensures Before(g, done, p) + Block(g, done, p) + After(g, done, p) == Whole(g, done)
  {
    Divided(g.text, Blocks(g, done), p);
  }

  lemma {:induction false} GapsIn(text: string, blocks: nat -> string, p: nat)
    requires p <= |text|
    ensures GapBefore(Left(text, blocks, p)) == GapBefore(text[..p])
    ensures GapAfter(Right(text, blocks, p)) == GapAfter(text[p..])
  {
    var x, y := Left(text, blocks, p), Right(text, blocks, p);
    if p > 0 { assert x[|x| - 1] == text[p - 1] == text[..p][p - 1]; }
    if p < |text| { assert y[0] == text[p] == text[p..][0]; }
  }

  /** The neighbours of a place are those of the original text. */
  lemma {:induction false} Neighbours(g: Ground, done: seq<nat>, p: nat)
    requires p <= |g.text|
    ensures GapBefore(Before(g, done, p)) == GapBefore(g.text[..p])
    ensures GapAfter(After(g, done, p)) == GapAfter(g.text[p..])
  {
    GapsIn(g.text, Blocks(g, done), p);
  }

  function SiteAt(g: Ground, done: seq<nat>, p: nat): Site
    requires p <= |g.text|
  {
    Site(Before(g, done, p), After(g, done, p))
  }

  lemma {:induction false} BlockIsDocument(g: Ground, done: seq<nat>, p: nat)
    requires p <= |g.text|
    ensures Document(SiteAt(g, done, p), Texts(g, done, p)) == Whole(g, done)
  {
    var x, y, texts := Before(g, done, p), After(g, done, p), Texts(g, done, p);
    Neighbours(g, done, p);
    WholeAround(g, done, p);
    if texts == [] {
      assert x + "" == x;
    } else {
      Between(x, GapBefore(x), Join(texts), GapAfter(y), y);
    }
  }

  lemma {:induction false} Between(x: string, a: string, b: string, c: string, y: string)
    ensures x + a + b + c + y == x + (a + b + c) + y
  {
    Assoc(x, a + b, c);
    Assoc(x, a, b);
  }

  lemma {:induction false} LeftGrows(text: string, blocks: nat -> string, p: nat, q: nat)
    requires p < q <= |text|
    ensures |Left(text, blocks, p)| + |blocks(p)| < |Left(text, blocks, q)|
    decreases q
  {
    if p + 1 < q { LeftGrows(text, blocks, p, q - 1); }
  }

  lemma {:induction false} BeforeGrows(g: Ground, done: seq<nat>, p: nat, q: nat)
    requires p < q <= |g.text|
    ensures |Before(g, done, p)| + |Block(g, done, p)| < |Before(g, done, q)|
  {
    LeftGrows(g.text, Blocks(g, done), p, q);
  }

  // ---- A job finishes ----

  lemma {:induction false} DoneGrows(g: Ground, done: seq<nat>, k: nat, p: nat)
    ensures DoneAt(g, done + [k], p) == DoneAt(g, done, p) + (if StoodAt(g, k, p) then [k] else [])
  {
    assert (done + [k])[..|done|] == done;
  }

  /** Elsewhere the blocks stay, so the text left of its place and right of it stays. */
  lemma {:induction false} BlockElsewhere(g: Ground, done: seq<nat>, k: nat, p: nat)
    requires p <= |g.text| && !StoodAt(g, k, p)
    ensures Block(g, done + [k], p) == Block(g, done, p) && Texts(g, done + [k], p) == Texts(g, done, p)
  {
    DoneGrows(g, done, k, p);
    assert DoneAt(g, done, p) + [] == DoneAt(g, done, p);
  }

  lemma {:induction false} LeftSame(text: string, b: nat -> string, b': nat -> string, p: nat)
    requires p <= |text| && forall i: nat | i < p :: b(i) == b'(i)
    ensures Left(text, b, p) == Left(text, b', p)
  {
    if p > 0 { LeftSame(text, b, b', p - 1); }
  }

  lemma {:induction false} RightSame(text: string, b: nat -> string, b': nat -> string, p: nat)
    requires p <= |text| && forall i: nat | p < i <= |text| :: b(i) == b'(i)
    ensures Right(text, b, p) == Right(text, b', p)
    decreases |text| - p
  {
    if p < |text| { RightSame(text, b, b', p + 1); }
  }

  lemma {:induction false} BeforeElsewhere(g: Ground, done: seq<nat>, k: nat, p: nat)
    requires p <= |g.text| && k in g.at && p <= g.at[k]
    ensures Before(g, done + [k], p) == Before(g, done, p)
  {
    forall i: nat | i < p ensures Blocks(g, done)(i) == Blocks(g, done + [k])(i) { BlockElsewhere(g, done, k, i); }
    LeftSame(g.text, Blocks(g, done), Blocks(g, done + [k]), p);
  }

  lemma {:induction false} AfterElsewhere(g: Ground, done: seq<nat>, k: nat, p: nat)
    requires p <= |g.text| && k in g.at && g.at[k] <= p
    ensures After(g, done + [k], p) == After(g, done, p)
  {
    forall i: nat | p < i <= |g.text| ensures Blocks(g, done)(i) == Blocks(g, done + [k])(i) {
      BlockElsewhere(g, done, k, i);
    }
    RightSame(g.text, Blocks(g, done), Blocks(g, done + [k]), p);
  }

  // ---- One place at a time ----

  /** A view with only the anchors and finished jobs of one place. */
  function ViewAt(g: Ground, v: View, p: nat): View {
    View(v.text, map k | k in v.at && StoodAt(g, k, p) :: v.at[k], DoneAt(g, v.done, p))
  }

  ghost predicate SettledAt(g: Ground, v: View, p: nat)
    requires p <= |g.text|
  {
    Settled(ViewAt(g, v, p), SiteAt(g, v.done, p), g.refs, 0, g.hi)
  }

  ghost predicate AllSettled(g: Ground, v: View) {
    && Sound(g) && v.at.Keys <= g.at.Keys
    && forall p: nat | p <= |g.text| :: SettledAt(g, v, p)
  }

  lemma {:induction false} FitsBounds(site: Site, text: string, p: nat, a: seq<string>, b: seq<string>)
    requires p <= |text| && text == Document(site, a + b) && LeftFits(site, text[..p], a, b)
    ensures |site.left| <= p <= |text| - |site.right|
  {
    assert text[..p] + text[p..] == text;
    LeftDecides(site, text[..p], text[p..], a, b);
  }

  /** An anchor stands inside the block of its place. */
  lemma {:induction false} AnchorBounds(g: Ground, v: View, k: nat)
    requires AllSettled(g, v) && k in v.at
    ensures k in g.at && g.at[k] <= |g.text| && 0 < k <= g.hi && k !in DoneAt(g, v.done, g.at[k])
    ensures |Before(g, v.done, g.at[k])| <= v.at[k] <= |Before(g, v.done, g.at[k])| + |Block(g, v.done, g.at[k])|
    ensures v.at[k] <= |v.text|
  {
    var p := g.at[k];
    assert SettledAt(g, v, p);
    var w, site := ViewAt(g, v, p), SiteAt(g, v.done, p);
    assert k in w.at;
    FitsOne(w, site, g.refs, 0, g.hi, k);
    FinishedAt(w.done, g.refs, 0, k, g.hi);
    FitsBounds(site, v.text, v.at[k], Finished(w.done, g.refs, 0, k - 1), Finished(w.done, g.refs, k, g.hi));
    BlockIsDocument(g, v.done, p);
    WholeAround(g, v.done, p);
  }

  /** The place of the landing: this is the case of a single place. */
  lemma {:induction false} LandingHere(g: Ground, v: View, t: View, k: nat)
    requires AllSettled(g, v) && k in v.at && k in g.at && g.at[k] <= |g.text| && v.at[k] <= |v.text|
    requires Landed(v, t, k, Padded(v, k, g.refs(k)))
    ensures SettledAt(g, t, g.at[k])
  {
    var p := g.at[k];
    assert SettledAt(g, v, p);
    DoneGrows(g, v.done, k, p);
    BeforeElsewhere(g, v.done, k, p);
    AfterElsewhere(g, v.done, k, p);
    LandingKeepsSettled(ViewAt(g, v, p), ViewAt(g, t, p), SiteAt(g, v.done, p), g.refs, 0, g.hi, k);
  }

  /** The text after a landing is the expected one. */
  lemma {:induction false} LandingGivesWhole(g: Ground, v: View, t: View, k: nat)
    requires AllSettled(g, v) && k in v.at && k in g.at && g.at[k] <= |g.text| && v.at[k] <= |v.text|
    requires Landed(v, t, k, Padded(v, k, g.refs(k)))
    ensures v.text == Whole(g, v.done) && t.text == Whole(g, t.done)
  {
    LandingHere(g, v, t, k);
    assert SettledAt(g, v, g.at[k]);
    BlockIsDocument(g, v.done, g.at[k]);
    BlockIsDocument(g, t.done, g.at[k]);
  }

  /** Fitting is a matter of what lies between the left text and the anchor, and of the gaps. */
  lemma {:induction false} FitsMoved(site: Site, site': Site, w: string, a: seq<string>, b: seq<string>)
    requires GapBefore(site.left) == GapBefore(site'.left) && GapAfter(site.right) == GapAfter(site'.right)
    requires LeftFits(site, site.left + w, a, b)
    ensures LeftFits(site', site'.left + w, a, b)
  {
    var l, g, j, h := site.left, GapBefore(site.left), Join(a), GapAfter(site.right);
    if a == [] {
      Cancel(l, w, "");
      assert l + "" == l && site'.left + "" == site'.left;
    } else {
      Regrouped(l, g, j, h);
      Regrouped(l, g, j, GAP);
      Regrouped(site'.left, g, j, h);
      Regrouped(site'.left, g, j, GAP);
      if b == [] {
        Cancel(l, w, g + j + h);
      } else if l + w == Front(site, a) {
        Cancel(l, w, g + j);
      } else {
        Cancel(l, w, g + j + GAP);
      }
    }
  }

  lemma {:induction false} Regrouped(l: string, g: string, j: string, h: string)
    ensures l + g + j == l + (g + j) && l + g + j + h == l + (g + j + h)
  {
    Assoc(l, g, j);
    Assoc(l, g + j, h);
  }

  /** What lies between the left text and an anchor, when the left text changes. */
  lemma {:induction false} PrefixMoved(left: string, left': string, rest: string, p: nat)
    requires |left| <= p <= |left + rest|
    ensures (left + rest)[..p] == left + rest[..p - |left|]
    ensures |left'| + (p - |left|) <= |left' + rest|
    ensures (left' + rest)[..|left'| + (p - |left|)] == left' + rest[..p - |left|]
  {}

  /** Another place, right of the landing: its text moves as a whole. */
  lemma {:induction false} FitsBehindLanding(site: Site, site': Site, rest: string, text: string, text': string,
                                             p: nat, p': nat,
                          a: seq<string>, b: seq<string>)
    requires site'.right == site.right && GapBefore(site'.left) == GapBefore(site.left)
    requires text == site.left + rest && text' == site'.left + rest
    requires |site.left| <= p <= |text| && p' == |site'.left| + (p - |site.left|) && LeftFits(site, text[..p], a, b)
    ensures p' <= |text'| && LeftFits(site', text'[..p'], a, b)
  {
    PrefixMoved(site.left, site'.left, rest, p);
    FitsMoved(site, site', rest[..p - |site.left|], a, b);
  }

  /** Another place, left of the landing: nothing up to its anchor changes. */
  lemma {:induction false} FitsBeforeLanding(site: Site, site': Site, x: string, a: seq<string>, b: seq<string>)
    requires site'.left == site.left && GapAfter(site'.right) == GapAfter(site.right) && LeftFits(site, x, a, b)
    ensures LeftFits(site', x, a, b)
  {}

  /** The references of the jobs of one place before and after job `j`. */
  function Earlier(g: Ground, done: seq<nat>, j: nat): seq<string>
    requires 0 < j && j in g.at
  {
    Finished(DoneAt(g, done, g.at[j]), g.refs, 0, j - 1)
  }

  function Later(g: Ground, done: seq<nat>, j: nat): seq<string>
    requires 0 < j && j in g.at
  {
    Finished(DoneAt(g, done, g.at[j]), g.refs, j, g.hi)
  }

  ghost predicate AnchorFits(g: Ground, v: View, j: nat) {
    && j in v.at && j in g.at && g.at[j] <= |g.text| && 0 < j && v.at[j] <= |v.text|
    && LeftFits(SiteAt(g, v.done, g.at[j]), v.text[..v.at[j]], Earlier(g, v.done, j), Later(g, v.done, j))
  }

  lemma {:induction false} SettledFits(g: Ground, v: View, j: nat)
    requires AllSettled(g, v) && j in v.at
    ensures AnchorFits(g, v, j)
  {
    AnchorBounds(g, v, j);
    assert SettledAt(g, v, g.at[j]);
    var w := ViewAt(g, v, g.at[j]);
    assert j in w.at;
    FitsOne(w, SiteAt(g, v.done, g.at[j]), g.refs, 0, g.hi, j);
  }

  /** Right of the place of job `k` the text stays, however the left part changes. */
  lemma {:induction false} WholeBehind(g: Ground, done: seq<nat>, k: nat, q: nat)
    requires q <= |g.text| && k in g.at && g.at[k] < q
    ensures var rest := Block(g, done, q) + After(g, done, q);
            && Whole(g, done) == Before(g, done, q) + rest
            && Whole(g, done + [k]) == Before(g, done + [k], q) + rest
    ensures After(g, done + [k], q) == After(g, done, q)
  {
    BlockElsewhere(g, done, k, q);
    AfterElsewhere(g, done, k, q);
    WholeAround(g, done, q);
    WholeAround(g, done + [k], q);
    Assoc(Before(g, done, q), Block(g, done, q), After(g, done, q));
    Assoc(Before(g, done + [k], q), Block(g, done, q), After(g, done, q));
  }

  ghost predicate LandsAmong(g: Ground, v: View, t: View, k: nat) {
    && AllSettled(g, v) && k in v.at && k in g.at && g.at[k] <= |g.text| && v.at[k] <= |v.text|
    && Landed(v, t, k, Padded(v, k, g.refs(k)))
  }

  lemma {:induction false} SameJobs(g: Ground, done: seq<nat>, k: nat, j: nat)
    requires 0 < j && j in g.at && k in g.at && g.at[j] != g.at[k]
    ensures Earlier(g, done + [k], j) == Earlier(g, done, j) && Later(g, done + [k], j) == Later(g, done, j)
  {
    DoneGrows(g, done, k, g.at[j]);
    assert DoneAt(g, done, g.at[j]) + [] == DoneAt(g, done, g.at[j]);
  }

  lemma {:induction false} PositionBehind(g: Ground, v: View, t: View, k: nat, j: nat)
    requires LandsAmong(g, v, t, k) && j in t.at && j in v.at && j in g.at && g.at[k] < g.at[j] <= |g.text|
    ensures var left, left' := Before(g, v.done, g.at[j]), Before(g, t.done, g.at[j]);
            |left| <= v.at[j] <= |v.text| && t.at[j] == |left'| + (v.at[j] - |left|)
  {
    AnchorBounds(g, v, k);
    AnchorBounds(g, v, j);
    BeforeGrows(g, v.done, g.at[k], g.at[j]);
    LandingGivesWhole(g, v, t, k);
    WholeBehind(g, v.done, k, g.at[j]);
  }

  lemma {:induction false} SiteBehind(g: Ground, done: seq<nat>, k: nat, q: nat)
    requires q <= |g.text| && k in g.at && g.at[k] < q
    ensures var site, site' := SiteAt(g, done, q), SiteAt(g, done + [k], q);
            site'.right == site.right && GapBefore(site'.left) == GapBefore(site.left)
  {
    AfterElsewhere(g, done, k, q);
    Neighbours(g, done, q);
    Neighbours(g, done + [k], q);
  }

  lemma {:induction false} SiteBefore(g: Ground, done: seq<nat>, k: nat, q: nat)
    requires q <= |g.text| && k in g.at && q < g.at[k]
    ensures var site, site' := SiteAt(g, done, q), SiteAt(g, done + [k], q);
            site'.left == site.left && GapAfter(site'.right) == GapAfter(site.right)
  {
    BeforeElsewhere(g, done, k, q);
    Neighbours(g, done, q);
    Neighbours(g, done + [k], q);
  }

  lemma {:induction false} MovesRight(g: Ground, v: View, t: View, k: nat, j: nat)
    requires AnchorFits(g, v, j) && k in g.at && g.at[k] < g.at[j] && j in t.at && t.done == v.done + [k]
    requires v.text == Whole(g, v.done) && t.text == Whole(g, t.done)
    requires |Before(g, v.done, g.at[j])| <= v.at[j]
    requires t.at[j] == |Before(g, t.done, g.at[j])| + (v.at[j] - |Before(g, v.done, g.at[j])|)
    ensures AnchorFits(g, t, j)
  {
    var q := g.at[j];
    var site, site', rest := SiteAt(g, v.done, q), SiteAt(g, t.done, q), Block(g, v.done, q) + After(g, v.done, q);
    WholeBehind(g, v.done, k, q);
    SameJobs(g, v.done, k, j);
    SiteBehind(g, v.done, k, q);
    FitsBehindLanding(site, site', rest, v.text, t.text, v.at[j], t.at[j], Earlier(g, v.done, j), Later(g, v.done, j));
  }

  lemma {:induction false} StaysLeft(g: Ground, v: View, t: View, k: nat, j: nat)
    requires AnchorFits(g, v, j) && k in g.at && g.at[j] < g.at[k] && j in t.at && t.done == v.done + [k]
    requires t.at[j] == v.at[j] <= |t.text| && t.text[..v.at[j]] == v.text[..v.at[j]]
    ensures AnchorFits(g, t, j)
  {
    var q := g.at[j];
    SameJobs(g, v.done, k, j);
    SiteBefore(g, v.done, k, q);
    FitsBeforeLanding(SiteAt(g, v.done, q), SiteAt(g, t.done, q), v.text[..v.at[j]],
                      Earlier(g, v.done, j), Later(g, v.done, j));
  }

  lemma {:induction false} FitsRight(g: Ground, v: View, t: View, k: nat, j: nat)
    requires LandsAmong(g, v, t, k) && j in t.at && j in v.at && j in g.at && g.at[k] < g.at[j] <= |g.text|
    ensures AnchorFits(g, t, j)
  {
    SettledFits(g, v, j);
    PositionBehind(g, v, t, k, j);
    LandingGivesWhole(g, v, t, k);
    MovesRight(g, v, t, k, j);
  }

  lemma {:induction false} PositionBefore(g: Ground, v: View, t: View, k: nat, j: nat)
    requires LandsAmong(g, v, t, k) && j in t.at && j in v.at && j in g.at && g.at[j] < g.at[k]
    ensures t.at[j] == v.at[j] <= v.at[k]
  {
    AnchorBounds(g, v, k);
    AnchorBounds(g, v, j);
    BeforeGrows(g, v.done, g.at[j], g.at[k]);
  }

  lemma {:induction false} FitsLeft(g: Ground, v: View, t: View, k: nat, j: nat)
    requires LandsAmong(g, v, t, k) && j in t.at && j in v.at && j in g.at && g.at[j] < g.at[k]
    ensures AnchorFits(g, t, j)
  {
    SettledFits(g, v, j);
    PositionBefore(g, v, t, k, j);
    SplicedLeft(v.text, v.at[k], Padded(v, k, g.refs(k)), v.at[j]);
    StaysLeft(g, v, t, k, j);
  }

  lemma {:induction false} SplicedLeft(text: string, p: nat, inserted: string, q: nat)
    requires q <= p <= |text|
    ensures q <= |text[..p] + inserted + text[p..]| && (text[..p] + inserted + text[p..])[..q] == text[..q]
  {}

  /** Every other place stays settled. */
  lemma {:induction false} LandingElsewhere(g: Ground, v: View, t: View, k: nat, q: nat)
    requires LandsAmong(g, v, t, k) && q <= |g.text| && q != g.at[k]
    ensures SettledAt(g, t, q)
  {
    var w := ViewAt(g, t, q);
    LandingGivesWhole(g, v, t, k);
    BlockIsDocument(g, t.done, q);
    forall j | j in w.at ensures Fits(w, SiteAt(g, t.done, q), g.refs, 0, g.hi, j) {
      assert j in v.at.Keys - {k};
      OtherAnchor(g, v, t, k, j);
      AnchorBounds(g, v, j);
      DoneGrows(g, v.done, k, q);
    }
    forall i, j | i in w.at && j in w.at && i < j ensures w.at[i] <= w.at[j] {
      OrderElsewhere(g, v, t, k, i, j);
    }
  }

  lemma {:induction false} OtherAnchor(g: Ground, v: View, t: View, k: nat, j: nat)
    requires LandsAmong(g, v, t, k) && j in t.at && j in v.at && j in g.at && g.at[j] != g.at[k]
    ensures AnchorFits(g, t, j)
  {
    AnchorBounds(g, v, j);
    if g.at[j] < g.at[k] {
      FitsLeft(g, v, t, k, j);
    } else {
      FitsRight(g, v, t, k, j);
    }
  }

  lemma {:induction false} OrderElsewhere(g: Ground, v: View, t: View, k: nat, i: nat, j: nat)
    requires LandsAmong(g, v, t, k) && i in t.at && j in t.at && i < j
    requires i in g.at && j in g.at && g.at[i] == g.at[j] <= |g.text|
    ensures t.at[i] <= t.at[j]
  {
    assert SettledAt(g, v, g.at[i]);
    var w := ViewAt(g, v, g.at[i]);
    assert i in v.at.Keys - {k} && j in v.at.Keys - {k};
    assert i in w.at && j in w.at;
    assert w.at[i] <= w.at[j];
  }

  /** A landing keeps every place settled. */
  lemma {:induction false} LandingKeepsAll(g: Ground, v: View, t: View, k: nat)
    requires LandsAmong(g, v, t, k)
    ensures AllSettled(g, t)
  {
    forall p: nat | p <= |g.text| ensures SettledAt(g, t, p) {
      if p == g.at[k] { LandingHere(g, v, t, k); } else { LandingElsewhere(g, v, t, k, p); }
    }
  }

  lemma {:induction false} QuietKeepsAll(g: Ground, v: View, t: View)
    requires AllSettled(g, v) && t.text == v.text && t.done == v.done
    requires t.at.Keys <= v.at.Keys && forall j | j in t.at :: t.at[j] == v.at[j]
    ensures AllSettled(g, t)
  {
    forall p: nat | p <= |g.text| ensures SettledAt(g, t, p) {
      assert SettledAt(g, v, p);
      QuietKeepsSettled(ViewAt(g, v, p), ViewAt(g, t, p), SiteAt(g, v.done, p), g.refs, 0, g.hi);
    }
  }

  // ---- Every run from every state ----

  function GroundOf(s: State, refs: nat -> string): Ground {
    Ground(Text(s.doc), ViewOf(s).at, s.sequence, refs)
  }

  lemma {:induction false} NothingDone(g: Ground, done: seq<nat>, p: nat)
    requires forall k | k in done :: k !in g.at
    ensures DoneAt(g, done, p) == []
  {
    if done != [] {
      assert done[|done| - 1] in done;
      NothingDone(g, done[..|done| - 1], p);
    }
  }

  lemma {:induction false} NoBlocks(text: string, blocks: nat -> string, p: nat)
    requires p <= |text| && forall i: nat | i <= |text| :: blocks(i) == ""
    ensures Left(text, blocks, p) == text[..p]
  {
    if p > 0 {
      NoBlocks(text, blocks, p - 1);
      assert text[..p - 1] + [text[p - 1]] == text[..p];
    }
  }

  lemma {:induction false} Untouched(g: Ground, done: seq<nat>, p: nat)
    requires p <= |g.text| && forall k | k in done :: k !in g.at
    ensures Before(g, done, p) == g.text[..p] && Whole(g, done) == g.text && Texts(g, done, p) == []
  {
    forall i: nat | i <= |g.text| ensures Blocks(g, done)(i) == "" {
      NothingDone(g, done, i);
      FinishedNone([], g.refs, 0, g.hi);
    }
    NothingDone(g, done, p);
    FinishedNone([], g.refs, 0, g.hi);
    NoBlocks(g.text, Blocks(g, done), p);
    NoBlocks(g.text, Blocks(g, done), |g.text|);
    assert Block(g, done, |g.text|) == Blocks(g, done)(|g.text|);
    assert g.text[..|g.text|] + "" == g.text;
  }

  lemma {:induction false} StartSettled(g: Ground, v: View)
    requires Sound(g) && v.text == g.text && v.at == g.at && forall k | k in v.done :: k !in g.at
    ensures AllSettled(g, v)
  {
    forall p: nat | p <= |g.text| ensures SettledAt(g, v, p) { StartSettledAt(g, v, p); }
  }

  lemma {:induction false} StartSettledAt(g: Ground, v: View, p: nat)
    requires Sound(g) && v.text == g.text && v.at == g.at && p <= |g.text| && forall k | k in v.done :: k !in g.at
    ensures SettledAt(g, v, p)
  {
    Untouched(g, v.done, p);
    BlockIsDocument(g, v.done, p);
    NothingDone(g, v.done, p);
    var w := ViewAt(g, v, p);
    forall k | k in w.at ensures Fits(w, SiteAt(g, v.done, p), g.refs, 0, g.hi, k) {
      FinishedNone([], g.refs, 0, k - 1);
      FinishedNone([], g.refs, k, g.hi);
    }
  }

  lemma {:induction false} StateSettled(s: State, refs: nat -> string)
    requires Valid(s) && forall id :: Proper(refs(id))
    ensures AllSettled(GroundOf(s, refs), ViewOf(s))
  {
    var g, v := GroundOf(s, refs), ViewOf(s);
    forall k | k in g.at ensures 0 < k <= g.hi && g.at[k] <= |g.text| && k !in v.done { FindPosition(s, k); }
    StartSettled(g, v);
  }

  lemma {:induction false} RunKeepsAll(g: Ground, s: State, run: seq<Action>)
    requires Valid(s) && LegalRun(s, run) && (forall i | 0 <= i < |run| :: Calm(run[i], g.refs))
    requires AllSettled(g, ViewOf(s))
    ensures AllSettled(g, ViewOf(Run(s, run)))
    decreases |run|
  {
    if run != [] {
      var a, v, t := run[0], ViewOf(s), ViewOf(Step(s, run[0]));
      assert Calm(a, g.refs);
      StepKeepsValid(s, a);
      if AttachmentProtocol.Lands(s, a) {
        LandingView(s, a, g.refs);
        AnchorBounds(g, v, a.id);
        LandingKeepsAll(g, v, t, a.id);
      } else {
        QuietView(s, a, g.refs);
        QuietKeepsAll(g, v, t);
      }
      RunKeepsAll(g, Step(s, a), run[1..]);
    }
  }

  /** From any state, with uploads pending at any places, and through any run of successes,
      failures, retries and removals: the text is the original one with, at every place, the
      references that got through there in drop order, separated by blank lines. */
  lemma {:induction false} UploadsProduceText(s: State, refs: nat -> string, run: seq<Action>)
    requires Valid(s) && LegalRun(s, run) && (forall id :: Proper(refs(id)))
    requires forall i | 0 <= i < |run| :: Calm(run[i], refs)
    ensures Text(Run(s, run).doc) == Whole(GroundOf(s, refs), Run(s, run).inserted)
  {
    var g := GroundOf(s, refs);
    StateSettled(s, refs);
    RunKeepsAll(g, s, run);
    var v := ViewOf(Run(s, run));
    assert SettledAt(g, v, 0);
    BlockIsDocument(g, v.done, 0);
  }

  lemma {:induction false} DoneMembers(g: Ground, done: seq<nat>, p: nat, k: nat)
    ensures k in DoneAt(g, done, p) <==> k in done && StoodAt(g, k, p)
  {
    if done != [] {
      DoneMembers(g, done[..|done| - 1], p, k);
      assert done == done[..|done| - 1] + [done[|done| - 1]];
    }
  }

  lemma {:induction false} WholeDependsOnSet(g: Ground, a: seq<nat>, b: seq<nat>)
    requires forall k | k in g.at :: k in a <==> k in b
    ensures Whole(g, a) == Whole(g, b)
  {
    forall p: nat | p <= |g.text| ensures Blocks(g, a)(p) == Blocks(g, b)(p) {
      forall k: nat ensures k in DoneAt(g, a, p) <==> k in DoneAt(g, b, p) {
        DoneMembers(g, a, p, k);
        DoneMembers(g, b, p, k);
      }
      FinishedDependsOnSet(DoneAt(g, a, p), DoneAt(g, b, p), g.refs, 0, g.hi);
    }
    LeftSame(g.text, Blocks(g, a), Blocks(g, b), |g.text|);
    assert Block(g, a, |g.text|) == Blocks(g, a)(|g.text|);
    assert Block(g, b, |g.text|) == Blocks(g, b)(|g.text|);
  }

  /** Confluence from any state: two runs of upload events in which the same pending jobs got
      through end with the same text, wherever their anchors stand. */
  lemma {:induction false} ConfluenceAnywhere(s: State, refs: nat -> string, run1: seq<Action>, run2: seq<Action>)
    requires Valid(s) && LegalRun(s, run1) && LegalRun(s, run2) && (forall id :: Proper(refs(id)))
    requires forall i | 0 <= i < |run1| :: Calm(run1[i], refs)
    requires forall i | 0 <= i < |run2| :: Calm(run2[i], refs)
    requires forall k | k in ViewOf(s).at :: k in Run(s, run1).inserted <==> k in Run(s, run2).inserted
    ensures Text(Run(s, run1).doc) == Text(Run(s, run2).doc)
  {
    UploadsProduceText(s, refs, run1);
    UploadsProduceText(s, refs, run2);
    WholeDependsOnSet(GroundOf(s, refs), Run(s, run1).inserted, Run(s, run2).inserted);
  }
}
