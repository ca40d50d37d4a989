/** The generated decomposition and composition tables, and the runtime's lookups in them. */
module NormalizationTables {
  import opened Bits
  import opened Options
  import opened StepTables

  /** What the generator parses from the Unicode Character Database. */
  datatype Ucd = Ucd(decomp: map<nat, seq<nat>>, ccc: map<nat, nat>, marks: set<nat>, exclusions: set<nat>)

  datatype Entry = Entry(code: nat, first: nat, second: nat, composable: bool)

  /** The tables written to `normalization_table.rs`. */
  datatype Tables = Tables(decomp: seq<nat>, compose: seq<nat>, ccc: seq<nat>, marks: seq<nat>)

  predicate Scalar(c: nat) {
    c < CODE_SPACE && !(0xD800 <= c < 0xE000)
  }

  // ---- Entries ----

  /** The generator's assertion on a mapping: one or two code points of 21 bits. */
  predicate Encodable(m: seq<nat>) {
    1 <= |m| <= 2 && forall i | 0 <= i < |m| :: 0 < m[i] < Shl(1, 21)
  }

  function EntryOf(u: Ucd, code: nat): Entry
    requires code in u.decomp && Encodable(u.decomp[code])
  {
    var m := u.decomp[code];
    Entry(code, m[0], if |m| == 2 then m[1] else 0, |m| == 2 && code !in u.exclusions)
  }

  /** `codes` is `sorted(decomp)`. */
  ghost predicate SortedKeys(u: Ucd, codes: seq<nat>) {
    && (forall i, j | 0 <= i < j < |codes| :: codes[i] < codes[j])
    && (forall c :: c in codes <==> c in u.decomp)
  }

  function EntriesOf(u: Ucd, codes: seq<nat>): (entries: seq<Entry>)
    requires forall c | c in codes :: c in u.decomp && Encodable(u.decomp[c])
    ensures |entries| == |codes| && forall i | 0 <= i < |codes| :: entries[i] == EntryOf(u, codes[i])
  {
    seq(|codes|, i requires 0 <= i < |codes| => EntryOf(u, codes[i]))
  }

  /** The generator's loop; `None` is a failed assertion, on a mapping or on the number of
      entries, of which the index keeps 16 bits. */
  method BuildEntries(u: Ucd, codes: seq<nat>) returns (r: Option<seq<Entry>>)
    requires forall c | c in codes :: c in u.decomp
    ensures r.Some? <==> |codes| < Shl(1, 16) && forall c | c in codes :: Encodable(u.decomp[c])
    ensures r.Some? ==> r.value == EntriesOf(u, codes)
  {
    var entries: seq<Entry> := [];
    for i := 0 to |codes|
      invariant |entries| == i
      invariant forall j | 0 <= j < i :: Encodable(u.decomp[codes[j]]) && entries[j] == EntryOf(u, codes[j])
    {
      var m := u.decomp[codes[i]];
      if !Encodable(m) {
        assert codes[i] in codes;
        return None;
      }
      entries := entries + [EntryOf(u, codes[i])];
    }
    return if |entries| < Shl(1, 16) then Some(entries) else None;
  }

  // ---- Packing ----

  /** `code | first << 21 | second << 42 | composable << 63`. */
  function Pack(e: Entry): nat {
    Or(Or(Or(e.code, Shl(e.first, 21)), Shl(e.second, 42)), Shl(if e.composable then 1 else 0, 63))
  }

  function EntryCode(e: nat): nat { And(e, Mask(21)) }

  function EntryFirst(e: nat): nat { And(Shr(e, 21), Mask(21)) }

  function EntrySecond(e: nat): nat { And(Shr(e, 42), Mask(21)) }

  lemma {:induction false} ShrAdd(x: nat, i: nat, j: nat)
    ensures Shr(x, i + j) == Shr(Shr(x, i), j)
    decreases i
  {
    if i > 0 { ShrAdd(x / 2, i - 1, j); }
  }

  lemma {:induction false} FieldBound(a: nat, b: nat, i: nat, j: nat)
    requires a < Shl(1, i) && b < Shl(1, j)
    ensures a + Shl(b, i) < Shl(1, i + j)
    decreases i
  {
    if i > 0 { FieldBound(a / 2, b, i - 1, j); }
  }

  /** Three fields of `w` bits and a flag, put together by shifts. */
  function Sum(code: nat, first: nat, second: nat, k: nat, w: nat): nat {
    code + Shl(first + Shl(second + Shl(k, w), w), w)
  }

  lemma {:induction false} SumFlat(code: nat, first: nat, second: nat, k: nat, w: nat)
    ensures Sum(code, first, second, k, w) == code + Shl(first, w) + Shl(second, w + w) + Shl(k, w + w + w)
  {
    ShlPlus(first, Shl(second + Shl(k, w), w), w);
    ShlAdd(second + Shl(k, w), w, w);
    ShlPlus(second, Shl(k, w), w + w);
    ShlAdd(k, w, w + w);
  }

  lemma {:induction false} OrIsSum(code: nat, first: nat, second: nat, k: nat, w: nat)
    requires code < Shl(1, w) && first < Shl(1, w) && second < Shl(1, w)
    ensures Or(Or(Or(code, Shl(first, w)), Shl(second, w + w)), Shl(k, w + w + w)) == Sum(code, first, second, k, w)
  {
    OrDisjoint(code, first, w);
    FieldBound(code, first, w, w);
    OrDisjoint(code + Shl(first, w), second, w + w);
    FieldBound(code + Shl(first, w), second, w + w, w);
    OrDisjoint(code + Shl(first, w) + Shl(second, w + w), k, w + w + w);
    SumFlat(code, first, second, k, w);
  }

  lemma {:induction false} SumFields(code: nat, first: nat, second: nat, k: nat, w: nat)
    requires code < Shl(1, w) && first < Shl(1, w) && second < Shl(1, w)
    ensures var e := Sum(code, first, second, k, w);
            && And(e, Mask(w)) == code
            && And(Shr(e, w), Mask(w)) == first
            && And(Shr(e, w + w), Mask(w)) == second
            && Shr(e, w + w + w) == k
  {
    var e := Sum(code, first, second, k, w);
    var third := second + Shl(k, w);
    Fields(code, first + Shl(third, w), w);
    Fields(first, third, w);
    Fields(second, k, w);
    ShrAdd(e, w, w);
    ShrAdd(e, w + w, w);
  }

  lemma {:induction false} SumBound(code: nat, first: nat, second: nat, k: nat, w: nat)
    requires code < Shl(1, w) && first < Shl(1, w) && second < Shl(1, w) && k < 2
    ensures Sum(code, first, second, k, w) < Shl(1, w + w + w + 1)
  {
    FieldBound(second, k, w, 1);
    FieldBound(first, second + Shl(k, w), w, w + 1);
    FieldBound(code, first + Shl(second + Shl(k, w), w), w, w + w + 1);
  }

  lemma {:induction false} PackIsSum(e: Entry)
    requires e.code < Shl(1, 21) && e.first < Shl(1, 21) && e.second < Shl(1, 21)
    ensures Pack(e) == Sum(e.code, e.first, e.second, if e.composable then 1 else 0, 21)
  {
    OrIsSum(e.code, e.first, e.second, if e.composable then 1 else 0, 21);
  }

  /** Packing loses nothing. */
  lemma {:induction false} Unpack(e: Entry)
    requires e.code < Shl(1, 21) && e.first < Shl(1, 21) && e.second < Shl(1, 21)
    ensures EntryCode(Pack(e)) == e.code && EntryFirst(Pack(e)) == e.first && EntrySecond(Pack(e)) == e.second
    ensures Shr(Pack(e), 63) == (if e.composable then 1 else 0)
  {
    PackIsSum(e);
    SumFields(e.code, e.first, e.second, if e.composable then 1 else 0, 21);
  }

  /** A packed entry is a 64-bit word. */
  lemma {:induction false} PackFits(e: Entry)
    requires e.code < Shl(1, 21) && e.first < Shl(1, 21) && e.second < Shl(1, 21)
    ensures Pack(e) < Shl(1, 64)
  {
    PackIsSum(e);
    SumBound(e.code, e.first, e.second, if e.composable then 1 else 0, 21);
  }
}
