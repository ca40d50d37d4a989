/** The layout of compiled time-zone files (section 3 of RFC 9636), written out in full, and
that the encoder reads back from it exactly what was put in. */
module TzifFormat {
  import opened Options
  import opened TzdbBytes
  import opened TzdbFormat
  import opened TzdbSource
  import opened TzdbGenerator

  // ---- Writing ----

  /** What a file holds beside the data the encoder wants: its version, the version-1 block,
      reserved bytes, abbreviation indices and designations, leap seconds and indicators. */
  datatype Rest = Rest(
    version: Byte,
    reserved: Bytes,
    first: Counts,
    firstBlock: Bytes,
    secondPreamble: Bytes,
    abbreviations: Bytes,
    designations: Bytes,
    leap: seq<Bytes>,
    standard: Bytes,
    universal: Bytes)

  predicate CountsFit(h: Counts) {
    h.ut < TWO32 && h.st < TWO32 && h.leap < TWO32 && h.n < TWO32 && h.k < TWO32 && h.c < TWO32
  }

  function CountsBytes(h: Counts): (r: Bytes)
    requires CountsFit(h)
    ensures |r| == 24
  {
    U32(h.ut) + (U32(h.st) + (U32(h.leap) + (U32(h.n) + (U32(h.k) + U32(h.c)))))
  }

  /** Eight bytes, most significant first, in two's complement. */
  function I64(n: int): (r: Bytes)
    requires FitsI64(n)
    ensures |r| == 8
  {
    I32(n / TWO32) + U32(n % TWO32)
  }

  function TimesBytes(times: seq<int>): (r: Bytes)
    requires forall i | 0 <= i < |times| :: FitsI64(times[i])
    ensures |r| == 8 * |times|
  {
    if times == [] then [] else TimesBytes(times[..|times| - 1]) + I64(times[|times| - 1])
  }

  /** One record for every local time type: offset, daylight flag, abbreviation index. */
  function TypesBytes(offsets: seq<int>, dst: Bytes, abbreviations: Bytes): (r: Bytes)
    requires |offsets| == |dst| == |abbreviations| && forall i | 0 <= i < |offsets| :: FitsI32(offsets[i])
    ensures |r| == 6 * |offsets|
  {
    if offsets == [] then []
    else
      var k := |offsets| - 1;
      TypesBytes(offsets[..k], dst[..k], abbreviations[..k]) + (I32(offsets[k]) + [dst[k], abbreviations[k]])
  }

  function Flatten(records: seq<Bytes>): Bytes {
    if records == [] then [] else records[0] + Flatten(records[1..])
  }

  function SecondCounts(x: Rest, f: Tzif): Counts {
    Counts(|x.universal|, |x.standard|, |x.leap|, |f.times|, |f.offsets|, |x.designations|)
  }

  /** The parts have the lengths their counts announce, numbers fit their fields, and the
      footer has no line break at either end. */
  predicate Fits(x: Rest, f: Tzif) {
    HeadersFit(x, f) && DataFits(x, f)
  }

  predicate HeadersFit(x: Rest, f: Tzif) {
    && |x.reserved| == 15 && |x.secondPreamble| == 20 && (forall i | 0 <= i < |x.leap| :: |x.leap[i]| == 12)
    && CountsFit(x.first) && FirstBlockFits(x.first, |x.firstBlock|) && CountsFit(SecondCounts(x, f))
  }

  predicate DataFits(x: Rest, f: Tzif) {
    && |f.times| == |f.indices| && (forall i | 0 <= i < |f.times| :: FitsI64(f.times[i]))
    && |f.offsets| == |f.dst| == |x.abbreviations| && (forall i | 0 <= i < |f.offsets| :: FitsI32(f.offsets[i]))
    && (f.footer != [] ==> f.footer[0] != 10 && f.footer[|f.footer| - 1] != 10)
  }

  /** Times of four bytes, type indices, type records, designations, leap-second records of
      eight bytes, and the two kinds of indicators. */
  predicate FirstBlockFits(h: Counts, length: nat) {
    length == h.n * 4 + h.n + h.k * 6 + h.c + h.leap * 8 + h.st + h.ut
  }

  function Footer(footer: Bytes): Bytes { [10] + (footer + [10]) }

  function DataBlock(x: Rest, f: Tzif): Bytes
    requires Fits(x, f)
  {
    TimesBytes(f.times) + (f.indices + (TypesBytes(f.offsets, f.dst, x.abbreviations)
    + (x.designations + (Flatten(x.leap) + (x.standard + (x.universal + Footer(f.footer)))))))
  }

  /** "TZif", the version and reserved bytes, twice the counts, the two data blocks. */
  function TzifBytes(x: Rest, f: Tzif): Bytes
    requires Fits(x, f)
  {
    [0x54, 0x5A, 0x69, 0x66] + ([x.version] + (x.reserved + (CountsBytes(x.first) + (x.firstBlock
    + (x.secondPreamble + (CountsBytes(SecondCounts(x, f)) + DataBlock(x, f)))))))
  }

  // ---- Reading at a place ----

  predicate Has(b: Bytes, at: nat, x: Bytes) {
    at + |x| <= |b| && forall i | 0 <= i < |x| :: x[i] == b[at + i]
  }

  lemma {:induction false} HasSplit(b: Bytes, at: nat, x: Bytes, y: Bytes)
    requires Has(b, at, x + y)
    ensures Has(b, at, x) && Has(b, at + |x|, y)
  {
    forall i | 0 <= i < |x| ensures x[i] == b[at + i] { assert (x + y)[i] == x[i]; }
    forall i | 0 <= i < |y| ensures y[i] == b[at + |x| + i] { assert (x + y)[|x| + i] == y[i]; }
  }

  lemma {:induction false} HasByte(b: Bytes, at: nat, x: Bytes, i: nat)
    requires Has(b, at, x) && i < |x|
    ensures b[at + i] == x[i]
  {
    assert x[i] == b[at + i];
  }

  lemma {:induction false} U32Value(n: nat)
    requires n < TWO32
    ensures n == (n / 0x100_0000) * 0x100_0000 + (n / 0x1_0000 % 256) * 0x1_0000 + (n / 256 % 256) * 256 + n % 256
  {
    var a, b := n / 256, n / 0x1_0000;
    assert n == a * 256 + n % 256 && a == b * 256 + a % 256 && b == (n / 0x100_0000) * 256 + b % 256;
  }

  lemma {:induction false} U32Read(b: Bytes, at: nat, n: nat)
    requires n < TWO32 && Has(b, at, U32(n))
    ensures U32At(b, at) == n
  {
    HasByte(b, at, U32(n), 0);
    HasByte(b, at, U32(n), 1);
    HasByte(b, at, U32(n), 2);
    HasByte(b, at, U32(n), 3);
    U32Value(n);
  }

  lemma {:induction false} I32Read(b: Bytes, at: nat, n: int)
    requires FitsI32(n) && Has(b, at, I32(n))
    ensures I32At(b, at) == n
  {
    U32Read(b, at, if n >= 0 then n else n + TWO32);
  }

  lemma {:induction false} I64Read(b: Bytes, at: nat, n: int)
    requires FitsI64(n) && Has(b, at, I64(n))
    ensures I64At(b, at) == n
  {
    HasSplit(b, at, I32(n / TWO32), U32(n % TWO32));
    I32Read(b, at, n / TWO32);
    U32Read(b, at + 4, n % TWO32);
  }

  lemma {:induction false} CountsRead(b: Bytes, at: nat, h: Counts)
    requires CountsFit(h) && Has(b, at, CountsBytes(h))
    ensures CountsAt(b, at) == Some(h)
  {
    var r5, r4 := U32(h.k) + U32(h.c), U32(h.n) + (U32(h.k) + U32(h.c));
    var r3 := U32(h.leap) + r4;
    HasSplit(b, at, U32(h.ut), U32(h.st) + r3);
    HasSplit(b, at + 4, U32(h.st), r3);
    HasSplit(b, at + 8, U32(h.leap), r4);
    HasSplit(b, at + 12, U32(h.n), r5);
    HasSplit(b, at + 16, U32(h.k), U32(h.c));
    U32Read(b, at, h.ut);
    U32Read(b, at + 4, h.st);
    U32Read(b, at + 8, h.leap);
    U32Read(b, at + 12, h.n);
    U32Read(b, at + 16, h.k);
    U32Read(b, at + 20, h.c);
  }

  lemma {:induction false} TimesRead(b: Bytes, at: nat, times: seq<int>)
    requires (forall i | 0 <= i < |times| :: FitsI64(times[i])) && Has(b, at, TimesBytes(times))
    ensures TimesAt(b, at, |times|) == times
  {
    if times != [] {
      var init, last := times[..|times| - 1], times[|times| - 1];
      HasSplit(b, at, TimesBytes(init), I64(last));
      TimesRead(b, at, init);
      I64Read(b, at + 8 * |init|, last);
      TimesStep(b, at, times, |init|);
    }
  }

  lemma {:induction false} TimesStep(b: Bytes, at: nat, times: seq<int>, n: nat)
    requires n + 1 == |times| && at + 8 * n + 8 <= |b|
    requires TimesAt(b, at, n) == times[..n] && I64At(b, at + 8 * n) == times[n]
    ensures TimesAt(b, at, n + 1) == times
  {
    assert times == times[..n] + [times[n]];
  }

  lemma {:induction false} TypesRead(b: Bytes, at: nat, offsets: seq<int>, dst: Bytes, abbreviations: Bytes)
    requires |offsets| == |dst| == |abbreviations| && forall i | 0 <= i < |offsets| :: FitsI32(offsets[i])
    requires Has(b, at, TypesBytes(offsets, dst, abbreviations))
    ensures OffsetsAt(b, at, |offsets|) == offsets && DstAt(b, at, |offsets|) == dst
  {
    if offsets != [] {
      var k := |offsets| - 1;
      var before := TypesBytes(offsets[..k], dst[..k], abbreviations[..k]);
      var tail := [dst[k], abbreviations[k]];
      HasSplit(b, at, before, I32(offsets[k]) + tail);
      TypesRead(b, at, offsets[..k], dst[..k], abbreviations[..k]);
      TypeRead(b, at + 6 * k, offsets[k], dst[k], abbreviations[k]);
      TypesStep(b, at, offsets, dst, k);
    }
  }

  lemma {:induction false} TypeRead(b: Bytes, at: nat, offset: int, dst: Byte, abbreviation: Byte)
    requires FitsI32(offset) && Has(b, at, I32(offset) + [dst, abbreviation])
    ensures at + 6 <= |b| && I32At(b, at) == offset && b[at + 4] == dst
  {
    HasSplit(b, at, I32(offset), [dst, abbreviation]);
    I32Read(b, at, offset);
    HasByte(b, at + 4, [dst, abbreviation], 0);
  }

  lemma {:induction false} TypesStep(b: Bytes, at: nat, offsets: seq<int>, dst: Bytes, k: nat)
    requires k + 1 == |offsets| == |dst| && at + 6 * k + 6 <= |b|
    requires OffsetsAt(b, at, k) == offsets[..k] && DstAt(b, at, k) == dst[..k]
    requires I32At(b, at + 6 * k) == offsets[k] && b[at + 6 * k + 4] == dst[k]
    ensures OffsetsAt(b, at, k + 1) == offsets && DstAt(b, at, k + 1) == dst
  {
    assert offsets == offsets[..k] + [offsets[k]] && dst == dst[..k] + [dst[k]];
  }

  lemma {:induction false} FooterStripped(footer: Bytes)
    requires footer != [] ==> footer[0] != 10 && footer[|footer| - 1] != 10
    ensures StripRight(StripLeft(Footer(footer))) == footer
  {
    var b := Footer(footer);
    assert b[1..] == footer + [10];
    if footer == [] {
      var one: Bytes := [10];
      assert one[1..] == [] && StripLeft(one) == [];
      assert b[1..] == one && StripLeft(b) == [];
    } else {
      assert StripLeft(b) == footer + [10];
      assert (footer + [10])[..|footer|] == footer;
    }
  }

  // ---- Reading the whole ----

  /** Where the encoder keeps a file: with leap seconds, without a type, with too many
      transitions or too long a footer it refuses it. */
  predicate Kept(x: Rest, f: Tzif) {
    && (x.version == 0x32 || x.version == 0x33)
    && x.leap == [] && f.offsets != [] && |f.times| < 65536 && |f.footer| < 256
  }

  function AfterArrays(x: Rest, f: Tzif): Bytes {
    x.designations + (Flatten(x.leap) + (x.standard + (x.universal + Footer(f.footer))))
  }

  /** The parts of the data block at their places. */
  ghost predicate Placed(b: Bytes, at: nat, x: Rest, f: Tzif)
    requires DataFits(x, f)
  {
    ArraysPlaced(b, at, x, f) && RestPlaced(b, at + 9 * |f.times| + 6 * |f.offsets|, x, f)
  }

  ghost predicate ArraysPlaced(b: Bytes, at: nat, x: Rest, f: Tzif)
    requires DataFits(x, f)
  {
    && Has(b, at, TimesBytes(f.times)) && Has(b, at + 8 * |f.times|, f.indices)
    && Has(b, at + 9 * |f.times|, TypesBytes(f.offsets, f.dst, x.abbreviations))
  }

  ghost predicate RestPlaced(b: Bytes, at: nat, x: Rest, f: Tzif) {
    Has(b, at, AfterArrays(x, f)) && at + |AfterArrays(x, f)| == |b|
  }

  lemma {:induction false} DataBlockPlaced(b: Bytes, at: nat, x: Rest, f: Tzif, times: Bytes, types: Bytes, rest: Bytes)
    requires Fits(x, f) && times == TimesBytes(f.times) && types == TypesBytes(f.offsets, f.dst, x.abbreviations)
    requires rest == AfterArrays(x, f)
    requires Has(b, at, times + (f.indices + (types + rest)))
    requires at + |times + (f.indices + (types + rest))| == |b|
    ensures Placed(b, at, x, f)
  {
    Three(b, at, times, f.indices, types, rest);
  }

  lemma {:induction false} DataBlockRead(b: Bytes, at: nat, x: Rest, f: Tzif)
    requires Fits(x, f) && Has(b, at, DataBlock(x, f)) && at + |DataBlock(x, f)| == |b|
    ensures ParseBody(b, at, SecondCounts(x, f)) ==
            if x.leap == [] && f.offsets != [] && |f.times| < 65536 && |f.footer| < 256 then Some(f) else None
  {
    DataBlockPlaced(b, at, x, f, TimesBytes(f.times), TypesBytes(f.offsets, f.dst, x.abbreviations), AfterArrays(x, f));
    PlacedRead(b, at, x, f);
    BodyRead(b, at, x, f);
  }

  ghost predicate TimesPlaced(b: Bytes, at: nat, f: Tzif) {
    && at + 9 * |f.times| <= |b| && |f.times| == |f.indices|
    && TimesAt(b, at, |f.times|) == f.times && b[at + 8 * |f.times|..at + 9 * |f.times|] == f.indices
  }

  ghost predicate TypesPlaced(b: Bytes, at: nat, f: Tzif) {
    && at + 6 * |f.offsets| <= |b| && |f.offsets| == |f.dst|
    && OffsetsAt(b, at, |f.offsets|) == f.offsets && DstAt(b, at, |f.offsets|) == f.dst
  }

  ghost predicate FooterPlaced(b: Bytes, end: nat, f: Tzif) {
    end <= |b| && StripRight(StripLeft(b[end..])) == f.footer
  }

  /** What the encoder needs to find in the data block. */
  ghost predicate Readable(b: Bytes, at: nat, x: Rest, f: Tzif) {
    && TimesPlaced(b, at, f) && TypesPlaced(b, at + 9 * |f.times|, f)
    && (x.leap == [] ==> FooterPlaced(b, EndOf(at, x, f), f))
  }

  function EndOf(at: nat, x: Rest, f: Tzif): nat {
    at + 9 * |f.times| + 6 * |f.offsets| + |x.designations| + |x.standard| + |x.universal|
  }

  lemma {:induction false} ArraysFound(b: Bytes, at: nat, x: Rest, f: Tzif)
    requires Fits(x, f) && ArraysPlaced(b, at, x, f)
    ensures TimesPlaced(b, at, f) && TypesPlaced(b, at + 9 * |f.times|, f)
  {
    TimesFound(b, at, f);
    TypesRead(b, at + 9 * |f.times|, f.offsets, f.dst, x.abbreviations);
  }

  lemma {:induction false} TimesFound(b: Bytes, at: nat, f: Tzif)
    requires |f.times| == |f.indices| && forall i | 0 <= i < |f.times| :: FitsI64(f.times[i])
    requires Has(b, at, TimesBytes(f.times)) && Has(b, at + 8 * |f.times|, f.indices)
    ensures TimesPlaced(b, at, f)
  {
    TimesRead(b, at, f.times);
    HasSlice(b, at + 8 * |f.times|, f.indices);
  }

  lemma {:induction false} PlacedRead(b: Bytes, at: nat, x: Rest, f: Tzif)
    requires Fits(x, f) && Placed(b, at, x, f)
    ensures Readable(b, at, x, f)
  {
    ArraysFound(b, at, x, f);
    if x.leap == [] { FooterRead(b, at + 9 * |f.times| + 6 * |f.offsets|, x, f); }
  }

  lemma {:induction false} BodyRead(b: Bytes, at: nat, x: Rest, f: Tzif)
    requires Readable(b, at, x, f)
    ensures ParseBody(b, at, SecondCounts(x, f)) ==
            if x.leap == [] && f.offsets != [] && |f.times| < 65536 && |f.footer| < 256 then Some(f) else None
  {
    var h := SecondCounts(x, f);
    assert at + 8 * h.n + h.n == at + 9 * h.n;
  }

  lemma {:induction false} Three(b: Bytes, at: nat, p: Bytes, q: Bytes, r: Bytes, rest: Bytes)
    requires Has(b, at, p + (q + (r + rest)))
    ensures Has(b, at, p) && Has(b, at + |p|, q) && Has(b, at + |p| + |q|, r) && Has(b, at + |p| + |q| + |r|, rest)
  {
    HasSplit(b, at, p, q + (r + rest));
    HasSplit(b, at + |p|, q, r + rest);
    HasSplit(b, at + |p| + |q|, r, rest);
  }

  lemma {:induction false} FooterRead(b: Bytes, at: nat, x: Rest, f: Tzif)
    requires x.leap == [] && (f.footer != [] ==> f.footer[0] != 10 && f.footer[|f.footer| - 1] != 10)
    requires RestPlaced(b, at, x, f)
    ensures FooterPlaced(b, at + |x.designations| + |x.standard| + |x.universal|, f)
  {
    assert Flatten(x.leap) == [];
    TailRead(b, at, x.designations, Flatten(x.leap), x.standard, x.universal, Footer(f.footer));
    FooterStripped(f.footer);
  }

  lemma {:induction false} TailRead(b: Bytes, at: nat, p: Bytes, q: Bytes, r: Bytes, u: Bytes, rest: Bytes)
    requires Has(b, at, p + (q + (r + (u + rest)))) && at + |p| + |q| + |r| + |u| + |rest| == |b|
    ensures b[at + |p| + |q| + |r| + |u|..] == rest
  {
    HasSplit(b, at, p, q + (r + (u + rest)));
    Three(b, at + |p|, q, r, u, rest);
    HasEnd(b, at + |p| + |q| + |r| + |u|, rest);
  }

  lemma {:induction false} HasSlice(b: Bytes, at: nat, x: Bytes)
    requires Has(b, at, x)
    ensures b[at..at + |x|] == x
  {}

  lemma {:induction false} HasEnd(b: Bytes, at: nat, x: Bytes)
    requires Has(b, at, x) && at + |x| == |b|
    ensures b[at..] == x
  {}

  /** For every file of the format, whatever its version-1 block and the parts the encoder does
      not look at: it reads exactly the times, types and footer that were written, or refuses
      the file for one of its reasons. */
  lemma {:induction false} ParseReadsFormat(x: Rest, f: Tzif)
    requires Fits(x, f)
    ensures Parse(TzifBytes(x, f)) == if Kept(x, f) then Some(f) else None
  {
    var b := TzifBytes(x, f);
    HeadersRead(x, f, b);
    DataBlockRead(b, 88 + |x.firstBlock|, x, f);
  }

  // ---- Files cut short ----

  lemma {:induction false} CountsCut(b: Bytes, n: nat, at: nat)
    requires at + 24 <= n <= |b|
    ensures CountsAt(b[..n], at) == CountsAt(b, at)
  {}

  lemma {:induction false} TimesCut(b: Bytes, n: nat, at: nat, count: nat)
    requires at + 8 * count <= n <= |b|
    ensures TimesAt(b[..n], at, count) == TimesAt(b, at, count)
  {
    if count > 0 { TimesCut(b, n, at, count - 1); }
  }

  lemma {:induction false} TypesCut(b: Bytes, n: nat, at: nat, count: nat)
    requires at + 6 * count <= n + 1 && n <= |b|
    ensures OffsetsAt(b[..n], at, count) == OffsetsAt(b, at, count) && DstAt(b[..n], at, count) == DstAt(b, at, count)
  {
    if count > 0 { TypesCut(b, n, at, count - 1); }
  }

  lemma {:induction false} StripLeftCut(b: Bytes, n: nat)
    requires n <= |b|
    ensures StripLeft(b[..n]) <= StripLeft(b)
  {
    if n > 0 && b[0] == 10 {
      StripLeftCut(b[1..], n - 1);
      assert b[..n][1..] == b[1..][..n - 1];
    }
  }

  lemma {:induction false} StripRightShorter(b: Bytes)
    ensures StripRight(b) <= b
  {
    if b != [] && b[|b| - 1] == 10 { StripRightShorter(b[..|b| - 1]); }
  }

  lemma {:induction false} StripRightCut(b: Bytes, n: nat)
    requires n <= |b|
    ensures StripRight(b[..n]) <= StripRight(b)
  {
    if n == |b| {
      assert b[..n] == b;
    } else if b[|b| - 1] == 10 {
      StripRightCut(b[..|b| - 1], n);
      assert b[..|b| - 1][..n] == b[..n];
    } else {
      StripRightShorter(b[..n]);
    }
  }

  lemma {:induction false} FooterCut(b: Bytes, n: nat)
    requires n <= |b|
    ensures StripRight(StripLeft(b[..n])) <= StripRight(StripLeft(b))
  {
    StripLeftCut(b, n);
    var left := StripLeft(b[..n]);
    assert left == StripLeft(b)[..|left|];
    StripRightCut(StripLeft(b), |left|);
  }

  /** The footer behind `end`, where the file reaches that far. */
  function FooterBehind(b: Bytes, end: nat): Bytes {
    if end <= |b| then StripRight(StripLeft(b[end..])) else []
  }

  lemma {:induction false} EndCut(b: Bytes, n: nat, end: nat)
    requires n <= |b|
    ensures FooterBehind(b[..n], end) <= FooterBehind(b, end)
  {
    if end <= n {
      FooterCut(b[end..], n - end);
      assert b[..n][end..] == b[end..][..n - end];
    }
  }

  function Arrays(b: Bytes, at: nat, h: Counts, footer: Bytes): Tzif
    requires at + 9 * h.n + 6 * h.k <= |b| + 1 && 0 < h.k
  {
    Tzif(TimesAt(b, at, h.n), b[at + 8 * h.n..at + 9 * h.n],
         OffsetsAt(b, at + 9 * h.n, h.k), DstAt(b, at + 9 * h.n, h.k), footer)
  }

  lemma {:induction false} ArraysCut(b: Bytes, n: nat, at: nat, h: Counts, before: Bytes, footer: Bytes)
    requires n <= |b| && at + 9 * h.n + 6 * h.k <= n + 1 && 0 < h.k
    ensures Arrays(b[..n], at, h, footer) == Arrays(b, at, h, before).(footer := footer)
  {
    TimesCut(b, n, at, h.n);
    TypesCut(b, n, at + 9 * h.n, h.k);
    assert b[..n][at + 8 * h.n..at + 9 * h.n] == b[at + 8 * h.n..at + 9 * h.n];
  }

  predicate Enough(b: Bytes, at: nat, h: Counts) {
    0 < h.k && h.leap == 0 && h.n < 65536 && at + 9 * h.n + 6 * h.k <= |b| + 1
  }

  lemma {:induction false} BodyIs(b: Bytes, at: nat, h: Counts, footer: Bytes)
    requires footer == FooterBehind(b, at + 9 * h.n + 6 * h.k + h.c + h.st + h.ut)
    ensures ParseBody(b, at, h) ==
            if Enough(b, at, h) && |footer| < 256 then Some(Arrays(b, at, h, footer)) else None
  {
    assert at + 8 * h.n + h.n == at + 9 * h.n;
  }

  lemma {:induction false} BodyCut(b: Bytes, n: nat, at: nat, h: Counts)
    requires n <= |b| && ParseBody(b, at, h).Some?
    ensures var f, r := ParseBody(b, at, h).value, ParseBody(b[..n], at, h);
            && (r.Some? <==> at + 9 * h.n + 6 * h.k <= n + 1)
            && (r.Some? ==> r.value == f.(footer := r.value.footer) && r.value.footer <= f.footer)
  {
    var end := at + 9 * h.n + 6 * h.k + h.c + h.st + h.ut;
    var before, footer := FooterBehind(b, end), FooterBehind(b[..n], end);
    EndCut(b, n, end);
    BodyIs(b, at, h, before);
    BodyIs(b[..n], at, h, footer);
    if Enough(b[..n], at, h) { ArraysCut(b, n, at, h, before, footer); }
  }

  predicate VersionAndCounts(b: Bytes, h1: Counts) {
    VersionSupported(b) && CountsAt(b, 20) == Some(h1)
  }

  predicate SecondCountsAt(b: Bytes, second: nat, h: Counts) {
    CountsAt(b, second + 20) == Some(h)
  }

  lemma {:induction false} VersionCut(b: Bytes, n: nat, h1: Counts)
    requires 44 <= n <= |b| && VersionAndCounts(b, h1)
    ensures VersionAndCounts(b[..n], h1)
  {
    CountsCut(b, n, 20);
    assert b[..n][..4] == b[..4];
  }

  lemma {:induction false} SecondCut(b: Bytes, n: nat, second: nat, h: Counts)
    requires second + 44 <= n <= |b| && SecondCountsAt(b, second, h)
    ensures SecondCountsAt(b[..n], second, h)
  {
    CountsCut(b, n, second + 20);
  }

  lemma {:induction false} ParseUnfolds(b: Bytes)
    requires VersionSupported(b) && CountsAt(b, 20).Some?
    requires CountsAt(b, SecondHeader(CountsAt(b, 20).value) + 20).Some?
    ensures Parse(b) == ParseBody(b, SecondHeader(CountsAt(b, 20).value) + 44,
                                  CountsAt(b, SecondHeader(CountsAt(b, 20).value) + 20).value)
  {}

  lemma {:induction false} SameBody(b: Bytes, at: nat, h: Counts, at': nat, h': Counts)
    requires at == at' && h == h'
    ensures ParseBody(b, at, h) == ParseBody(b, at', h')
  {}

  lemma {:induction false} ParseFrom(b: Bytes, h1: Counts, h: Counts)
    requires VersionAndCounts(b, h1) && SecondCountsAt(b, SecondHeader(h1), h)
    ensures Parse(b) == ParseBody(b, SecondHeader(h1) + 44, h)
  {
    var head := CountsAt(b, 20).value;
    assert head == h1;
    var body := CountsAt(b, SecondHeader(head) + 20).value;
    assert body == h;
    assert Parse(b) == ParseBody(b, SecondHeader(head) + 44, body) by { ParseUnfolds(b); }
    SameBody(b, SecondHeader(head) + 44, body, SecondHeader(h1) + 44, h);
  }

  lemma {:induction false} TooShort(b: Bytes, h1: Counts)
    requires VersionAndCounts(b, h1) && |b| < SecondHeader(h1) + 44
    ensures Parse(b) == None
  {}

  lemma {:induction false} HeadersCut(b: Bytes, n: nat, h1: Counts, h: Counts)
    requires n <= |b| && VersionAndCounts(b, h1) && SecondCountsAt(b, SecondHeader(h1), h)
    ensures Parse(b[..n]) == if n < SecondHeader(h1) + 44 then None else ParseBody(b[..n], SecondHeader(h1) + 44, h)
  {
    if n < 44 {
      assert CountsAt(b[..n], 20) == None;
    } else {
      VersionCut(b, n, h1);
      if n < SecondHeader(h1) + 44 {
        TooShort(b[..n], h1);
      } else {
        SecondCut(b, n, SecondHeader(h1), h);
        ParseFrom(b[..n], h1, h);
      }
    }
  }

  /** A file that was cut short is refused if the cut is inside its headers or arrays (the very
      last abbreviation index is never read). Behind them it costs the end of the footer only. */
  lemma {:induction false} CutShort(x: Rest, f: Tzif, n: nat)
    requires Fits(x, f) && Kept(x, f) && n <= |TzifBytes(x, f)|
    ensures var r := Parse(TzifBytes(x, f)[..n]);
            if n + 1 < 88 + |x.firstBlock| + 9 * |f.times| + 6 * |f.offsets| then r == None
            else r.Some? && r.value == f.(footer := r.value.footer) && r.value.footer <= f.footer
  {
    var b := TzifBytes(x, f);
    ParseReadsFormat(x, f);
    HeadersRead(x, f, b);
    HeadersCut(b, n, x.first, SecondCounts(x, f));
    BodyCut(b, n, 88 + |x.firstBlock|, SecondCounts(x, f));
  }

  lemma {:induction false} HeadersRead(x: Rest, f: Tzif, b: Bytes)
    requires Fits(x, f) && b == TzifBytes(x, f)
    ensures VersionSupported(b) <==> x.version == 0x32 || x.version == 0x33
    ensures CountsAt(b, 20) == Some(x.first) && SecondHeader(x.first) == 44 + |x.firstBlock|
    ensures CountsAt(b, 64 + |x.firstBlock|) == Some(SecondCounts(x, f))
    ensures var at := 88 + |x.firstBlock|; Has(b, at, DataBlock(x, f)) && at + |DataBlock(x, f)| == |b|
  {
    HeadersPlaced(x, f, b, CountsBytes(x.first), CountsBytes(SecondCounts(x, f)), DataBlock(x, f));
    CountsRead(b, 20, x.first);
    CountsRead(b, 64 + |x.firstBlock|, SecondCounts(x, f));
  }

  lemma {:induction false} HeadersPlaced(x: Rest, f: Tzif, b: Bytes, first: Bytes, second: Bytes, data: Bytes)
    requires |x.reserved| == 15 && |x.secondPreamble| == 20 && |first| == |second| == 24
    requires b == [0x54, 0x5A, 0x69, 0x66] + ([x.version] + (x.reserved + (first + (x.firstBlock
                  + (x.secondPreamble + (second + data))))))
    ensures VersionSupported(b) <==> x.version == 0x32 || x.version == 0x33
    ensures Has(b, 20, first) && Has(b, 64 + |x.firstBlock|, second)
    ensures Has(b, 88 + |x.firstBlock|, data) && 88 + |x.firstBlock| + |data| == |b|
  {
    EightParts(b, [0x54, 0x5A, 0x69, 0x66], [x.version], x.reserved, first, x.firstBlock, x.secondPreamble, second,
               data);
    VersionRead(b, x.version);
  }

  lemma {:induction false} EightParts(b: Bytes, magic: Bytes, version: Bytes, reserved: Bytes, first: Bytes,
                                      block: Bytes, preamble: Bytes, second: Bytes, data: Bytes)
    requires b == magic + (version + (reserved + (first + (block + (preamble + (second + data))))))
    requires |magic| == 4 && |version| == 1 && |reserved| == 15 && |first| == |second| == 24 && |preamble| == 20
    ensures Has(b, 0, magic) && Has(b, 4, version) && Has(b, 20, first) && Has(b, 64 + |block|, second)
    ensures Has(b, 88 + |block|, data) && 88 + |block| + |data| == |b|
  {
    HasWhole(b);
    Three(b, 0, magic, version, reserved, first + (block + (preamble + (second + data))));
    Three(b, 20, first, block, preamble, second + data);
    HasSplit(b, 64 + |block|, second, data);
  }

  lemma {:induction false} HasWhole(b: Bytes)
    ensures Has(b, 0, b)
  {
  }

  lemma {:induction false} VersionRead(b: Bytes, version: Byte)
    requires Has(b, 0, [0x54, 0x5A, 0x69, 0x66]) && Has(b, 4, [version])
    ensures VersionSupported(b) <==> version == 0x32 || version == 0x33
  {
    HasByte(b, 4, [version], 0);
    var magic: Bytes := [0x54, 0x5A, 0x69, 0x66];
    HasSlice(b, 0, magic);
    assert b[0..4] == b[..4];
  }

  /** From the file format to the running lookup: a name whose file was written in the format
      has at every instant the offset that the written times, types and footer give it. */
  lemma {:induction false} NamedZoneMeansItsData(files: seq<File>, db: Database, posix: Bytes -> bool,
                                                 posixAt: (Bytes, int) -> int, i: nat, t: int, x: Rest, f: Tzif)
    requires Collect(files) == Some(db) && i < |files| && DatabaseWritable(db) && Accepted(db, posix)
    requires Fits(x, f) && Kept(x, f) && files[i].content == TzifBytes(x, f)
    ensures WellShaped(f) && IndicesExist(f)
    ensures var zone := Lookup(db, files[i].name);
            && zone.Some?
            && OffsetAt(zone.value, posixAt, t) ==
               if (f.times == [] || f.times[|f.times| - 1] < t) && f.footer != [] then posixAt(f.footer, t)
               else SourceOffset(f, |f.times|, t)
  {
    ParseReadsFormat(x, f);
    NamedZoneMeansItsFile(files, db, posix, posixAt, i, t);
  }
}
