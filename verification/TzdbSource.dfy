/** From compiled TZif files (section 3 of RFC 9636) to the database, and what an instant
means before and after. */
module TzdbSource {
  import opened Options
  import opened Sequences
  import opened Search
  import opened TzdbBytes
  import opened TzdbFormat

  // ---- TZif ----

  /** The second data block of a TZif file, as far as the encoder reads it. */
  datatype Tzif = Tzif(times: seq<int>, indices: Bytes, offsets: seq<int>, dst: Bytes, footer: Bytes)

  /** The six counts of a header whose counts start at `at`. */
  datatype Counts = Counts(ut: nat, st: nat, leap: nat, n: nat, k: nat, c: nat)

  function CountsAt(b: Bytes, at: nat): Option<Counts> {
    if |b| < at + 24 then None
    else
      Some(Counts(U32At(b, at), U32At(b, at + 4), U32At(b, at + 8),
                  U32At(b, at + 12), U32At(b, at + 16), U32At(b, at + 20)))
  }

  predicate VersionSupported(b: Bytes) {
    |b| >= 5 && b[..4] == [0x54, 0x5A, 0x69, 0x66] && (b[4] == 0x32 || b[4] == 0x33)
  }

  function StripLeft(b: Bytes): Bytes {
    if b != [] && b[0] == 10 then StripLeft(b[1..]) else b
  }

  function StripRight(b: Bytes): Bytes {
    if b != [] && b[|b| - 1] == 10 then StripRight(b[..|b| - 1]) else b
  }

  function TimesAt(b: Bytes, at: nat, n: nat): (ts: seq<int>)
    requires at + 8 * n <= |b|
    ensures |ts| == n
  {
    if n == 0 then [] else TimesAt(b, at, n - 1) + [I64At(b, at + 8 * (n - 1))]
  }

  function OffsetsAt(b: Bytes, at: nat, k: nat): (r: seq<int>)
    requires at + 6 * k <= |b| + 1
    ensures |r| == k && forall i | 0 <= i < k :: FitsI32(r[i])
  {
    if k == 0 then [] else OffsetsAt(b, at, k - 1) + [I32At(b, at + 6 * (k - 1))]
  }

  function DstAt(b: Bytes, at: nat, k: nat): (r: Bytes)
    requires at + 6 * k <= |b| + 1
    ensures |r| == k
  {
    if k == 0 then [] else DstAt(b, at, k - 1) + [b[at + 6 * (k - 1) + 4]]
  }

  /** Where the header of the 64-bit block begins, behind the block of version 1. */
  function SecondHeader(h: Counts): nat {
    44 + h.n * 5 + h.k * 6 + h.c + h.leap * 8 + h.st + h.ut
  }

  /** Take a file apart; `None` where the encoder raises: a failed assertion, a buffer too
      short to unpack, or no local time type. */
  function Parse(b: Bytes): Option<Tzif> {
    var head := CountsAt(b, 20);
    if !VersionSupported(b) || head.None? then None
    else
      var h := head.value;
      var second := SecondHeader(h);
      var body := CountsAt(b, second + 20);
      if body.None? then None else ParseBody(b, second + 44, body.value)
  }

  function ParseBody(b: Bytes, at: nat, h: Counts): Option<Tzif> {
    var indicesAt := at + 8 * h.n;
    var typesAt := indicesAt + h.n;
    if h.k == 0 || |b| + 1 < typesAt + 6 * h.k || h.leap != 0 || h.n >= 65536 then None
    else
      var end := typesAt + 6 * h.k + h.c + h.st + h.ut;
      var footer := if end <= |b| then StripRight(StripLeft(b[end..])) else [];
      if |footer| >= 256 then None
      else
        Some(Tzif(TimesAt(b, at, h.n), b[indicesAt..typesAt],
                  OffsetsAt(b, typesAt, h.k), DstAt(b, typesAt, h.k), footer))
  }

  lemma {:induction false} ParseBodyShape(b: Bytes, at: nat, h: Counts)
    requires ParseBody(b, at, h).Some?
    ensures WellShaped(ParseBody(b, at, h).value)
  {}

  predicate WellShaped(f: Tzif) {
    && |f.times| == |f.indices| < 65536
    && 0 < |f.offsets| == |f.dst|
    && (forall i | 0 <= i < |f.offsets| :: FitsI32(f.offsets[i]))
    && |f.footer| < 256
  }

  lemma {:induction false} ParseShape(b: Bytes)
    requires Parse(b).Some?
    ensures WellShaped(Parse(b).value)
  {
    var second := SecondHeader(CountsAt(b, 20).value);
    ParseBodyShape(b, second + 44, CountsAt(b, second + 20).value);
  }

  /** Every transition names a local time type that exists. */
  predicate IndicesExist(f: Tzif) {
    forall i | 0 <= i < |f.indices| :: f.indices[i] < |f.offsets|
  }

  /** The offset before the first transition: that of the first standard-time type, or of
      type 0 when there is none. */
  function First(f: Tzif, i: nat): int
    requires WellShaped(f) && i <= |f.dst|
    decreases |f.dst| - i
  {
    if i == |f.dst| then f.offsets[0] else if f.dst[i] == 0 then f.offsets[i] else First(f, i + 1)
  }

  /** Before its first transition a zone has the offset of the first type that is not daylight
      time, or of the first type if all are. */
  lemma {:induction false} FirstMeans(f: Tzif, i: nat)
    requires WellShaped(f) && i <= |f.dst| && forall j | 0 <= j < i :: f.dst[j] != 0
    ensures (forall j | 0 <= j < |f.dst| :: f.dst[j] != 0) ==> First(f, i) == f.offsets[0]
    ensures forall m | 0 <= m < |f.dst| && f.dst[m] == 0 && (forall j | 0 <= j < m :: f.dst[j] != 0) ::
              First(f, i) == f.offsets[m]
    decreases |f.dst| - i
  {
    if i < |f.dst| && f.dst[i] != 0 { FirstMeans(f, i + 1); }
  }

  lemma {:induction false} FirstFits(f: Tzif, i: nat)
    requires WellShaped(f) && i <= |f.dst|
    ensures FitsI32(First(f, i))
    decreases |f.dst| - i
  {
    if i < |f.dst| && f.dst[i] != 0 { FirstFits(f, i + 1); }
  }

  function TransitionsOf(f: Tzif): (ts: seq<Transition>)
    requires WellShaped(f) && IndicesExist(f)
    ensures |ts| == |f.times|
    ensures forall i | 0 <= i < |ts| :: ts[i] == Transition(f.times[i], f.offsets[f.indices[i]])
  {
    seq(|f.times|, i requires 0 <= i < |f.times| => Transition(f.times[i], f.offsets[f.indices[i]]))
  }

  function ZoneOf(f: Tzif): (z: Zone)
    requires WellShaped(f) && IndicesExist(f)
    ensures Writable(z)
  {
    FirstFits(f, 0);
    Zone(First(f, 0), TransitionsOf(f), f.footer)
  }

  /** The row of a file, if the encoder does not raise. */
  function RowOf(b: Bytes): Option<Zone> {
    match Parse(b)
    case None => None
    case Some(f) => ParseShape(b); if IndicesExist(f) then Some(ZoneOf(f)) else None
  }

  lemma {:induction false} TransitionBytesPush(ts: seq<Transition>, previous: int, t: Transition)
    ensures TransitionBytes(ts + [t], previous) ==
            TransitionBytes(ts, previous)
            + (Signed(t.at - if ts == [] then previous else ts[|ts| - 1].at) + Signed(t.offset))
    decreases |ts|
  {
    if ts == [] {
      TransitionBytesFirst([t], [], previous);
    } else {
      var last := Signed(t.at - ts[|ts| - 1].at) + Signed(t.offset);
      var a, c := Signed(ts[0].at - previous) + Signed(ts[0].offset), TransitionBytes(ts[1..], ts[0].at);
      TransitionBytesFirst(ts, ts[1..], previous);
      TransitionBytesFirst(ts + [t], ts[1..] + [t], previous);
      TransitionBytesPush(ts[1..], ts[0].at, t);
      Assoc(a, c, last);
    }
  }

  lemma {:induction false} TransitionBytesFirst(ts: seq<Transition>, later: seq<Transition>, previous: int)
    requires ts != [] && ts[1..] == later
    ensures TransitionBytes(ts, previous) ==
            (Signed(ts[0].at - previous) + Signed(ts[0].offset)) + TransitionBytes(later, ts[0].at)
  {}

  /** The encoder's loop over transitions, with its running `prev`. */
  method WriteTransitions(f: Tzif) returns (r: Option<Bytes>)
    requires WellShaped(f)
    ensures r == if IndicesExist(f) then Some(TransitionBytes(TransitionsOf(f), 0)) else None
  {
    var out: Bytes := [];
    var prev := 0;
    var i := 0;
    ghost var ts: seq<Transition> := [];
    while i < |f.times|
      invariant 0 <= i <= |f.times| && |ts| == i
      invariant forall j | 0 <= j < i ::
                  f.indices[j] < |f.offsets| && ts[j] == Transition(f.times[j], f.offsets[f.indices[j]])
      invariant prev == if i == 0 then 0 else f.times[i - 1]
      invariant out == TransitionBytes(ts, 0)
    {
      if f.indices[i] >= |f.offsets| {
        return None;
      }
      var offset := f.offsets[f.indices[i]];
      TransitionBytesPush(ts, 0, Transition(f.times[i], offset));
      out := out + (Signed(f.times[i] - prev) + Signed(offset));
      ts := ts + [Transition(f.times[i], offset)];
      prev := f.times[i];
      i := i + 1;
    }
    assert ts == TransitionsOf(f);
    r := Some(out);
  }

  /** `encode_tzif`: the bytes of the row. */
  method EncodeTzif(b: Bytes) returns (r: Option<Bytes>)
    ensures r == match RowOf(b) case None => None case Some(z) => Some(ZoneBytes(z))
  {
    var parsed := Parse(b);
    if parsed.None? {
      return None;
    }
    ParseShape(b);
    var f := parsed.value;
    var written := WriteTransitions(f);
    if written.None? {
      return None;
    }
    FirstFits(f, 0);
    r := Some(I32(First(f, 0)) + (U16(|f.times|) + (written.value + TextBytes(f.footer))));
  }

  // ---- What an instant means ----

  /** The offset at `t` by the file's arrays: that of the latest transition not after `t`,
      the first `n` of them being considered. */
  function SourceOffset(f: Tzif, n: nat, t: int): int
    requires WellShaped(f) && IndicesExist(f) && n <= |f.times|
  {
    if n == 0 then First(f, 0)
    else if f.times[n - 1] <= t then f.offsets[f.indices[n - 1]]
    else SourceOffset(f, n - 1, t)
  }

  /** The runtime's `offset_at`; `posixAt` evaluates a POSIX rule. */
  function OffsetAt(z: Zone, posixAt: (Bytes, int) -> int, t: int): int {
    var n := |z.transitions|;
    if (n == 0 || t > z.transitions[n - 1].at) && z.footer != [] then posixAt(z.footer, t)
    else
      var i := PartitionPoint(z.transitions, NotAfter(t));
      if i == 0 then z.initial else z.transitions[i - 1].offset
  }

  function NotAfter(t: int): Transition -> bool {
    (x: Transition) => x.at <= t
  }

  /** The same by bisection, on rules that the decoder accepted. */
  method SearchOffset(z: Zone, posixAt: (Bytes, int) -> int, t: int) returns (offset: int)
    requires TransitionsAccepted(z.transitions, 0, true)
    ensures offset == OffsetAt(z, posixAt, t)
  {
    var n := |z.transitions|;
    if (n == 0 || t > z.transitions[n - 1].at) && z.footer != [] {
      return posixAt(z.footer, t);
    }
    AcceptedIncreases(z.transitions, 0, true);
    var i := Bisect(z.transitions, NotAfter(t));
    offset := if i == 0 then z.initial else z.transitions[i - 1].offset;
  }

  predicate Increasing(times: seq<int>) {
    forall i, j | 0 <= i < j < |times| :: times[i] < times[j]
  }

  lemma {:induction false} SourceOffsetAt(f: Tzif, n: nat, t: int, m: nat)
    requires WellShaped(f) && IndicesExist(f) && m <= n <= |f.times|
    requires m > 0 ==> f.times[m - 1] <= t
    requires forall i | m <= i < n :: t < f.times[i]
    ensures SourceOffset(f, n, t) == if m == 0 then First(f, 0) else f.offsets[f.indices[m - 1]]
  {
    if m < n { SourceOffsetAt(f, n - 1, t, m); }
  }

  /** The stored rule set gives every instant up to the last transition the offset of the
      source arrays; after it the footer decides, and the footer is the file's. */
  lemma {:induction false} MeaningPreserved(f: Tzif, posixAt: (Bytes, int) -> int, t: int)
    requires WellShaped(f) && IndicesExist(f) && Increasing(f.times)
    ensures OffsetAt(ZoneOf(f), posixAt, t) ==
            if (f.times == [] || f.times[|f.times| - 1] < t) && f.footer != [] then posixAt(f.footer, t)
            else SourceOffset(f, |f.times|, t)
  {
    var z := ZoneOf(f);
    var m := PartitionPoint(z.transitions, NotAfter(t));
    assert m < |z.transitions| ==> t < f.times[m];
    SourceOffsetAt(f, |f.times|, t, m);
  }

  /** A row the runtime accepts has increasing times, so its meaning is preserved. */
  lemma {:induction false} AcceptedIncreases(ts: seq<Transition>, previous: int, first: bool)
    requires TransitionsAccepted(ts, previous, first)
    ensures forall i, j | 0 <= i < j < |ts| :: ts[i].at < ts[j].at
    ensures forall t :: Partitioned(ts, NotAfter(t))
    ensures !first ==> forall i | 0 <= i < |ts| :: previous < ts[i].at
    decreases |ts|
  {
    if ts != [] {
      var later := ts[1..];
      AcceptedIncreases(later, ts[0].at, false);
      forall j | 0 < j < |ts| ensures ts[0].at < ts[j].at { assert ts[j] == later[j - 1]; }
      forall i, j | 0 < i < j < |ts| ensures ts[i].at < ts[j].at {
        assert ts[i] == later[i - 1] && ts[j] == later[j - 1];
      }
    }
  }
}
