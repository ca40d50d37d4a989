/** The uncompressed time-zone database: how it is written, how a reader of the format
takes it apart, and which databases the runtime accepts. */
module TzdbFormat {
  import opened Options
  import opened Sequences
  import opened TzdbBytes

  datatype Transition = Transition(at: int, offset: int)

  /** One rule set: the offset before the first transition, the transitions, and the POSIX
      rule for the time after the last one. */
  datatype Zone = Zone(initial: int, transitions: seq<Transition>, footer: Bytes)

  datatype Name = Name(text: Bytes, index: nat)

  datatype Database = Database(rules: seq<Zone>, names: seq<Name>)

  // ---- Writing ----

  function TransitionBytes(ts: seq<Transition>, previous: int): Bytes {
    if ts == [] then []
    else (Signed(ts[0].at - previous) + Signed(ts[0].offset)) + TransitionBytes(ts[1..], ts[0].at)
  }

  /** What the encoder's assertions and integer widths demand of a row. */
  predicate Writable(z: Zone) {
    FitsI32(z.initial) && |z.transitions| < 65536 && |z.footer| < 256
  }

  function TextBytes(text: Bytes): Bytes
    requires |text| < 256
  {
    [|text|] + text
  }

  function ZoneBytes(z: Zone): Bytes
    requires Writable(z)
  {
    I32(z.initial) + (U16(|z.transitions|) + (TransitionBytes(z.transitions, 0) + TextBytes(z.footer)))
  }

  predicate AllWritable(zones: seq<Zone>) {
    forall i | 0 <= i < |zones| :: Writable(zones[i])
  }

  function ZonesBytes(zones: seq<Zone>): Bytes
    requires AllWritable(zones)
  {
    if zones == [] then [] else ZoneBytes(zones[0]) + ZonesBytes(zones[1..])
  }

  predicate NamesWritable(names: seq<Name>) {
    forall i | 0 <= i < |names| :: |names[i].text| < 256 && names[i].index < 65536
  }

  function NamesBytes(names: seq<Name>): Bytes
    requires NamesWritable(names)
  {
    if names == [] then []
    else (TextBytes(names[0].text) + U16(names[0].index)) + NamesBytes(names[1..])
  }

  /** "MDBTZ1" and the release "2026e". */
  const MAGIC: Bytes := [0x4D, 0x44, 0x42, 0x54, 0x5A, 0x31, 0x32, 0x30, 0x32, 0x36, 0x65]

  /** A file begins with the six characters of its format and the five of its release. */
  lemma {:induction false} MagicSpells()
    ensures |MAGIC| == |"MDBTZ1" + "2026e"|
    ensures forall i | 0 <= i < |MAGIC| :: MAGIC[i] as int == ("MDBTZ1" + "2026e")[i] as int
  {
    var text := "MDBTZ1" + "2026e";
    assert text[0] == 'M' && text[1] == 'D' && text[2] == 'B' && text[3] == 'T' && text[4] == 'Z' && text[5] == '1';
    assert text[6] == '2' && text[7] == '0' && text[8] == '2' && text[9] == '6' && text[10] == 'e';
  }

  predicate DatabaseWritable(db: Database) {
    && AllWritable(db.rules) && |db.rules| < 65536
    && NamesWritable(db.names) && |db.names| < 65536
  }

  function DatabaseBytes(db: Database): Bytes
    requires DatabaseWritable(db)
  {
    MAGIC + (U16(|db.rules|) + (ZonesBytes(db.rules) + (U16(|db.names|) + NamesBytes(db.names))))
  }

  // ---- Reading ----

  predicate OffsetInRange(offset: int) { -86_400 <= offset <= 86_400 }

  function ReadTransitions(bs: Bytes, n: nat, previous: int, first: bool, strict: bool): Option<Read<seq<Transition>>>
    decreases n
  {
    if n == 0 then Some(Read([], bs))
    else
      match ReadSigned(bs, strict)
      case None => None
      case Some(Read(delta, bs1)) =>
        var at := previous + delta;
        if strict && !FitsI64(at) then None
        else
          match ReadSigned(bs1, strict)
          case None => None
          case Some(Read(offset, bs2)) =>
            if strict && (!FitsI32(offset) || (!first && at <= previous) || !OffsetInRange(offset)) then None
            else
              match ReadTransitions(bs2, n - 1, at, false, strict)
              case None => None
              case Some(Read(ts, rest)) => Some(Read([Transition(at, offset)] + ts, rest))
  }

  predicate Ascii(text: Bytes) {
    forall i | 0 <= i < |text| :: text[i] < 128
  }

  function ReadText(bs: Bytes, strict: bool): Option<Read<Bytes>> {
    match ReadU8(bs)
    case None => None
    case Some(Read(n, bs1)) =>
      match Take(bs1, n)
      case None => None
      case Some(Read(text, rest)) => if strict && !Ascii(text) then None else Some(Read(text, rest))
  }

  /** `posix` says which footers the POSIX rule parser accepts. */
  function ReadZone(bs: Bytes, posix: Bytes -> bool, strict: bool): Option<Read<Zone>> {
    match ReadI32(bs)
    case None => None
    case Some(Read(initial, bs1)) =>
      if strict && !OffsetInRange(initial) then None
      else
        match ReadU16(bs1)
        case None => None
        case Some(Read(n, bs2)) =>
          if strict && n > 4096 then None
          else
            match ReadTransitions(bs2, n, 0, true, strict)
            case None => None
            case Some(Read(ts, bs3)) =>
              match ReadText(bs3, strict)
              case None => None
              case Some(Read(footer, rest)) =>
                if strict && footer != [] && !posix(footer) then None
                else Some(Read(Zone(initial, ts, footer), rest))
  }

  function ReadZones(bs: Bytes, count: nat, posix: Bytes -> bool, strict: bool): Option<Read<seq<Zone>>>
    decreases count
  {
    if count == 0 then Some(Read([], bs))
    else
      match ReadZone(bs, posix, strict)
      case None => None
      case Some(Read(zone, bs1)) =>
        match ReadZones(bs1, count - 1, posix, strict)
        case None => None
        case Some(Read(zones, rest)) => Some(Read([zone] + zones, rest))
  }

  predicate TextLess(a: Bytes, b: Bytes) {
    b != [] && (a == [] || a[0] < b[0] || (a[0] == b[0] && TextLess(a[1..], b[1..])))
  }

  function ReadNames(bs: Bytes, n: nat, rules: nat, previous: Option<Bytes>, strict: bool): Option<Read<seq<Name>>>
    decreases n
  {
    if n == 0 then Some(Read([], bs))
    else
      match ReadText(bs, strict)
      case None => None
      case Some(Read(text, bs1)) =>
        match ReadU16(bs1)
        case None => None
        case Some(Read(index, bs2)) =>
          if strict && (text == [] || index >= rules || (previous.Some? && !TextLess(previous.value, text))) then None
          else
            match ReadNames(bs2, n - 1, rules, Some(text), strict)
            case None => None
            case Some(Read(names, rest)) => Some(Read([Name(text, index)] + names, rest))
  }

  const MAX_DECODED := 256 * 1024

  /** The runtime's `decode` when `strict`; otherwise a reader that knows only the format. */
  function Decode(bs: Bytes, posix: Bytes -> bool, strict: bool): Option<Database> {
    if strict && |bs| > MAX_DECODED then None
    else
      match Take(bs, |MAGIC|)
      case None => None
      case Some(Read(magic, bs1)) =>
        if magic != MAGIC then None
        else
          match ReadU16(bs1)
          case None => None
          case Some(Read(count, bs2)) =>
            if strict && (count == 0 || count > 512) then None
            else
              match ReadZones(bs2, count, posix, strict)
              case None => None
              case Some(Read(rules, bs3)) => DecodeNames(bs3, rules, strict)
  }

  function DecodeNames(bs: Bytes, rules: seq<Zone>, strict: bool): Option<Database> {
    match ReadU16(bs)
    case None => None
    case Some(Read(n, bs1)) =>
      if strict && (n == 0 || n > 1024) then None
      else
        match ReadNames(bs1, n, |rules|, None, strict)
        case None => None
        case Some(Read(names, rest)) => if rest == [] then Some(Database(rules, names)) else None
  }

  // ---- What the runtime accepts ----

  predicate TransitionsAccepted(ts: seq<Transition>, previous: int, first: bool) {
    ts == [] ||
    (&& FitsI64(ts[0].at - previous) && FitsI64(ts[0].at)
     && FitsI64(ts[0].offset) && OffsetInRange(ts[0].offset)
     && (first || previous < ts[0].at)
     && TransitionsAccepted(ts[1..], ts[0].at, false))
  }

  predicate ZoneAccepted(z: Zone, posix: Bytes -> bool) {
    && OffsetInRange(z.initial) && |z.transitions| <= 4096
    && TransitionsAccepted(z.transitions, 0, true)
    && Ascii(z.footer) && (z.footer == [] || posix(z.footer))
  }

  predicate ZonesAccepted(zones: seq<Zone>, posix: Bytes -> bool) {
    forall i | 0 <= i < |zones| :: ZoneAccepted(zones[i], posix)
  }

  predicate NamesAccepted(names: seq<Name>, rules: nat, previous: Option<Bytes>) {
    names == [] ||
    (&& Ascii(names[0].text) && names[0].text != [] && names[0].index < rules
     && (previous.Some? ==> TextLess(previous.value, names[0].text))
     && NamesAccepted(names[1..], rules, Some(names[0].text)))
  }

  predicate Accepted(db: Database, posix: Bytes -> bool)
    requires DatabaseWritable(db)
  {
    && |DatabaseBytes(db)| <= MAX_DECODED
    && 0 < |db.rules| <= 512 && ZonesAccepted(db.rules, posix)
    && 0 < |db.names| <= 1024 && NamesAccepted(db.names, |db.rules|, None)
  }

  // ---- What the checks amount to ----

  predicate TransitionInOrder(ts: seq<Transition>, i: nat)
    requires i < |ts|
  {
    && -86_400 <= ts[i].offset <= 86_400
    && -0x8000_0000_0000_0000 <= ts[i].at <= 0x7FFF_FFFF_FFFF_FFFF
    && (i > 0 ==> ts[i - 1].at < ts[i].at <= ts[i - 1].at + 0x7FFF_FFFF_FFFF_FFFF)
  }

  lemma {:induction false} TransitionsMean(ts: seq<Transition>, previous: int, first: bool)
    ensures TransitionsAccepted(ts, previous, first) <==>
            && (ts != [] ==> FitsI64(ts[0].at - previous) && (first || previous < ts[0].at))
            && forall i | 0 <= i < |ts| :: TransitionInOrder(ts, i)
    decreases |ts|
  {
    if ts != [] {
      var rest := ts[1..];
      TransitionsMean(rest, ts[0].at, false);
      if forall i | 0 <= i < |ts| :: TransitionInOrder(ts, i) {
        assert TransitionInOrder(ts, 0) && (rest != [] ==> TransitionInOrder(ts, 1));
        forall i | 0 <= i < |rest| ensures TransitionInOrder(rest, i) { assert TransitionInOrder(ts, i + 1); }
      }
      if TransitionsAccepted(ts, previous, first) {
        forall i | 0 <= i < |ts| ensures TransitionInOrder(ts, i) {
          if i > 0 { assert TransitionInOrder(rest, i - 1); }
        }
      }
    }
  }

  /** The rules of a zone pass exactly when all offsets are within a day, there are at most 4096
      transitions, they ascend, with 64-bit times and distances, and the footer is an ASCII rule
      or absent. */
  lemma {:induction false} ZoneAcceptedMeans(z: Zone, posix: Bytes -> bool)
    ensures ZoneAccepted(z, posix) <==>
            && -86_400 <= z.initial <= 86_400 && |z.transitions| <= 4096
            && (forall i | 0 <= i < |z.transitions| :: TransitionInOrder(z.transitions, i))
            && (forall i | 0 <= i < |z.footer| :: z.footer[i] <= 0x7F) && (z.footer == [] || posix(z.footer))
  {
    TransitionsMean(z.transitions, 0, true);
    if z.transitions != [] { assert FitsI64(z.transitions[0].at) || !TransitionInOrder(z.transitions, 0); }
  }

  predicate NameInOrder(names: seq<Name>, rules: nat, i: nat)
    requires i < |names|
  {
    && names[i].text != [] && (forall k | 0 <= k < |names[i].text| :: names[i].text[k] <= 0x7F)
    && names[i].index < rules
    && (i > 0 ==> TextLess(names[i - 1].text, names[i].text))
  }

  lemma {:induction false} NamesMean(names: seq<Name>, rules: nat, previous: Option<Bytes>)
    ensures NamesAccepted(names, rules, previous) <==>
            && (names != [] && previous.Some? ==> TextLess(previous.value, names[0].text))
            && forall i | 0 <= i < |names| :: NameInOrder(names, rules, i)
    decreases |names|
  {
    if names != [] {
      var rest := names[1..];
      NamesMean(rest, rules, Some(names[0].text));
      if forall i | 0 <= i < |names| :: NameInOrder(names, rules, i) {
        assert NameInOrder(names, rules, 0) && (rest != [] ==> NameInOrder(names, rules, 1));
        forall i | 0 <= i < |rest| ensures NameInOrder(rest, rules, i) { assert NameInOrder(names, rules, i + 1); }
      }
      if NamesAccepted(names, rules, previous) {
        forall i | 0 <= i < |names| ensures NameInOrder(names, rules, i) {
          if i > 0 { assert NameInOrder(rest, rules, i - 1); }
        }
      }
    }
  }

  /** A database passes exactly when it has 1 to 512 rule sets that pass, 1 to 1024 names that
      are ASCII, not empty, strictly ascending and lead to a rule set, and at most 256 KiB. */
  lemma {:induction false} AcceptedMeans(db: Database, posix: Bytes -> bool)
    requires DatabaseWritable(db)
    ensures Accepted(db, posix) <==>
            && |DatabaseBytes(db)| <= 262_144 && 1 <= |db.rules| <= 512 && 1 <= |db.names| <= 1024
            && (forall i | 0 <= i < |db.rules| :: ZoneAccepted(db.rules[i], posix))
            && (forall i | 0 <= i < |db.names| :: NameInOrder(db.names, |db.rules|, i))
  {
    NamesMean(db.names, |db.rules|, None);
  }

  /** The order of names: where two part, the lower byte comes first, and a prefix comes before
      what it is a prefix of. */
  lemma {:induction false} TextLessMeans(a: Bytes, b: Bytes, k: nat)
    requires k <= |a| && k <= |b| && a[..k] == b[..k] && (k == |a| || k == |b| || a[k] != b[k])
    ensures TextLess(a, b) <==> k < |b| && (k == |a| || a[k] < b[k])
    decreases k
  {
    if k > 0 {
      assert a[0] == a[..k][0] == b[..k][0] == b[0];
      assert a[1..][..k - 1] == a[..k][1..] == b[..k][1..] == b[1..][..k - 1];
      TextLessMeans(a[1..], b[1..], k - 1);
    }
  }

  // ---- Round trips, one level at a time ----

  lemma {:induction false} TransitionStep(bs: Bytes, bs1: Bytes, bs2: Bytes, t: Transition, ts: seq<Transition>,
                       previous: int, first: bool, rest: Bytes, strict: bool)
    requires ReadSigned(bs, strict) ==
             if !strict || FitsI64(t.at - previous) then Some(Read(t.at - previous, bs1)) else None
    requires ReadSigned(bs1, strict) == if !strict || FitsI64(t.offset) then Some(Read(t.offset, bs2)) else None
    requires ReadTransitions(bs2, |ts|, t.at, false, strict) ==
             if !strict || TransitionsAccepted(ts, t.at, false) then Some(Read(ts, rest)) else None
    ensures ReadTransitions(bs, |ts| + 1, previous, first, strict) ==
            if !strict || TransitionsAccepted([t] + ts, previous, first) then Some(Read([t] + ts, rest)) else None
  {
    assert ([t] + ts)[1..] == ts;
  }

  lemma {:induction false} TransitionsRoundTrip(ts: seq<Transition>, previous: int, first: bool, rest: Bytes,
                                                strict: bool)
    ensures ReadTransitions(TransitionBytes(ts, previous) + rest, |ts|, previous, first, strict) ==
            if !strict || TransitionsAccepted(ts, previous, first) then Some(Read(ts, rest)) else None
    decreases |ts|
  {
    if ts == [] {
      assert [] + rest == rest;
    } else {
      var t, later := ts[0], ts[1..];
      var a, b, c := Signed(t.at - previous), Signed(t.offset), TransitionBytes(later, t.at);
      Assoc(a + b, c, rest);
      Assoc(a, b, c + rest);
      assert TransitionBytes(ts, previous) + rest == a + (b + (c + rest));
      SignedRoundTrip(t.at - previous, b + (c + rest), strict);
      SignedRoundTrip(t.offset, c + rest, strict);
      TransitionsRoundTrip(later, t.at, false, rest, strict);
      TransitionStep(a + (b + (c + rest)), b + (c + rest), c + rest, t, later, previous, first, rest, strict);
      assert ts == [t] + later;
    }
  }

  lemma {:induction false} TextRoundTrip(text: Bytes, rest: Bytes, strict: bool)
    requires |text| < 256
    ensures ReadText(TextBytes(text) + rest, strict) == if !strict || Ascii(text) then Some(Read(text, rest)) else None
  {
    assert (TextBytes(text) + rest)[1..] == text + rest;
    TakeRoundTrip(text, rest);
  }

  /** A row is self-delimiting: whatever follows it is left untouched. */
  lemma {:induction false} ZoneRoundTrip(z: Zone, rest: Bytes, posix: Bytes -> bool, strict: bool)
    requires Writable(z)
    ensures ReadZone(ZoneBytes(z) + rest, posix, strict) ==
            if !strict || ZoneAccepted(z, posix) then Some(Read(z, rest)) else None
  {
    var text := TextBytes(z.footer);
    var ts := TransitionBytes(z.transitions, 0);
    var n := U16(|z.transitions|);
    assert ZoneBytes(z) + rest == I32(z.initial) + (n + (ts + (text + rest))) by {
      Assoc(I32(z.initial), n + (ts + text), rest);
      Assoc(n, ts + text, rest);
      Assoc(ts, text, rest);
    }
    I32RoundTrip(z.initial, n + (ts + (text + rest)));
    U16RoundTrip(|z.transitions|, ts + (text + rest));
    TransitionsRoundTrip(z.transitions, 0, true, text + rest, strict);
    TextRoundTrip(z.footer, rest, strict);
  }

  lemma {:induction false} ZonesRoundTrip(zones: seq<Zone>, rest: Bytes, posix: Bytes -> bool, strict: bool)
    requires AllWritable(zones)
    ensures ReadZones(ZonesBytes(zones) + rest, |zones|, posix, strict) ==
            if !strict || ZonesAccepted(zones, posix) then Some(Read(zones, rest)) else None
  {
    if zones == [] {
      assert [] + rest == rest;
    } else {
      var z, later := zones[0], zones[1..];
      ZonesRoundTrip(later, rest, posix, strict);
      FirstZone(z, later, ZonesBytes(later), rest, posix, strict);
      ZonesFirst(zones, z, later);
    }
  }

  lemma {:induction false} ZonesFirst(zones: seq<Zone>, z: Zone, later: seq<Zone>)
    requires AllWritable(zones) && zones != [] && z == zones[0] && later == zones[1..]
    ensures zones == [z] + later && |zones| == |later| + 1
    ensures ZonesBytes(zones) == ZoneBytes(z) + ZonesBytes(later)
  {}

  lemma {:induction false} FirstZone(z: Zone, later: seq<Zone>, bytes: Bytes, rest: Bytes, posix: Bytes -> bool,
                                     strict: bool)
    requires Writable(z)
    requires ReadZones(bytes + rest, |later|, posix, strict) ==
             if !strict || ZonesAccepted(later, posix) then Some(Read(later, rest)) else None
    ensures ReadZones(ZoneBytes(z) + bytes + rest, |later| + 1, posix, strict) ==
            if !strict || ZonesAccepted([z] + later, posix) then Some(Read([z] + later, rest)) else None
  {
    Assoc(ZoneBytes(z), bytes, rest);
    ZoneRoundTrip(z, bytes + rest, posix, strict);
    ZoneStep(ZoneBytes(z) + (bytes + rest), bytes + rest, z, later, rest, posix, strict);
  }

  lemma {:induction false} ZoneStep(bs: Bytes, bs1: Bytes, z: Zone, zones: seq<Zone>, rest: Bytes,
                                    posix: Bytes -> bool, strict: bool)
    requires ReadZone(bs, posix, strict) == if !strict || ZoneAccepted(z, posix) then Some(Read(z, bs1)) else None
    requires ReadZones(bs1, |zones|, posix, strict) ==
             if !strict || ZonesAccepted(zones, posix) then Some(Read(zones, rest)) else None
    ensures ReadZones(bs, |zones| + 1, posix, strict) ==
            if !strict || ZonesAccepted([z] + zones, posix) then Some(Read([z] + zones, rest)) else None
  {
    assert ([z] + zones)[1..] == zones;
    ZonesAcceptedSplit([z] + zones, posix);
  }

  lemma {:induction false} ZonesAcceptedSplit(zones: seq<Zone>, posix: Bytes -> bool)
    requires zones != []
    ensures ZonesAccepted(zones, posix) <==> ZoneAccepted(zones[0], posix) && ZonesAccepted(zones[1..], posix)
  {
    if ZoneAccepted(zones[0], posix) && ZonesAccepted(zones[1..], posix) {
      forall i | 0 <= i < |zones| ensures ZoneAccepted(zones[i], posix) {
        assert i > 0 ==> zones[i] == zones[1..][i - 1];
      }
    }
  }

  lemma {:induction false} NamesRoundTrip(names: seq<Name>, rules: nat, previous: Option<Bytes>, rest: Bytes,
                                          strict: bool)
    requires NamesWritable(names)
    ensures ReadNames(NamesBytes(names) + rest, |names|, rules, previous, strict) ==
            if !strict || NamesAccepted(names, rules, previous) then Some(Read(names, rest)) else None
    decreases |names|
  {
    if names == [] {
      assert [] + rest == rest;
    } else {
      var name, later := names[0], names[1..];
      NamesRoundTrip(later, rules, Some(name.text), rest, strict);
      FirstName(name, later, NamesBytes(later), rules, previous, rest, strict);
      assert names == [name] + later;
    }
  }

  lemma {:induction false} FirstName(name: Name, later: seq<Name>, bytes: Bytes, rules: nat, previous: Option<Bytes>,
                                     rest: Bytes, strict: bool)
    requires |name.text| < 256 && name.index < 65536
    requires ReadNames(bytes + rest, |later|, rules, Some(name.text), strict) ==
             if !strict || NamesAccepted(later, rules, Some(name.text)) then Some(Read(later, rest)) else None
    ensures ReadNames(TextBytes(name.text) + U16(name.index) + bytes + rest, |later| + 1, rules, previous, strict) ==
            if !strict || NamesAccepted([name] + later, rules, previous) then Some(Read([name] + later, rest)) else None
  {
    var tail := bytes + rest;
    Assoc(TextBytes(name.text) + U16(name.index), bytes, rest);
    Assoc(TextBytes(name.text), U16(name.index), tail);
    TextRoundTrip(name.text, U16(name.index) + tail, strict);
    U16RoundTrip(name.index, tail);
    NameStep(TextBytes(name.text) + (U16(name.index) + tail), U16(name.index) + tail, tail, name, later,
             rules, previous, rest, strict);
  }

  lemma {:induction false} NameStep(bs: Bytes, bs1: Bytes, bs2: Bytes, name: Name, names: seq<Name>, rules: nat,
                 previous: Option<Bytes>, rest: Bytes, strict: bool)
    requires ReadText(bs, strict) == if !strict || Ascii(name.text) then Some(Read(name.text, bs1)) else None
    requires ReadU16(bs1) == Some(Read(name.index, bs2))
    requires ReadNames(bs2, |names|, rules, Some(name.text), strict) ==
             if !strict || NamesAccepted(names, rules, Some(name.text)) then Some(Read(names, rest)) else None
    ensures ReadNames(bs, |names| + 1, rules, previous, strict) ==
            if !strict || NamesAccepted([name] + names, rules, previous) then Some(Read([name] + names, rest)) else None
  {
    assert ([name] + names)[1..] == names;
  }

  /** The database is uniquely decodable by its format alone, and the runtime's decoder
      returns it exactly when every one of its limits is met: it never returns anything
      else. */
  lemma {:induction false} DatabaseRoundTrip(db: Database, posix: Bytes -> bool, strict: bool)
    requires DatabaseWritable(db)
    ensures Decode(DatabaseBytes(db), posix, strict) ==
            if !strict || Accepted(db, posix) then Some(db) else None
  {
    var behind := U16(|db.names|) + NamesBytes(db.names);
    var zones := ZonesBytes(db.rules) + behind;
    TakeRoundTrip(MAGIC, U16(|db.rules|) + zones);
    U16RoundTrip(|db.rules|, zones);
    ZonesRoundTrip(db.rules, behind, posix, strict);
    NamesDecode(db, strict);
  }

  lemma {:induction false} NamesDecode(db: Database, strict: bool)
    requires DatabaseWritable(db)
    ensures DecodeNames(U16(|db.names|) + NamesBytes(db.names), db.rules, strict) ==
            if !strict || (0 < |db.names| <= 1024 && NamesAccepted(db.names, |db.rules|, None)) then Some(db) else None
  {
    var names := NamesBytes(db.names);
    U16RoundTrip(|db.names|, names);
    assert names + [] == names;
    NamesRoundTrip(db.names, |db.rules|, None, [], strict);
  }

  /** Different databases have different bytes. */
  lemma {:induction false} DatabaseBytesInjective(a: Database, b: Database)
    requires DatabaseWritable(a) && DatabaseWritable(b) && DatabaseBytes(a) == DatabaseBytes(b)
    ensures a == b
  {
    DatabaseRoundTrip(a, _ => true, false);
    DatabaseRoundTrip(b, _ => true, false);
  }

  lemma {:induction false} ZoneBytesInjective(a: Zone, b: Zone)
    requires Writable(a) && Writable(b) && ZoneBytes(a) == ZoneBytes(b)
    ensures a == b
  {
    ZoneRoundTrip(a, [], _ => true, false);
    ZoneRoundTrip(b, [], _ => true, false);
  }
}
