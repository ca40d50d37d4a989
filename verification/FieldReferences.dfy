/** References to schema fields: dotted names where every segment is plain, JSON Pointers
(sections 3 and 4 of RFC 6901) otherwise. */
module FieldReferences {
  import opened Sequences

  // ---- Splitting and joining ----

  function Split(s: string, sep: char): (parts: seq<string>)
    ensures parts != []
  {
    if s == "" then [""]
    else
      var rest := Split(s[1..], sep);
      if s[0] == sep then [""] + rest else [[s[0]] + rest[0]] + rest[1..]
  }

  function Join(parts: seq<string>, sep: char): string {
    if parts == [] then ""
    else if |parts| == 1 then parts[0]
    else parts[0] + [sep] + Join(parts[1..], sep)
  }

  lemma {:induction false} SplitPart(part: string, sep: char)
    requires sep !in part
    ensures Split(part, sep) == [part]
  {
    if part != "" {
      SplitPart(part[1..], sep);
      assert part == [part[0]] + part[1..];
    }
  }

  lemma {:induction false} SplitFirst(part: string, sep: char, rest: string)
    requires sep !in part
    ensures Split(part + [sep] + rest, sep) == [part] + Split(rest, sep)
  {
    var s := part + [sep] + rest;
    if part == "" {
      assert s == [sep] + rest && s[1..] == rest;
    } else {
      SplitFirst(part[1..], sep, rest);
      assert s[1..] == part[1..] + [sep] + rest;
      assert part == [part[0]] + part[1..];
    }
  }

  lemma {:induction false} SplitJoin(parts: seq<string>, sep: char)
    requires parts != [] && forall i | 0 <= i < |parts| :: sep !in parts[i]
    ensures Split(Join(parts, sep), sep) == parts
  {
    if |parts| == 1 {
      SplitPart(parts[0], sep);
    } else {
      SplitFirst(parts[0], sep, Join(parts[1..], sep));
      SplitJoin(parts[1..], sep);
    }
  }

  // ---- Escaping ----

  /** `replaceAll` of one character. */
  function ReplaceChar(s: string, c: char, by': string): string {
    if s == "" then "" else (if s[0] == c then by' else [s[0]]) + ReplaceChar(s[1..], c, by')
  }

  /** `replaceAll` of two characters in a row, from the left. */
  function ReplacePair(s: string, c: char, d: char, by': char): string {
    if s == "" then ""
    else if |s| >= 2 && s[0] == c && s[1] == d then [by'] + ReplacePair(s[2..], c, d, by')
    else [s[0]] + ReplacePair(s[1..], c, d, by')
  }

  function Escape(segment: string): string {
    ReplaceChar(ReplaceChar(segment, '~', "~0"), '/', "~1")
  }

  function Unescape(text: string): string {
    ReplacePair(ReplacePair(text, '~', '1', '/'), '~', '0', '~')
  }

  lemma {:induction false} ReplaceCharConcat(s: string, t: string, c: char, by': string)
    ensures ReplaceChar(s + t, c, by') == ReplaceChar(s, c, by') + ReplaceChar(t, c, by')
  {
    if s == "" {
      assert s + t == t;
    } else {
      assert (s + t)[1..] == s[1..] + t;
      ReplaceCharConcat(s[1..], t, c, by');
    }
  }

  /** What one character becomes. */
  function EscapeChar(c: char): string {
    if c == '~' then "~0" else if c == '/' then "~1" else [c]
  }

  lemma {:induction false} EscapeStep(s: string)
    requires s != ""
    ensures Escape(s) == EscapeChar(s[0]) + Escape(s[1..])
  {
    var first := if s[0] == '~' then "~0" else [s[0]];
    ReplaceCharConcat(first, ReplaceChar(s[1..], '~', "~0"), '/', "~1");
    assert ReplaceChar(first, '/', "~1") == EscapeChar(s[0]) by {
      assert first[1..] == if s[0] == '~' then "0" else "";
      assert s[0] == '~' ==> ReplaceChar("0", '/', "~1") == "0" + ReplaceChar("", '/', "~1");
    }
  }

  lemma {:induction false} EscapeHasNoSlash(s: string)
    ensures '/' !in Escape(s)
  {
    if s != "" {
      EscapeStep(s);
      EscapeHasNoSlash(s[1..]);
    }
  }

  /** The first replacement restores slashes and leaves the escaped tildes. */
  lemma {:induction false} SlashesBack(s: string)
    ensures ReplacePair(Escape(s), '~', '1', '/') == ReplaceChar(s, '~', "~0")
  {
    if s != "" {
      EscapeStep(s);
      SlashesBack(s[1..]);
      SlashBack(s[0], Escape(s[1..]));
    }
  }

  lemma {:induction false} SlashBack(c: char, rest: string)
    ensures ReplacePair(EscapeChar(c) + rest, '~', '1', '/') ==
            (if c == '~' then "~0" else [c]) + ReplacePair(rest, '~', '1', '/')
  {
    var e := EscapeChar(c) + rest;
    if c == '~' {
      assert e[1..] == "0" + rest && e[1..][1..] == rest;
      assert ReplacePair(e[1..], '~', '1', '/') == "0" + ReplacePair(rest, '~', '1', '/');
    } else if c == '/' {
      assert e[2..] == rest;
    } else {
      assert e[1..] == rest;
    }
  }

  /** The second restores the tildes. */
  lemma {:induction false} TildesBack(s: string)
    ensures ReplacePair(ReplaceChar(s, '~', "~0"), '~', '0', '~') == s
  {
    if s != "" {
      TildesBack(s[1..]);
      var rest := ReplaceChar(s[1..], '~', "~0");
      var e := ReplaceChar(s, '~', "~0");
      if s[0] == '~' { assert e[2..] == rest; } else { assert e[1..] == rest; }
      assert s == [s[0]] + s[1..];
    }
  }

  /** Through both replacements in their order, every segment comes back. */
  lemma {:induction false} EscapeRoundTrip(s: string)
    ensures Unescape(Escape(s)) == s
  {
    SlashesBack(s);
    TildesBack(s);
  }

  // ---- References ----

  predicate Letter(c: char) { 'A' <= c <= 'Z' || 'a' <= c <= 'z' || c == '_' }

  predicate Plain(segment: string) {
    segment != "" && Letter(segment[0]) &&
    forall i | 0 < i < |segment| :: Letter(segment[i]) || '0' <= segment[i] <= '9' || segment[i] == '-'
  }

  predicate AllPlain(segments: seq<string>) {
    forall i | 0 <= i < |segments| :: Plain(segments[i])
  }

  function EscapeAll(segments: seq<string>): (r: seq<string>)
    ensures |r| == |segments| && forall i | 0 <= i < |r| :: r[i] == Escape(segments[i])
  {
    seq(|segments|, i requires 0 <= i < |segments| => Escape(segments[i]))
  }

  function UnescapeAll(parts: seq<string>): (r: seq<string>)
    ensures |r| == |parts| && forall i | 0 <= i < |r| :: r[i] == Unescape(parts[i])
  {
    seq(|parts|, i requires 0 <= i < |parts| => Unescape(parts[i]))
  }

  function ReferenceForSegments(segments: seq<string>): string {
    if AllPlain(segments) then Join(segments, '.') else "/" + Join(EscapeAll(segments), '/')
  }

  /** Which names may be written with dots: an ASCII letter or underscore, then letters, digits,
      underscores and hyphens. Any other name, the empty one included, makes the whole
      reference a pointer. */
  lemma {:induction false} DottedExactly(segments: seq<string>)
    ensures (forall i | 0 <= i < |segments| ::
               && segments[i] != ""
               && (forall j | 0 <= j < |segments[i]| ::
                     var c := segments[i][j];
                     'a' <= c <= 'z' || 'A' <= c <= 'Z' || c == '_' || (j > 0 && ('0' <= c <= '9' || c == '-')))) ==>
              ReferenceForSegments(segments) == Join(segments, '.')
    ensures (exists i, j :: 0 <= i < |segments| && 0 <= j < |segments[i]| &&
               var c := segments[i][j];
               !('a' <= c <= 'z' || 'A' <= c <= 'Z' || c == '_' || (j > 0 && ('0' <= c <= '9' || c == '-')))) ==>
              ReferenceForSegments(segments) == "/" + Join(EscapeAll(segments), '/')
    ensures "" in segments ==> ReferenceForSegments(segments) == "/" + Join(EscapeAll(segments), '/')
  {
    if "" in segments {
      var i :| 0 <= i < |segments| && segments[i] == "";
      assert !Plain(segments[i]);
    }
    if i, j :| 0 <= i < |segments| && 0 <= j < |segments[i]| &&
               var c := segments[i][j];
               !('a' <= c <= 'z' || 'A' <= c <= 'Z' || c == '_' || (j > 0 && ('0' <= c <= '9' || c == '-'))) {
      assert !Plain(segments[i]);
    }
  }

  function LastSegment(reference: string): string {
    if reference != "" && reference[0] == '/' then
      var parts := Split(reference, '/');
      Unescape(parts[|parts| - 1])
    else
      var parts := Split(reference, '.');
      parts[|parts| - 1]
  }

  /** Reading a reference back: the inverse of `ReferenceForSegments`. */
  function SegmentsOf(reference: string): seq<string> {
    if reference == "" then []
    else if reference[0] == '/' then UnescapeAll(Split(reference[1..], '/'))
    else Split(reference, '.')
  }

  lemma {:induction false} DottedRoundTrip(segments: seq<string>)
    requires segments != [] && AllPlain(segments)
    ensures var r := Join(segments, '.'); r != "" && r[0] != '/' && Split(r, '.') == segments
  {
    forall i | 0 <= i < |segments| ensures '.' !in segments[i] {
      assert Plain(segments[i]);
    }
    SplitJoin(segments, '.');
    assert Plain(segments[0]) && Join(segments, '.')[0] == segments[0][0];
  }

  lemma {:induction false} PointerRoundTrip(segments: seq<string>)
    requires segments != []
    ensures Split(Join(EscapeAll(segments), '/'), '/') == EscapeAll(segments)
    ensures UnescapeAll(EscapeAll(segments)) == segments
  {
    var escaped := EscapeAll(segments);
    forall i | 0 <= i < |segments| ensures '/' !in escaped[i] && Unescape(escaped[i]) == segments[i] {
      EscapeHasNoSlash(segments[i]);
      EscapeRoundTrip(segments[i]);
    }
    SplitJoin(escaped, '/');
  }

  /** A reference determines its segments, across both syntaxes. */
  lemma {:induction false} ReferenceRoundTrip(segments: seq<string>)
    ensures SegmentsOf(ReferenceForSegments(segments)) == segments
  {
    if AllPlain(segments) {
      if segments != [] { DottedRoundTrip(segments); }
    } else {
      PointerRoundTrip(segments);
      var joined := Join(EscapeAll(segments), '/');
      assert ("/" + joined)[1..] == joined;
    }
  }

  lemma {:induction false} ReferenceInjective(a: seq<string>, b: seq<string>)
    requires ReferenceForSegments(a) == ReferenceForSegments(b)
    ensures a == b
  {
    ReferenceRoundTrip(a);
    ReferenceRoundTrip(b);
  }

  /** The last segment of a reference is the last segment it was made from. */
  lemma {:induction false} LastSegmentIsLast(segments: seq<string>)
    requires segments != []
    ensures LastSegment(ReferenceForSegments(segments)) == segments[|segments| - 1]
  {
    if AllPlain(segments) {
      DottedRoundTrip(segments);
    } else {
      PointerLast(segments, Join(EscapeAll(segments), '/'));
    }
  }

  lemma {:induction false} PointerLast(segments: seq<string>, joined: string)
    requires segments != [] && joined == Join(EscapeAll(segments), '/')
    ensures LastSegment("/" + joined) == segments[|segments| - 1]
  {
    PointerRoundTrip(segments);
    SplitFirst("", '/', joined);
    assert "" + ['/'] + joined == "/" + joined;
    var parts := Split("/" + joined, '/');
    assert parts == [""] + EscapeAll(segments);
    assert parts[|parts| - 1] == Escape(segments[|segments| - 1]);
    EscapeRoundTrip(segments[|segments| - 1]);
  }

  // ---- uniqueBy ----

  /** Of the first `n` values, those whose key no earlier one has, in order. */
  function Firsts<T>(values: seq<T>, key: T -> string, n: nat): seq<T>
    requires n <= |values|
  {
    if n == 0 then []
    else Firsts(values, key, n - 1)
         + (if key(values[n - 1]) in Mapped(values, key)[..n - 1] then [] else [values[n - 1]])
  }

  /** Keep the first value of every key; nothing is dropped when no key repeats. */
  method UniqueBy<T>(values: seq<T>, key: T -> string) returns (r: seq<T>)
    ensures r == Firsts(values, key, |values|)
    ensures NoDuplicates(Mapped(r, key))
    ensures forall k :: k in Mapped(r, key) <==> k in Mapped(values, key)
    ensures NoDuplicates(Mapped(values, key)) ==> r == values
  {
    var seen: set<string> := {};
    r := [];
    for i := 0 to |values|
      invariant r == Firsts(values, key, i)
      invariant forall k :: k in seen <==> k in Mapped(r, key)
      invariant forall k :: k in seen <==> k in Mapped(values, key)[..i]
      invariant NoDuplicates(Mapped(r, key))
      invariant NoDuplicates(Mapped(values, key)) ==> r == values[..i]
    {
      var candidate := key(values[i]);
      assert Mapped(values, key)[..i + 1] == Mapped(values, key)[..i] + [candidate];
      if candidate !in seen {
        assert Mapped(r + [values[i]], key) == Mapped(r, key) + [candidate];
        seen := seen + {candidate};
        r := r + [values[i]];
      }
    }
    assert Mapped(values, key)[..|values|] == Mapped(values, key);
  }
}
