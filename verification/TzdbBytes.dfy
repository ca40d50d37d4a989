/** The number formats of the time-zone database: base-128 varints, zigzag, big-endian
integers. `strict` readers keep the runtime's limits; the others know the format only. */
module TzdbBytes {
  import opened Bits
  import opened Options

  type Byte = b: nat | b < 256
  type Bytes = seq<Byte>

  datatype Read<+T> = Read(value: T, rest: Bytes)

  const TWO31 := 0x8000_0000
  const TWO32 := 0x1_0000_0000
  const TWO63 := 0x8000_0000_0000_0000
  const TWO64 := 0x1_0000_0000_0000_0000

  predicate FitsI64(n: int) { -TWO63 <= n < TWO63 }

  predicate FitsI32(n: int) { -TWO31 <= n < TWO31 }

  // ---- Varints ----

  function Varint(n: nat): Bytes {
    if n < 128 then [n] else [n % 128 + 128] + Varint(n / 128)
  }

  lemma {:induction false} SevenBits(n: nat)
    ensures And(n, 127) == n % 128 && Shr(n, 7) == n / 128
  {
    assert Shl(1, 7) == 128 && Mask(7) == 127;
    ShlMul(n / 128, 7);
    Fields(n % 128, n / 128, 7);
    assert n == n % 128 + 128 * (n / 128);
  }

  lemma {:induction false} HighBit(n: nat)
    requires n < 128
    ensures Or(n, 128) == n + 128
  {
    assert Shl(1, 7) == 128;
    OrDisjoint(n, 1, 7);
  }

  lemma {:induction false} VarintStep(b: Bytes, n: nat)
    requires n >= 128
    ensures b + [n % 128 + 128] + Varint(n / 128) == b + Varint(n)
  {
    assert b + ([n % 128 + 128] + Varint(n / 128)) == b + [n % 128 + 128] + Varint(n / 128);
  }

  /** The encoder's loop, with its bit operations. */
  method EncodeVarint(number: nat) returns (b: Bytes)
    ensures b == Varint(number)
  {
    var n := number;
    b := [];
    while n >= 128
      invariant b + Varint(n) == Varint(number)
    {
      SevenBits(n);
      HighBit(n % 128);
      VarintStep(b, n);
      b := b + [Or(And(n, 127), 128)];
      n := Shr(n, 7);
    }
    b := b + [n];
  }

  /** What a varint may hold when `g` groups were already read: 64 bits in all. */
  function Cap(g: nat): nat
    requires g <= 9
    decreases 9 - g
  {
    if g == 9 then 2 else 128 * Cap(g + 1)
  }

  lemma {:induction false} CapIs64Bits()
    ensures Cap(0) == TWO64
  {
    assert Cap(6) == 0x40_0000 && Cap(3) == 0x800_0000_0000;
  }

  /** Read a varint, `g` groups of it being read already. */
  function ReadVarint(bs: Bytes, g: nat, strict: bool): Option<Read<nat>>
    decreases |bs|
  {
    if bs == [] || (strict && g > 9) then None
    else
      var payload := bs[0] % 128;
      if strict && g == 9 && payload > 1 then None
      else if bs[0] < 128 then
        if strict && g != 0 && payload == 0 then None else Some(Read(payload, bs[1..]))
      else
        match ReadVarint(bs[1..], g + 1, strict)
        case None => None
        case Some(Read(v, rest)) => Some(Read(payload + 128 * v, rest))
  }

  /** A varint is self-delimiting, and read back exactly when it fits. */
  lemma {:induction false} VarintRoundTrip(n: nat, g: nat, rest: Bytes, strict: bool)
    requires (strict ==> g <= 9) && (g == 0 || n > 0)
    ensures ReadVarint(Varint(n) + rest, g, strict) ==
            if !strict || n < Cap(g) then Some(Read(n, rest)) else None
    decreases n
  {
    var bs := Varint(n) + rest;
    if n < 128 {
      assert bs[1..] == rest;
      if strict && g < 9 { CapAtLeast(g); }
    } else {
      assert bs[1..] == Varint(n / 128) + rest;
      if strict && g == 9 {
      } else {
        VarintRoundTrip(n / 128, g + 1, rest, strict);
      }
    }
  }

  lemma {:induction false} CapAtLeast(g: nat)
    requires g < 9
    ensures Cap(g) >= 256
    decreases 9 - g
  {
    if g < 8 { CapAtLeast(g + 1); }
  }

  /** A varint whose low part `value` is known, the rest standing at `place`. */
  function Continue(value: nat, place: nat, bs: Bytes, g: nat): Option<Read<nat>> {
    match ReadVarint(bs, g, true)
    case None => None
    case Some(Read(v, rest)) => Some(Read(value + place * v, rest))
  }

  lemma {:induction false} Distribute(place: nat, payload: nat, v: nat)
    ensures place * (payload + 128 * v) == payload * place + (128 * place) * v
  {
    assert place * (128 * v) == (128 * place) * v;
  }

  lemma {:induction false} ContinueStep(value: nat, place: nat, bs: Bytes, g: nat)
    requires bs != [] && g <= 9 && !(g == 9 && bs[0] % 128 > 1)
    ensures var payload := bs[0] as int % 128;
            Continue(value, place, bs, g) ==
            if bs[0] >= 128 then Continue(value + payload * place, 128 * place, bs[1..], g + 1)
            else if g != 0 && payload == 0 then None
            else Some(Read(value + payload * place, bs[1..]))
  {
    var payload := bs[0] as int % 128;
    var tail := ReadVarint(bs[1..], g + 1, true);
    if bs[0] >= 128 && tail.Some? {
      Distribute(place, payload, tail.value.value);
    }
    assert place * payload == payload * place;
  }

  /** The runtime's loop: accumulate seven bits a turn, at most ten turns, and insist on
      the shortest form. */
  method DecodeVarint(bytes: Bytes) returns (r: Option<Read<nat>>)
    ensures r == ReadVarint(bytes, 0, true)
  {
    var value: nat, place: nat, g: nat, bs: Bytes := 0, 1, 0, bytes;
    while g <= 9
      invariant g <= 10 && ReadVarint(bytes, 0, true) == Continue(value, place, bs, g)
      decreases 10 - g
    {
      if bs == [] {
        return None;
      }
      var payload := bs[0] as int % 128;
      if g == 9 && payload > 1 {
        return None;
      }
      ContinueStep(value, place, bs, g);
      value := value + payload * place;
      if bs[0] < 128 {
        return if g != 0 && payload == 0 then None else Some(Read(value, bs[1..]));
      }
      place, g, bs := 128 * place, g + 1, bs[1..];
    }
    return None;
  }

  // ---- Zigzag ----

  function ZigZag(n: int): nat {
    if n >= 0 then 2 * n else -2 * n - 1
  }

  /** The runtime's `(v >> 1) ^ -(v & 1)`: an odd value gives the complement. */
  function UnZigZag(v: nat): int {
    if v % 2 == 0 then v / 2 else -(v / 2) - 1
  }

  lemma {:induction false} ZigZagRoundTrip(n: int)
    ensures UnZigZag(ZigZag(n)) == n
    ensures ZigZag(n) < TWO64 <==> FitsI64(n)
  {}

  function Signed(n: int): Bytes {
    Varint(ZigZag(n))
  }

  function ReadSigned(bs: Bytes, strict: bool): Option<Read<int>> {
    match ReadVarint(bs, 0, strict)
    case None => None
    case Some(Read(v, rest)) => Some(Read(UnZigZag(v), rest))
  }

  /** The runtime reads back exactly the signed numbers of 64 bits. */
  lemma {:induction false} SignedRoundTrip(n: int, rest: Bytes, strict: bool)
    ensures ReadSigned(Signed(n) + rest, strict) == if !strict || FitsI64(n) then Some(Read(n, rest)) else None
  {
    VarintRoundTrip(ZigZag(n), 0, rest, strict);
    ZigZagRoundTrip(n);
    CapIs64Bits();
  }

  // ---- Fixed-width integers ----

  function U16(n: nat): Bytes
    requires n < 65536
  {
    [n / 256, n % 256]
  }

  function ReadU8(bs: Bytes): Option<Read<nat>> {
    if bs == [] then None else Some(Read(bs[0], bs[1..]))
  }

  function ReadU16(bs: Bytes): Option<Read<nat>> {
    if |bs| < 2 then None else Some(Read((bs[0] as int) * 256 + bs[1] as int, bs[2..]))
  }

  lemma {:induction false} U16RoundTrip(n: nat, rest: Bytes)
    requires n < 65536
    ensures ReadU16(U16(n) + rest) == Some(Read(n, rest))
  {
    assert (U16(n) + rest)[2..] == rest;
  }

  function U32(n: nat): Bytes
    requires n < TWO32
  {
    [n / 0x100_0000, n / 0x1_0000 % 256, n / 256 % 256, n % 256]
  }

  /** The unsigned number in four bytes. */
  function U32At(bs: Bytes, at: nat): (n: nat)
    requires at + 4 <= |bs|
    ensures n < TWO32
  {
    (bs[at] as int) * 0x100_0000 + (bs[at + 1] as int) * 0x1_0000 + (bs[at + 2] as int) * 256 + bs[at + 3] as int
  }

  function I32At(bs: Bytes, at: nat): (n: int)
    requires at + 4 <= |bs|
    ensures FitsI32(n)
  {
    var u := U32At(bs, at);
    if u < TWO31 then u else u - TWO32
  }

  function I64At(bs: Bytes, at: nat): (n: int)
    requires at + 8 <= |bs|
    ensures FitsI64(n)
  {
    I32At(bs, at) * TWO32 + U32At(bs, at + 4)
  }

  function I32(n: int): Bytes
    requires FitsI32(n)
  {
    U32(if n >= 0 then n else n + TWO32)
  }

  function ReadI32(bs: Bytes): Option<Read<int>> {
    if |bs| < 4 then None else Some(Read(I32At(bs, 0), bs[4..]))
  }

  lemma {:induction false} I32RoundTrip(n: int, rest: Bytes)
    requires FitsI32(n)
    ensures ReadI32(I32(n) + rest) == Some(Read(n, rest))
  {
    U32RoundTrip(if n >= 0 then n else n + TWO32, rest);
    assert (I32(n) + rest)[4..] == rest;
  }

  lemma {:induction false} U32RoundTrip(n: nat, rest: Bytes)
    requires n < TWO32
    ensures U32At(U32(n) + rest, 0) == n
  {
    var a, b := n / 256, n / 0x1_0000;
    assert n == a * 256 + n % 256 && a == b * 256 + a % 256 && b == (n / 0x100_0000) * 256 + b % 256;
  }

  function Take(bs: Bytes, n: nat): Option<Read<Bytes>> {
    if |bs| < n then None else Some(Read(bs[..n], bs[n..]))
  }

  lemma {:induction false} TakeRoundTrip(b: Bytes, rest: Bytes)
    ensures Take(b + rest, |b|) == Some(Read(b, rest))
  {
    assert (b + rest)[..|b|] == b && (b + rest)[|b|..] == rest;
  }
}
