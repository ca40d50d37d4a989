/** Step-function tables: a value for every code point, stored as the points where it
changes, and their packed form that the runtime searches. */
module StepTables {
  import opened Bits
  import opened Search
  import opened Sequences

  const CODE_SPACE := 0x110000

  datatype Step = Step(start: nat, value: nat)

  /** The value of the last step at or before `c`, 0 before the first one. */
  function Lookup(steps: seq<Step>, c: nat): nat {
    if steps == [] then 0
    else
      var last := steps[|steps| - 1];
      if last.start <= c then last.value else Lookup(steps[..|steps| - 1], c)
  }

  predicate StartsIncrease(steps: seq<Step>) {
    forall i, j | 0 <= i < j < |steps| :: steps[i].start < steps[j].start
  }

  /** The value just before `c`. */
  function Before(valueOf: nat -> nat, c: nat): nat {
    if c == 0 then 0 else valueOf(c - 1)
  }

  function StepsOf(valueOf: nat -> nat, n: nat): seq<Step> {
    if n == 0 then []
    else
      StepsOf(valueOf, n - 1)
      + (if valueOf(n - 1) != Before(valueOf, n - 1) then [Step(n - 1, valueOf(n - 1))] else [])
  }

  method Steps(valueOf: nat -> nat) returns (out: seq<Step>)
    ensures out == StepsOf(valueOf, CODE_SPACE)
    ensures forall c | 0 <= c < 0x110000 :: Lookup(out, c) == valueOf(c)
  {
    forall c | 0 <= c < 0x110000 ensures Lookup(StepsOf(valueOf, CODE_SPACE), c) == valueOf(c) {
      LookupSteps(valueOf, CODE_SPACE, c);
    }
    out := [];
    var prev := 0;
    for c := 0 to CODE_SPACE
      invariant out == StepsOf(valueOf, c) && prev == Before(valueOf, c)
    {
      var v := valueOf(c);
      if v != prev {
        out := out + [Step(c, v)];
        prev := v;
      }
    }
  }

  predicate Jump(valueOf: nat -> nat, n: nat, s: Step) {
    s.start < n && s.value == valueOf(s.start) && s.value != Before(valueOf, s.start)
  }

  lemma {:induction false} StepsIncrease(valueOf: nat -> nat, n: nat)
    ensures StartsIncrease(StepsOf(valueOf, n))
    ensures forall i | 0 <= i < |StepsOf(valueOf, n)| :: Jump(valueOf, n, StepsOf(valueOf, n)[i])
  {
    if n > 0 {
      StepsIncrease(valueOf, n - 1);
      var rest := StepsOf(valueOf, n - 1);
      forall i | 0 <= i < |rest| ensures StepsOf(valueOf, n)[i] == rest[i] && Jump(valueOf, n, rest[i]) {
        assert Jump(valueOf, n - 1, rest[i]);
      }
    }
  }

  /** The table gives back the function, and past its end the last value. */
  lemma {:induction false} LookupSteps(valueOf: nat -> nat, n: nat, c: nat)
    ensures Lookup(StepsOf(valueOf, n), c) == if n == 0 then 0 else valueOf(if c < n then c else n - 1)
  {
    if n > 0 {
      LookupSteps(valueOf, n - 1, c);
      var rest := StepsOf(valueOf, n - 1);
      if valueOf(n - 1) != Before(valueOf, n - 1) {
        assert StepsOf(valueOf, n)[..|rest|] == rest;
      } else {
        assert StepsOf(valueOf, n) == rest;
      }
    }
  }

  // ---- No table for the same function is smaller ----

  function Starts(steps: seq<Step>): set<nat> {
    set i | 0 <= i < |steps| :: steps[i].start
  }

  lemma {:induction false} StartsCount(steps: seq<Step>)
    requires StartsIncrease(steps)
    ensures |Starts(steps)| == |steps|
  {
    if steps != [] {
      var rest := steps[..|steps| - 1];
      var last := steps[|steps| - 1].start;
      StartsCount(rest);
      assert Starts(steps) == Starts(rest) + {last} by {
        forall x | x in Starts(steps) ensures x in Starts(rest) + {last} {
          var i :| 0 <= i < |steps| && steps[i].start == x;
          assert i < |rest| ==> rest[i].start == x;
        }
        forall x | x in Starts(rest) ensures x in Starts(steps) {
          var i :| 0 <= i < |rest| && rest[i].start == x;
          assert steps[i].start == x;
        }
      }
      assert last !in Starts(rest);
    }
  }

  lemma {:induction false} JumpIsStart(steps: seq<Step>, c: nat)
    requires StartsIncrease(steps)
    requires Lookup(steps, c) != if c == 0 then 0 else Lookup(steps, c - 1)
    ensures c in Starts(steps)
  {
    var rest := steps[..|steps| - 1];
    if steps[|steps| - 1].start > c {
      JumpIsStart(rest, c);
      var i :| 0 <= i < |rest| && rest[i].start == c;
      assert steps[i].start == c;
    } else {
      assert steps[|steps| - 1].start == c;
    }
  }

  /** Every table that computes the same function has at least as many steps. */
  lemma {:induction false} StepsAreFewest(valueOf: nat -> nat, n: nat, other: seq<Step>)
    requires StartsIncrease(other) && forall c | 0 <= c < n :: Lookup(other, c) == valueOf(c)
    ensures |StepsOf(valueOf, n)| <= |other|
  {
    var steps := StepsOf(valueOf, n);
    StepsIncrease(valueOf, n);
    StartsCount(steps);
    StartsCount(other);
    forall x | x in Starts(steps) ensures x in Starts(other) {
      var i :| 0 <= i < |steps| && steps[i].start == x;
      JumpIsStart(other, x);
    }
    SubsetSize(Starts(steps), Starts(other));
  }

  // ---- Packed tables ----

  /** `start << k | value` for every step. */
  function PackSteps(steps: seq<Step>, k: nat): (packed: seq<nat>)
    ensures |packed| == |steps|
    ensures forall i | 0 <= i < |steps| :: packed[i] == Or(Shl(steps[i].start, k), steps[i].value)
  {
    seq(|steps|, i requires 0 <= i < |steps| => Or(Shl(steps[i].start, k), steps[i].value))
  }

  /** The runtime's lookup: the last entry not above `c << k | mask`, without its start. */
  function PackedLookup(packed: seq<nat>, k: nat, c: nat): nat {
    var i := PartitionPoint(packed, NotAbove(c, k));
    if i == 0 then 0 else And(packed[i - 1], Mask(k))
  }

  function NotAbove(c: nat, k: nat): nat -> bool {
    e => e <= Or(Shl(c, k), Mask(k))
  }

  /** The same by bisection. */
  method SearchPacked(packed: seq<nat>, k: nat, c: nat, ghost steps: seq<Step>) returns (value: nat)
    requires StartsIncrease(steps) && packed == PackSteps(steps, k)
    requires forall i | 0 <= i < |steps| :: steps[i].value < Shl(1, k)
    ensures value == PackedLookup(packed, k, c) == Lookup(steps, c)
  {
    PackedLookupIsLookup(steps, k, c);
    var i := Bisect(packed, NotAbove(c, k));
    value := if i == 0 then 0 else And(packed[i - 1], Mask(k));
  }

  lemma {:induction false} PackedField(start: nat, value: nat, k: nat)
    requires value < Shl(1, k)
    ensures Or(Shl(start, k), value) == value + Shl(start, k)
    ensures And(Or(Shl(start, k), value), Mask(k)) == value
  {
    OrSymmetric(Shl(start, k), value);
    OrDisjoint(value, start, k);
    Fields(value, start, k);
  }

  lemma {:induction false} ShlMonotone(x: nat, y: nat, k: nat)
    requires x <= y
    ensures Shl(x, k) <= Shl(y, k)
  {
    if k > 0 { ShlMonotone(x, y, k - 1); }
  }

  /** Packing keeps the order of the starts, whatever the values. */
  lemma {:induction false} PackedOrder(start: nat, value: nat, k: nat, c: nat)
    requires value < Shl(1, k)
    ensures Or(Shl(start, k), value) <= Or(Shl(c, k), Mask(k)) <==> start <= c
  {
    PackedField(start, value, k);
    PackedField(c, Mask(k), k);
    if start <= c {
      ShlMonotone(start, c, k);
    } else {
      ShlPlus(c, start - c, k);
      ShlMonotone(1, start - c, k);
    }
  }

  lemma {:induction false} LookupAt(steps: seq<Step>, c: nat, m: nat)
    requires m <= |steps|
    requires forall i | 0 <= i < m :: steps[i].start <= c
    requires forall i | m <= i < |steps| :: c < steps[i].start
    ensures Lookup(steps, c) == if m == 0 then 0 else steps[m - 1].value
  {
    if m < |steps| {
      LookupAt(steps[..|steps| - 1], c, m);
    }
  }

  /** Searching the packed table is looking up the steps; its entries are partitioned,
      so bisection finds the same place. */
  lemma {:induction false} PackedLookupIsLookup(steps: seq<Step>, k: nat, c: nat)
    requires StartsIncrease(steps) && forall i | 0 <= i < |steps| :: steps[i].value < Shl(1, k)
    ensures PackedLookup(PackSteps(steps, k), k, c) == Lookup(steps, c)
    ensures Partitioned(PackSteps(steps, k), NotAbove(c, k))
  {
    var packed := PackSteps(steps, k);
    var p := NotAbove(c, k);
    forall i | 0 <= i < |steps| ensures p(packed[i]) <==> steps[i].start <= c {
      PackedOrder(steps[i].start, steps[i].value, k, c);
    }
    var m := PartitionPoint(packed, p);
    LastNotAbove(steps, packed, p, c, m);
    LookupAt(steps, c, m);
    if m > 0 {
      PackedField(steps[m - 1].start, steps[m - 1].value, k);
    }
  }

  lemma {:induction false} LastNotAbove(steps: seq<Step>, packed: seq<nat>, p: nat -> bool, c: nat, m: nat)
    requires StartsIncrease(steps) && |packed| == |steps| && m == PartitionPoint(packed, p)
    requires forall i | 0 <= i < |steps| :: p(packed[i]) <==> steps[i].start <= c
    ensures forall i | 0 <= i < m :: steps[i].start <= c
    ensures forall i | m <= i < |steps| :: c < steps[i].start
  {
    if m < |steps| { assert !p(packed[m]); }
  }

  /** The whole way: any function with values of `k` bits survives the generator's step
      table, its packing and the runtime's search, on every code point. */
  lemma {:induction false} TableIsFunction(valueOf: nat -> nat, n: nat, k: nat, c: nat)
    requires c < n && forall x | 0 <= x < n :: valueOf(x) < Shl(1, k)
    ensures PackedLookup(PackSteps(StepsOf(valueOf, n), k), k, c) == valueOf(c)
  {
    var steps := StepsOf(valueOf, n);
    StepsIncrease(valueOf, n);
    PackedLookupIsLookup(steps, k, c);
    LookupSteps(valueOf, n, c);
  }
}
