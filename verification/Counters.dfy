/** The mixed-radix counter that enumerates all index tuples of a box. */
module Counters {

  function Product(arity: seq<nat>): nat {
    if arity == [] then 1 else Product(arity[..|arity| - 1]) * arity[|arity| - 1]
  }

  /** The number a tuple stands for; position 0 is the least significant. */
  function Value(arity: seq<nat>, digits: seq<int>): int
    requires |arity| == |digits|
  {
    if digits == [] then 0
    else
      var n := |digits| - 1;
      Value(arity[..n], digits[..n]) + digits[n] * Product(arity[..n])
  }

  predicate InBox(arity: seq<nat>, digits: seq<int>) {
    |digits| == |arity| && forall i | 0 <= i < |arity| :: 0 <= digits[i] < arity[i]
  }

  predicate Positive(arity: seq<nat>) {
    forall i | 0 <= i < |arity| :: arity[i] >= 1
  }

  predicate NonNegative(digits: seq<int>) {
    forall i | 0 <= i < |digits| :: digits[i] >= 0
  }

  predicate AllZero(digits: seq<int>) {
    forall i | 0 <= i < |digits| :: digits[i] == 0
  }

  /** All digits at their largest. */
  function Largest(arity: seq<nat>): seq<int> {
    seq(|arity|, i requires 0 <= i < |arity| => (arity[i] as int) - 1)
  }

  lemma {:induction false} ProductPositive(arity: seq<nat>)
    requires Positive(arity)
    ensures Product(arity) >= 1
  {
    if arity != [] {
      var n := |arity| - 1;
      ProductPositive(arity[..n]);
      assert Product(arity[..n]) * arity[n] >= 1 by {
        Grows(Product(arity[..n]), arity[n]);
      }
    }
  }

  lemma Grows(a: nat, b: nat)
    requires a >= 1 && b >= 1
    ensures a * b >= a && a * b >= b
  {
    assert (a - 1) * (b - 1) >= 0;
  }

  lemma {:induction false} LargestValue(arity: seq<nat>)
    ensures Value(arity, Largest(arity)) == Product(arity) - 1
  {
    if arity != [] {
      var n := |arity| - 1;
      LargestValue(arity[..n]);
      assert Largest(arity)[..n] == Largest(arity[..n]);
      assert (arity[n] - 1) * Product(arity[..n]) == Product(arity[..n]) * arity[n] - Product(arity[..n]);
    }
  }

  /** Only the all-zero tuple stands for 0, and no tuple for less. */
  lemma {:induction false} ValueZero(arity: seq<nat>, digits: seq<int>)
    requires |arity| == |digits| && Positive(arity) && NonNegative(digits)
    ensures Value(arity, digits) >= 0
    ensures Value(arity, digits) == 0 <==> AllZero(digits)
  {
    if digits != [] {
      var n := |digits| - 1;
      ValueZero(arity[..n], digits[..n]);
      ProductPositive(arity[..n]);
      if digits[n] >= 1 {
        Grows(digits[n], Product(arity[..n]));
      }
      assert AllZero(digits) <==> AllZero(digits[..n]) && digits[n] == 0;
    }
  }

  lemma {:induction false} ValueBelow(arity: seq<nat>, digits: seq<int>)
    requires InBox(arity, digits)
    ensures 0 <= Value(arity, digits) < Product(arity)
  {
    if digits != [] {
      var n := |digits| - 1;
      var p := Product(arity[..n]);
      ValueBelow(arity[..n], digits[..n]);
      assert digits[n] * p + p == (digits[n] + 1) * p;
      assert (digits[n] + 1) * p <= arity[n] * p by {
        Monotone(digits[n] + 1, arity[n], p);
      }
      assert digits[n] * p >= 0 by {
        Monotone(0, digits[n], p);
      }
    }
  }

  lemma Monotone(a: int, b: int, c: nat)
    requires a <= b
    ensures a * c <= b * c
  {
    assert (b - a) * c >= 0;
  }

  lemma HigherDigitWins(d: int, e: int, p: nat, u: int, v: int)
    requires d < e && u < p && v >= 0
    ensures u + d * p < v + e * p
  {
    Monotone(d + 1, e, p);
    assert (d + 1) * p == d * p + p;
  }

  /** Different tuples of the box stand for different numbers. */
  lemma {:induction false} ValueInjective(arity: seq<nat>, a: seq<int>, b: seq<int>)
    requires InBox(arity, a) && InBox(arity, b) && Value(arity, a) == Value(arity, b)
    ensures a == b
  {
    if a == [] {
      assert b == [];
    } else {
      var n := |a| - 1;
      var p := Product(arity[..n]);
      ValueBelow(arity[..n], a[..n]);
      ValueBelow(arity[..n], b[..n]);
      if a[n] < b[n] {
        HigherDigitWins(a[n], b[n], p, Value(arity[..n], a[..n]), Value(arity[..n], b[..n]));
      } else if b[n] < a[n] {
        HigherDigitWins(b[n], a[n], p, Value(arity[..n], b[..n]), Value(arity[..n], a[..n]));
      } else {
        ValueInjective(arity[..n], a[..n], b[..n]);
        assert a == a[..n] + [a[n]] && b == b[..n] + [b[n]];
      }
    }
  }

  /** One decrement of the i-th digit with all lower digits turned over. */
  function Borrowed(arity: seq<nat>, digits: seq<int>, i: nat): seq<int>
    requires |arity| == |digits| && i < |digits|
  {
    Largest(arity[..i]) + [digits[i] - 1] + digits[i + 1..]
  }

  lemma {:induction false} BorrowedValue(arity: seq<nat>, digits: seq<int>, i: nat)
    requires |arity| == |digits| && i < |digits| && Positive(arity)
    requires forall j | 0 <= j < i :: digits[j] == 0
    ensures Value(arity, Borrowed(arity, digits, i)) == Value(arity, digits) - 1
  {
    var n := |digits| - 1;
    var b := Borrowed(arity, digits, i);
    if i == n {
      assert b[..n] == Largest(arity[..n]);
      LargestValue(arity[..n]);
      ValueZero(arity[..n], digits[..n]);
      assert (digits[n] - 1) * Product(arity[..n]) == digits[n] * Product(arity[..n]) - Product(arity[..n]);
    } else {
      assert arity[..n][..i] == arity[..i];
      BorrowedValue(arity[..n], digits[..n], i);
      assert b[..n] == Borrowed(arity[..n], digits[..n], i);
    }
  }

  function FirstNonZero(digits: seq<int>): (i: nat)
    ensures i <= |digits| && (forall j | 0 <= j < i :: digits[j] == 0) && (i < |digits| ==> digits[i] != 0)
  {
    if digits == [] then 0
    else
      var n := |digits| - 1;
      var i := FirstNonZero(digits[..n]);
      if i < n then i else if digits[n] != 0 then n else n + 1
  }

  /** The next tuple: the first digit that is not zero goes down, the zeros before it turn over. */
  function Decremented(arity: seq<nat>, digits: seq<int>): seq<int>
    requires |arity| == |digits|
  {
    var i := FirstNonZero(digits);
    if i == |digits| then Largest(arity) else Borrowed(arity, digits, i)
  }

  /** Unless all digits are zero the next tuple stands for the next smaller number; it stays in the
      box if every digit but the first that is not zero is in it. */
  lemma DecrementedValue(arity: seq<nat>, digits: seq<int>)
    requires |arity| == |digits| && Positive(arity) && NonNegative(digits) && !AllZero(digits)
    ensures Value(arity, Decremented(arity, digits)) == Value(arity, digits) - 1
    ensures NonNegative(Decremented(arity, digits))
    ensures InBox(arity, digits) ==> InBox(arity, Decremented(arity, digits))
  {
    var i := FirstNonZero(digits);
    BorrowedValue(arity, digits, i);
    hide Value, FirstNonZero;
    BorrowedInside(arity, digits, i);
  }

  lemma BorrowedInside(arity: seq<nat>, digits: seq<int>, i: nat)
    requires |arity| == |digits| && i < |digits| && Positive(arity) && NonNegative(digits) && digits[i] != 0
    ensures NonNegative(Borrowed(arity, digits, i))
    ensures InBox(arity, digits) ==> InBox(arity, Borrowed(arity, digits, i))
  {
    var b := Borrowed(arity, digits, i);
    assert |b| == |digits|;
    forall j | 0 <= j < |b|
      ensures b[j] == if j < i then (arity[j] as int) - 1 else if j == i then digits[i] - 1 else digits[j]
    {}
  }

  /** Decrements in place. */
  method Decrement(arity: seq<nat>, instance: array<int>)
    requires |arity| == instance.Length && NonNegative(instance[..])
    modifies instance
    ensures instance[..] == Decremented(arity, old(instance[..]))
  {
    ghost var was := instance[..];
    var i := 0;
    while i < |arity|
      invariant i <= |arity|
      invariant forall j | 0 <= j < i :: was[j] == 0 && instance[j] == (arity[j] as int) - 1
      invariant forall j | i <= j < |arity| :: instance[j] == was[j]
    {
      if instance[i] > 0 {
        instance[i] := instance[i] - 1;
        assert FirstNonZero(was) == i;
        assert instance[..] == Borrowed(arity, was, i);
        return;
      }
      instance[i] := (arity[i] as int) - 1;
      i := i + 1;
    }
    assert FirstNonZero(was) == i;
    assert instance[..] == Largest(arity);
  }

  method IsAllZero(instance: array<int>) returns (zero: bool)
    ensures zero <==> AllZero(instance[..])
  {
    for i := 0 to instance.Length
      invariant AllZero(instance[..i])
    {
      if instance[i] != 0 {
        assert instance[..][i] != 0;
        return false;
      }
    }
    assert instance[..instance.Length] == instance[..];
    return true;
  }

  /** The loop the counter is used in: start at the largest tuple with the first digit one higher,
      decrement, use the tuple, until all digits are zero.  Every tuple of the box is used exactly
      once and no other. */
  method Enumerate(arity: seq<nat>) returns (used: seq<seq<int>>)
    requires arity != [] && Positive(arity)
    ensures forall digits :: digits in used <==> InBox(arity, digits)
    ensures forall i, j | 0 <= i < j < |used| :: used[i] != used[j]
    ensures |used| == Product(arity)
  {
    hide Value, Product, InBox, AllZero, Decremented;
    var instance := new int[|arity|](i requires 0 <= i < |arity| => (arity[i] as int) - 1);
    instance[0] := instance[0] + 1;
    assert instance[..] == Largest(arity)[0 := arity[0]];
    hide Largest;
    StartValue(arity, instance[..]);
    used := [];
    var zero := IsAllZero(instance);
    while !zero
      invariant zero <==> AllZero(instance[..])
      invariant NonNegative(instance[..])
      invariant Value(arity, instance[..]) == Product(arity) - |used|
      invariant if used == [] then instance[..] == Largest(arity)[0 := arity[0]] else InBox(arity, instance[..])
      invariant Descending(arity, used)
      decreases Value(arity, instance[..])
    {
      NextTuple(arity, instance[..], used == []);
      ValueZero(arity, instance[..]);
      Decrement(arity, instance);
      UseTuple(arity, used, instance[..]);
      used := used + [instance[..]];
      zero := IsAllZero(instance);
    }
    ValueZero(arity, instance[..]);
    AllUsed(arity, used);
  }

  /** The tuples stand for the numbers below the product, from the largest down. */
  predicate Descending(arity: seq<nat>, used: seq<seq<int>>) {
    forall i | 0 <= i < |used| :: InBox(arity, used[i]) && Value(arity, used[i]) == Product(arity) - 1 - i
  }

  lemma UseTuple(arity: seq<nat>, used: seq<seq<int>>, digits: seq<int>)
    requires Descending(arity, used) && InBox(arity, digits) && Value(arity, digits) == Product(arity) - 1 - |used|
    ensures Descending(arity, used + [digits])
  {}

  lemma NextTuple(arity: seq<nat>, digits: seq<int>, first: bool)
    requires arity != [] && Positive(arity) && |arity| == |digits| && NonNegative(digits) && !AllZero(digits)
    requires if first then digits == Largest(arity)[0 := arity[0]] else InBox(arity, digits)
    ensures Value(arity, Decremented(arity, digits)) == Value(arity, digits) - 1
    ensures InBox(arity, Decremented(arity, digits)) && NonNegative(Decremented(arity, digits))
  {
    DecrementedValue(arity, digits);
    if first {
      FirstDecrement(arity);
    }
  }

  lemma AllUsed(arity: seq<nat>, used: seq<seq<int>>)
    requires Descending(arity, used) && |used| == Product(arity)
    ensures forall digits :: digits in used <==> InBox(arity, digits)
    ensures forall i, j | 0 <= i < j < |used| :: used[i] != used[j]
  {
    forall digits
      ensures digits in used <==> InBox(arity, digits)
    {
      if InBox(arity, digits) {
        ValueBelow(arity, digits);
        var i := Product(arity) - 1 - Value(arity, digits);
        ValueInjective(arity, digits, used[i]);
      }
    }
  }

  /** The start stands for one more than the largest tuple. */
  lemma {:induction false} StartValue(arity: seq<nat>, digits: seq<int>)
    requires arity != [] && Positive(arity) && |digits| == |arity| && digits == Largest(arity)[0 := arity[0]]
    ensures Value(arity, digits) == Product(arity) && NonNegative(digits) && !AllZero(digits)
    decreases |arity|
  {
    var n := |arity| - 1;
    if n == 0 {
      assert arity[..0] == [] && digits[..0] == [];
    } else {
      assert Largest(arity)[..n] == Largest(arity[..n]);
      assert digits[..n] == Largest(arity[..n])[0 := arity[0]];
      StartValue(arity[..n], digits[..n]);
      assert (arity[n] - 1) * Product(arity[..n]) == Product(arity[..n]) * arity[n] - Product(arity[..n]);
    }
  }

  lemma FirstDecrement(arity: seq<nat>)
    requires arity != [] && Positive(arity)
    ensures Decremented(arity, Largest(arity)[0 := arity[0]]) == Largest(arity)
    ensures InBox(arity, Largest(arity))
  {
    var start := Largest(arity)[0 := arity[0]];
    assert start[0] != 0;
    var i := FirstNonZero(start);
    assert Borrowed(arity, start, 0) == Largest(arity);
  }

  /** The largest tuple with the last digit one higher, which is where the description of the
      counter starts. */
  function DescribedStart(arity: seq<nat>): seq<int>
    requires arity != []
  {
    Largest(arity)[|arity| - 1 := arity[|arity| - 1]]
  }

  /** From the described start the counter reaches the largest tuple if all digits before the last
      have a single value; otherwise the first tuple lies outside the box. */
  lemma DescribedStartInBox(arity: seq<nat>)
    requires arity != [] && Positive(arity)
    ensures !AllZero(DescribedStart(arity))
    ensures InBox(arity, Decremented(arity, DescribedStart(arity))) <==> forall i | 0 <= i < |arity| - 1 :: arity[i] == 1
    ensures InBox(arity, Decremented(arity, DescribedStart(arity))) ==> Decremented(arity, DescribedStart(arity)) == Largest(arity)
  {
    var start, n := DescribedStart(arity), |arity| - 1;
    assert start[n] != 0;
    var i := FirstNonZero(start);
    var next := Borrowed(arity, start, i);
    if i == n {
      assert forall j | 0 <= j < n :: start[j] == arity[j] - 1;
      assert next == Largest(arity);
    } else {
      assert start[i] == arity[i] - 1;
      assert next[n] == arity[n];
    }
  }

  /** Two digits of two values each are enough to leave the box. */
  lemma DescribedStartLeavesBox()
    ensures var arity := [2, 2]; !InBox(arity, Decremented(arity, DescribedStart(arity)))
  {
    var arity := [2, 2];
    assert arity[0] != 1;
    DescribedStartInBox(arity);
  }
}
