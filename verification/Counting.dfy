/** How many flags of a sequence are set. */
module Counting {
  function CountTrue(flags: seq<bool>): nat {
    if flags == [] then 0
    else CountTrue(flags[..|flags| - 1]) + (if flags[|flags| - 1] then 1 else 0)
  }

  lemma {:induction false} CountUpdate(flags: seq<bool>, t: nat, b: bool)
    requires t < |flags|
    ensures CountTrue(flags[t := b]) + (if flags[t] then 1 else 0) == CountTrue(flags) + (if b then 1 else 0)
  {
    var last := |flags| - 1;
    if t == last {
      assert flags[t := b][..last] == flags[..last];
    } else {
      assert flags[t := b][..last] == flags[..last][t := b];
      CountUpdate(flags[..last], t, b);
    }
  }

  lemma {:induction false} CountNone(flags: seq<bool>)
    requires forall t :: 0 <= t < |flags| ==> !flags[t]
    ensures CountTrue(flags) == 0
  {
    if flags != [] {
      CountNone(flags[..|flags| - 1]);
    }
  }

  lemma {:induction false} CountPositive(flags: seq<bool>, t: nat)
    requires t < |flags| && flags[t]
    ensures CountTrue(flags) > 0
  {
    if t < |flags| - 1 {
      CountPositive(flags[..|flags| - 1], t);
    }
  }

  lemma {:induction false} CountBound(flags: seq<bool>)
    ensures CountTrue(flags) <= |flags|
  {
    if flags != [] {
      CountBound(flags[..|flags| - 1]);
    }
  }

  lemma CountAppend(flags: seq<bool>, b: bool)
    ensures CountTrue(flags + [b]) == CountTrue(flags) + (if b then 1 else 0)
  {
    assert (flags + [b])[..|flags|] == flags;
  }
}
