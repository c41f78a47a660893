/** What a set filled in order lists: each element once, where it was first added. */
module FirstUses {
  function Distinct(xs: seq<string>): (ys: seq<string>)
    ensures forall x :: x in ys <==> x in xs
    ensures forall i, j | 0 <= i < j < |ys| :: ys[i] != ys[j]
  {
    if xs == [] then []
    else
      var last := xs[|xs| - 1];
      assert xs == xs[..|xs| - 1] + [last];
      var earlier := Distinct(xs[..|xs| - 1]);
      if last in earlier then earlier else earlier + [last]
  }

  /** An element listed earlier was used when a later one had not been. */
  lemma {:induction false} DistinctInOrderOfFirstUse(xs: seq<string>, i: nat, j: nat)
    requires i < j < |Distinct(xs)|
    ensures exists k: nat :: k < |xs| && xs[k] == Distinct(xs)[i] && Distinct(xs)[j] !in xs[..k + 1]
  {
    var last := |xs| - 1;
    var earlier := Distinct(xs[..last]);
    if j < |earlier| {
      DistinctInOrderOfFirstUse(xs[..last], i, j);
      var k: nat :| k < last && xs[..last][k] == earlier[i] && earlier[j] !in xs[..last][..k + 1];
      assert xs[..last][..k + 1] == xs[..k + 1];
    } else {
      assert earlier[i] in xs[..last];
      var k: nat :| k < last && xs[..last][k] == earlier[i];
      assert forall x | x in xs[..k + 1] :: x in xs[..last];
    }
  }

  lemma DistinctOfAppended(xs: seq<string>, x: string)
    ensures Distinct(xs + [x]) == if x in Distinct(xs) then Distinct(xs) else Distinct(xs) + [x]
  {
    assert (xs + [x])[..|xs|] == xs;
  }
}
