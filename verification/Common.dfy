/** What several parts of the model share. */
module Common {

  // the device with the root file system
  const ROOTDEV := 1

  /** Mentioned where a proof looks inside a predicate of the form
      forall u :: Open(u) ==> ...; the quantifier keeps such a predicate out of sight of proofs
      that only pass it on. */
  ghost predicate Open(u: int) { true }

  lemma Subsets<T>(a: set<T>, b: set<T>)
    requires a <= b
    ensures |a| <= |b|
  {
    assert b == a + (b - a);
  }

  ghost predicate Distinct(bs: seq<nat>) {
    bs == [] || (bs[|bs| - 1] !in bs[..|bs| - 1] && Distinct(bs[..|bs| - 1]))
  }

  lemma {:induction false} DistinctAt(bs: seq<nat>, i: nat)
    requires Distinct(bs) && i < |bs|
    ensures forall j :: 0 <= j < |bs| && j != i ==> bs[j] != bs[i]
  {
    var k := |bs| - 1;
    if i < k {
      DistinctAt(bs[..k], i);
      assert bs[i] in bs[..k];
      forall j | 0 <= j < |bs| && j != i
        ensures bs[j] != bs[i]
      {
        if j < k {
          assert bs[..k][j] == bs[j];
        }
      }
    } else {
      assert forall j :: 0 <= j < k ==> bs[j] in bs[..k];
    }
  }
}
