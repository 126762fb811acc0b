/** Finite sets of thread numbers. */
module Sets {
  lemma NobodyIsEmpty(ids: set<int>)
    ensures (forall x :: x !in ids) ==> ids == {}
  {
    if forall x :: x !in ids {
      assert ids == {};
    }
  }

  lemma Anyone(ids: set<int>) returns (id: int)
    requires ids != {}
    ensures id in ids
  {
    NobodyIsEmpty(ids);
    id :| id in ids;
  }

  lemma SubsetSize(a: set<int>, b: set<int>)
    requires a <= b
    ensures |a| <= |b|
  {
    assert b == a + (b - a);
  }
}
