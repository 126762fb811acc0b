/** The comparison of integer keys, which subtracts. */
module KeyOrders {
  import opened BalancedBTree

  /** What a signed 32-bit variable makes of a number. */
  function Int32(x: int): (r: int)
    ensures -0x8000_0000 <= r < 0x8000_0000 && (-0x8000_0000 <= x < 0x8000_0000 ==> r == x)
  {
    (x + 0x8000_0000) % 0x1_0000_0000 - 0x8000_0000
  }

  function KeyCompareInt(l: int, r: int): (res: int)
    ensures -1 <= res <= 1
  {
    var d := Int32(l - r);
    if d > 1 then 1 else if d < -1 then -1 else d
  }

  predicate Is32(x: int) {
    -0x8000_0000 <= x < 0x8000_0000
  }

  /** The comparison has the right sign exactly when the difference does not
      overflow. */
  lemma CompareExactly(l: int, r: int)
    requires Is32(l) && Is32(r)
    ensures (KeyCompareInt(l, r) < 0 <==> l < r) && (KeyCompareInt(l, r) > 0 <==> l > r) <==> Is32(l - r)
    ensures KeyCompareInt(l, r) == 0 <==> l == r
  {
  }

  predicate InRange(lo: int, hi: int, x: int) {
    lo <= x <= hi
  }

  /** The comparison orders the keys of a range, as the tree needs it. */
  ghost predicate OrdersRange(lo: int, hi: int) {
    && (forall a, b :: InRange(lo, hi, a) && InRange(lo, hi, b) ==>
      (KeyCompareInt(a, b) < 0 <==> KeyCompareInt(b, a) > 0))
    && (forall a, b, c :: InRange(lo, hi, a) && InRange(lo, hi, b) && InRange(lo, hi, c) ==>
      KeyCompareInt(a, b) <= 0 && KeyCompareInt(b, c) <= 0 ==> KeyCompareInt(a, c) <= 0)
  }

  /** It does exactly if no two of them are 2^31 apart or more. */
  lemma RangeExactly(lo: int, hi: int)
    requires Is32(lo) && Is32(hi) && lo <= hi
    ensures OrdersRange(lo, hi) <==> hi - lo < 0x8000_0000
  {
    if hi - lo < 0x8000_0000 {
      forall a, b | InRange(lo, hi, a) && InRange(lo, hi, b)
        ensures KeyCompareInt(a, b) < 0 <==> a < b
        ensures KeyCompareInt(a, b) > 0 <==> a > b
      {
        CompareExactly(a, b);
      }
    } else {
      CompareExactly(lo, hi);
      CompareExactly(hi, lo);
      assert InRange(lo, hi, lo) && InRange(lo, hi, hi);
      if hi - lo > 0x8000_0000 {
        var far := lo + 0x7fff_ffff;
        CompareExactly(lo, far);
        CompareExactly(far, hi);
        assert InRange(lo, hi, far) && KeyCompareInt(lo, far) < 0 && KeyCompareInt(far, hi) < 0;
        assert KeyCompareInt(lo, hi) > 0;
      } else {
        assert KeyCompareInt(lo, hi) < 0 && KeyCompareInt(hi, lo) < 0;
      }
    }
  }

  /** Keys as the database numbers things, and the -1 of a server that it has not
      numbered yet. With that one there is no room for the greatest number. */
  type Id = x: int | -1 <= x < 0x7fff_ffff

  function CompareIds(l: Id, r: Id): int {
    KeyCompareInt(l, r)
  }

  /** On such keys the comparison is an order, as the tree needs it. */
  lemma IdsInOrder()
    ensures IsOrder<Id>(CompareIds)
  {
    forall a: Id, b: Id ensures CompareIds(a, b) < 0 <==> a < b {
      CompareExactly(a, b);
    }
    forall a: Id, b: Id ensures Below<Id>(CompareIds, a, b) <==> a < b {
      CompareExactly(a, b);
    }
    forall a: Id, b: Id ensures CompareIds(b, a) > 0 <==> a < b {
      CompareExactly(b, a);
    }
  }

  /** Among all 32-bit keys it is not: three keys may follow each other round. */
  lemma KeysGoRound()
    ensures var a, b, c := -0x8000_0000, 0, 0x7fff_ffff;
      KeyCompareInt(a, b) < 0 && KeyCompareInt(b, c) < 0 && KeyCompareInt(c, a) < 0
  {
  }
}
