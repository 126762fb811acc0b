/** Rows of things: taking one out, and picking those that lie in a set. */
module Rows {

  function Elements<T(==)>(s: seq<T>): set<T> {
    set x | x in s
  }

  predicate NoRepeats<T(==)>(s: seq<T>) {
    forall i, j :: 0 <= i < j < |s| ==> s[i] != s[j]
  }

  lemma NoRepeatsApart<T>(a: seq<T>, x: T, b: seq<T>)
    ensures NoRepeats(a + [x] + b) <==>
      NoRepeats(a) && NoRepeats(b) && x !in a && x !in b && forall y :: y in a ==> y !in b
  {
    var s := a + [x] + b;
    if NoRepeats(s) {
      forall i, j | 0 <= i < j < |b| ensures b[i] != b[j] {
        assert s[|a| + 1 + i] == b[i] && s[|a| + 1 + j] == b[j];
      }
      forall i, j | 0 <= i < |a| && 0 <= j < |b| ensures a[i] != b[j] && a[i] != x && x != b[j] {
        assert s[i] == a[i] && s[|a|] == x && s[|a| + 1 + j] == b[j];
      }
      forall i, j | 0 <= i < j < |a| ensures a[i] != a[j] {
        assert s[i] == a[i] && s[j] == a[j];
      }
      forall i | 0 <= i < |a| ensures a[i] != x {
        assert s[i] == a[i] && s[|a|] == x;
      }
      forall j | 0 <= j < |b| ensures b[j] != x {
        assert s[|a| + 1 + j] == b[j] && s[|a|] == x;
      }
    } else if NoRepeats(a) && NoRepeats(b) && x !in a && x !in b && (forall y :: y in a ==> y !in b) {
      forall i, j | 0 <= i < j < |s| ensures s[i] != s[j] {
        assert i < |a| ==> s[i] == a[i] && s[i] in a;
        assert j < |a| ==> s[j] == a[j];
        assert i > |a| ==> s[i] == b[i - |a| - 1];
        assert j > |a| ==> s[j] == b[j - |a| - 1] && s[j] in b;
      }
    }
  }

  function Without<T(==)>(s: seq<T>, x: T): seq<T> {
    if s == [] then [] else (if s[0] == x then [] else [s[0]]) + Without(s[1..], x)
  }

  lemma {:induction false} WithoutAbsent<T>(s: seq<T>, x: T)
    requires x !in s
    ensures Without(s, x) == s
  {
    if s != [] {
      WithoutAbsent(s[1..], x);
    }
  }

  lemma {:induction false} WithoutIsWithin<T>(s: seq<T>, x: T)
    ensures Elements(Without(s, x)) == Elements(s) - {x}
  {
    if s != [] {
      WithoutIsWithin(s[1..], x);
      assert Elements(s) == {s[0]} + Elements(s[1..]);
      var head := if s[0] == x then [] else [s[0]];
      assert Elements(head + Without(s[1..], x)) == Elements(head) + Elements(Without(s[1..], x));
    }
  }

  lemma {:induction false} WithoutConcat<T>(a: seq<T>, b: seq<T>, x: T)
    ensures Without(a + b, x) == Without(a, x) + Without(b, x)
  {
    if a == [] {
      assert a + b == b;
    } else {
      assert (a + b)[1..] == a[1..] + b;
      WithoutConcat(a[1..], b, x);
    }
  }

  lemma WithoutOne<T>(a: seq<T>, x: T, b: seq<T>)
    requires NoRepeats(a + [x] + b)
    ensures Without(a + [x] + b, x) == a + b
  {
    NoRepeatsApart(a, x, b);
    WithoutConcat(a + [x], b, x);
    WithoutConcat(a, [x], x);
    WithoutAbsent(a, x);
    WithoutAbsent(b, x);
    assert Without([x], x) == [];
    assert Without(a + [x], x) == a + [] == a;
  }

  lemma NoRepeatsJoin<T>(a: seq<T>, b: seq<T>)
    requires NoRepeats(a) && NoRepeats(b) && forall y :: y in a ==> y !in b
    ensures NoRepeats(a + b)
  {
    var s := a + b;
    forall i, j | 0 <= i < j < |s| ensures s[i] != s[j] {
      assert i < |a| ==> s[i] == a[i] && s[i] in a;
      assert j < |a| ==> s[j] == a[j];
      assert i >= |a| ==> s[i] == b[i - |a|];
      assert j >= |a| ==> s[j] == b[j - |a|] && s[j] in b;
    }
  }

  lemma Around<T>(s: seq<T>, k: nat)
    requires k < |s|
    ensures s == s[..k] + [s[k]] + s[k + 1..]
  {
  }

  lemma CutAt<T>(s: seq<T>, k: nat)
    requires NoRepeats(s) && k < |s|
    ensures Without(s, s[k]) == s[..k] + s[k + 1..] && NoRepeats(Without(s, s[k]))
  {
    var a, b := s[..k], s[k + 1..];
    Around(s, k);
    WithoutOne(a, s[k], b);
    NoRepeatsApart(a, s[k], b);
    NoRepeatsJoin(a, b);
  }

  lemma Reassociate<T>(a: seq<T>, b: seq<T>, c: seq<T>)
    ensures a + (b + c) == a + b + c
  {
  }

  lemma Regroup<T>(p: seq<T>, l: seq<T>, m: seq<T>, r: seq<T>, q: seq<T>)
    ensures p + (l + m + r) + q == (p + l) + m + (r + q)
    ensures p + (l + r) + q == (p + l) + (r + q)
  {
  }

  lemma RegroupFour<T>(a: seq<T>, b: seq<T>, c: seq<T>, d: seq<T>)
    ensures a + b + c + d == a + (b + (c + d))
    ensures a + b + c + d == a + (b + c + d)
    ensures a + (b + c) + d == a + b + (c + d)
  {
  }

  // ----- rows with an end mark -----

  /** What comes before the first `stop`. */
  function UpTo<T(==)>(s: seq<T>, stop: T): seq<T> {
    if s == [] || s[0] == stop then [] else [s[0]] + UpTo(s[1..], stop)
  }

  lemma {:induction false} UpToEnds<T>(s: seq<T>, stop: T, n: nat)
    requires n < |s| && s[n] == stop
    ensures |UpTo(s, stop)| <= n && (stop !in s[..n] ==> UpTo(s, stop) == s[..n])
  {
    if n > 0 && s[0] != stop {
      UpToEnds(s[1..], stop, n - 1);
      assert s[1..][..n - 1] == s[..n][1..];
    }
  }

  // ----- picking -----

  function Pick<T(==)>(s: seq<T>, which: set<T>): seq<T> {
    if s == [] then [] else (if s[0] in which then [s[0]] else []) + Pick(s[1..], which)
  }

  /** The longest stretch at the front that lies in `which`. */
  function Leading<T(==)>(s: seq<T>, which: set<T>): (p: seq<T>)
    ensures |p| <= |s|
  {
    if s == [] || s[0] !in which then [] else [s[0]] + Leading(s[1..], which)
  }

  lemma {:induction false} PickConcat<T>(a: seq<T>, b: seq<T>, which: set<T>)
    ensures Pick(a + b, which) == Pick(a, which) + Pick(b, which)
  {
    if a == [] {
      assert a + b == b;
    } else {
      var head := if a[0] in which then [a[0]] else [];
      assert (a + b)[0] == a[0] && (a + b)[1..] == a[1..] + b;
      PickConcat(a[1..], b, which);
      assert head + (Pick(a[1..], which) + Pick(b, which)) == head + Pick(a[1..], which) + Pick(b, which);
    }
  }

  lemma {:induction false} LeadingConcat<T>(a: seq<T>, b: seq<T>, which: set<T>)
    ensures |Leading(a, which)| == |a| ==> Leading(a, which) == a && Leading(a + b, which) == a + Leading(b, which)
    ensures |Leading(a, which)| < |a| ==> Leading(a + b, which) == Leading(a, which)
  {
    if a == [] {
      assert a + b == b;
    } else if a[0] in which {
      assert (a + b)[1..] == a[1..] + b && (a + b)[0] == a[0];
      LeadingConcat(a[1..], b, which);
      assert Leading(a + b, which) == [a[0]] + Leading(a[1..] + b, which);
      if |Leading(a[1..], which)| == |a[1..]| {
        assert Leading(a, which) == [a[0]] + a[1..] == a;
        assert [a[0]] + (a[1..] + Leading(b, which)) == a + Leading(b, which);
      }
    }
  }

  lemma {:induction false} LeadingSplits<T>(s: seq<T>, which: set<T>)
    ensures var p := Leading(s, which);
      && p == s[..|p|] && Pick(p, which) == p && (|p| < |s| ==> s[|p|] !in which)
      && Elements(p) <= which
  {
    if s != [] && s[0] in which {
      LeadingSplits(s[1..], which);
    }
  }

  lemma {:induction false} PickWithin<T>(s: seq<T>, which: set<T>)
    ensures Elements(Pick(s, which)) == Elements(s) * which
  {
    if s != [] {
      PickWithin(s[1..], which);
      var head := if s[0] in which then [s[0]] else [];
      assert Elements(s) == {s[0]} + Elements(s[1..]);
      assert Elements(head + Pick(s[1..], which)) == Elements(head) + Elements(Pick(s[1..], which));
    }
  }

  lemma {:induction false} PickIgnores<T>(s: seq<T>, which: set<T>, gone: set<T>)
    requires Elements(s) !! gone
    ensures Pick(s, which - gone) == Pick(s, which)
  {
    if s != [] {
      assert s[0] in Elements(s);
      assert Elements(s[1..]) <= Elements(s);
      PickIgnores(s[1..], which, gone);
    }
  }

  lemma {:induction false} PickNothing<T>(s: seq<T>, which: set<T>)
    requires Elements(s) !! which
    ensures Pick(s, which) == []
  {
    if s != [] {
      assert s[0] in Elements(s);
      assert Elements(s[1..]) <= Elements(s);
      PickNothing(s[1..], which);
    }
  }

  lemma PickAround<T>(p: seq<T>, x: T, q: seq<T>, which: set<T>)
    ensures Pick(p + [x] + q, which) == Pick(p, which) + (if x in which then [x] else []) + Pick(q, which)
  {
    PickConcat(p + [x], q, which);
    PickConcat(p, [x], which);
    assert Pick([x], which) == if x in which then [x] else [];
  }
}
