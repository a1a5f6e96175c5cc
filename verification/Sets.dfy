/** Optional values. */
module Options {
  datatype Option<T> = None | Some(value: T)
}

/** Counting finite sets. */
module Sets {
  ghost function Elements<T>(qs: seq<T>): set<T> {
    set q | q in qs
  }

  lemma Pick<T>(s: set<T>) returns (x: T)
    requires |s| > 0
    ensures x in s
  {
    x :| x in s;
  }

  lemma SubsetCount<T>(a: set<T>, b: set<T>)
    requires a <= b
    ensures |a| <= |b|
  {
    assert b == a + (b - a);
  }

  lemma UnionCount<T>(a: set<T>, b: set<T>)
    ensures |a + b| <= |a| + |b|
    ensures a !! b ==> |a + b| == |a| + |b|
  {
    assert a + b == a + (b - a);
    assert b == (b - a) + (a * b);
  }

  /** A set with more elements than b has one outside b. */
  lemma Extra<T>(a: set<T>, b: set<T>) returns (x: T)
    requires |a| > |b|
    ensures x in a && x !in b
  {
    if a <= b {
      SubsetCount(a, b);
    }
    x := Pick(a - b);
  }

  lemma FullSubset<T>(a: set<T>, b: set<T>)
    requires a <= b && |a| >= |b|
    ensures a == b
  {
    assert b == a + (b - a);
    assert |b| == |a| + |b - a|;
  }

  lemma {:induction false} DistinctCount<T>(qs: seq<T>)
    requires forall i, j :: 0 <= i < j < |qs| ==> qs[i] != qs[j]
    ensures |Elements(qs)| == |qs|
  {
    if qs == [] {
      assert Elements(qs) == {};
    } else {
      var rest := qs[..|qs| - 1];
      DistinctCount(rest);
      assert Elements(qs) == Elements(rest) + {qs[|qs| - 1]};
    }
  }
}
