/** The byte-wise order in which the store lays out the keys of a mapping. The code
    calls the library's stable sort; `SortByKey` is its specification. */
module KeyOrder {
  import opened Common

  datatype Pair = Pair(key: Bytes, value: Bytes)

  type Mapping = seq<Pair>

  /** The lexicographic order of byte slices. */
  predicate LexLe(a: Bytes, b: Bytes) {
    a == [] || (b != [] && (a[0] < b[0] || (a[0] == b[0] && LexLe(a[1..], b[1..]))))
  }

  lemma {:induction false} LexTotal(a: Bytes, b: Bytes)
    ensures LexLe(a, b) || LexLe(b, a)
    ensures LexLe(a, b) && LexLe(b, a) ==> a == b
  {
    if a != [] && b != [] && a[0] == b[0] {
      LexTotal(a[1..], b[1..]);
      assert a == [a[0]] + a[1..] && b == [b[0]] + b[1..];
    }
  }

  lemma {:induction false} LexTransitive(a: Bytes, b: Bytes, c: Bytes)
    requires LexLe(a, b) && LexLe(b, c)
    ensures LexLe(a, c)
  {
    if a != [] && a[0] == b[0] == c[0] {
      LexTransitive(a[1..], b[1..], c[1..]);
    }
  }

  /** `b` is longer than its prefix `a`, or greater in the first byte in which they differ. */
  lemma {:induction false} LexLeIs(a: Bytes, b: Bytes)
    ensures LexLe(a, b) <==> a <= b || exists i :: 0 <= i < |a| && i < |b| && a[..i] == b[..i] && a[i] < b[i]
  {
    if a == [] {
    } else if b == [] || a[0] > b[0] {
      NoLaterDifference(a, b);
    } else if a[0] < b[0] {
      assert a[..0] == b[..0];
    } else {
      LexLeIs(a[1..], b[1..]);
      LexLeSteps(a, b);
    }
  }

  lemma NoLaterDifference(a: Bytes, b: Bytes)
    ensures forall i :: 0 < i < |a| && i < |b| && a[..i] == b[..i] ==> a[0] == b[0]
  {
    forall i | 0 < i < |a| && i < |b| && a[..i] == b[..i] ensures a[0] == b[0] {
      assert a[..i][0] == b[..i][0];
    }
  }

  lemma LexLeSteps(a: Bytes, b: Bytes)
    requires a != [] && b != [] && a[0] == b[0]
    ensures a <= b <==> a[1..] <= b[1..]
    ensures (exists i :: 0 <= i < |a| && i < |b| && a[..i] == b[..i] && a[i] < b[i]) <==>
            (exists i :: 0 <= i < |a[1..]| && i < |b[1..]| && a[1..][..i] == b[1..][..i] && a[1..][i] < b[1..][i])
  {
    assert a == [a[0]] + a[1..] && b == [b[0]] + b[1..];
    forall i | 0 <= i < |a| && i < |b| && a[..i] == b[..i] && a[i] < b[i]
      ensures i > 0 && a[1..][..i - 1] == b[1..][..i - 1] && a[1..][i - 1] < b[1..][i - 1]
    {
      assert a[1..][..i - 1] == a[..i][1..] && b[1..][..i - 1] == b[..i][1..];
    }
    forall i | 0 <= i < |a[1..]| && i < |b[1..]| && a[1..][..i] == b[1..][..i] && a[1..][i] < b[1..][i]
      ensures a[..i + 1] == b[..i + 1] && a[i + 1] < b[i + 1]
    {
      assert a[..i + 1] == [a[0]] + a[1..][..i] && b[..i + 1] == [b[0]] + b[1..][..i];
    }
  }

  function Insert(p: Pair, sorted: Mapping): Mapping {
    if sorted == [] || LexLe(p.key, sorted[0].key) then [p] + sorted
    else [sorted[0]] + Insert(p, sorted[1..])
  }

  /** Stable: pairs with equal keys keep their order. */
  function SortByKey(pairs: Mapping): Mapping {
    if pairs == [] then [] else Insert(pairs[0], SortByKey(pairs[1..]))
  }

  ghost predicate Ascending(pairs: Mapping) {
    forall i, j :: 0 <= i < j < |pairs| ==> LexLe(pairs[i].key, pairs[j].key)
  }

  ghost predicate DistinctKeys(pairs: Mapping) {
    forall i, j :: 0 <= i < j < |pairs| ==> pairs[i].key != pairs[j].key
  }

  lemma AscendingCons(p: Pair, rest: Mapping)
    requires Ascending(rest) && forall x :: x in rest ==> LexLe(p.key, x.key)
    ensures Ascending([p] + rest)
  {
    hide LexLe;
  }

  lemma {:induction false} InsertSorts(p: Pair, sorted: Mapping)
    requires Ascending(sorted)
    ensures Ascending(Insert(p, sorted))
    ensures multiset(Insert(p, sorted)) == multiset{p} + multiset(sorted)
  {
    hide LexLe;
    if sorted == [] {
    } else if LexLe(p.key, sorted[0].key) {
      forall x | x in sorted ensures LexLe(p.key, x.key) {
        if x != sorted[0] {
          LexTransitive(p.key, sorted[0].key, x.key);
        }
      }
      AscendingCons(p, sorted);
    } else {
      var rest := Insert(p, sorted[1..]);
      InsertSorts(p, sorted[1..]);
      LexTotal(p.key, sorted[0].key);
      assert sorted == [sorted[0]] + sorted[1..];
      forall x | x in rest ensures LexLe(sorted[0].key, x.key) {
        assert x in multiset(rest);
        assert x == p || x in sorted[1..];
      }
      AscendingCons(sorted[0], rest);
    }
  }

  /** The sorted mapping holds the same pairs, in ascending order of their keys. */
  lemma {:induction false} SortByKeySorts(pairs: Mapping)
    ensures Ascending(SortByKey(pairs))
    ensures multiset(SortByKey(pairs)) == multiset(pairs)
    ensures |SortByKey(pairs)| == |pairs|
  {
    hide Insert, Ascending;
    if pairs == [] {
      NothingToSort();
    } else {
      SortByKeySorts(pairs[1..]);
      InsertSorts(pairs[0], SortByKey(pairs[1..]));
      assert pairs == [pairs[0]] + pairs[1..];
    }
    SameLength(SortByKey(pairs), pairs);
  }

  lemma NothingToSort()
    ensures Ascending([])
  {
  }

  lemma DistinctKeysOfMultiset(a: Mapping, b: Mapping)
    requires multiset(a) == multiset(b) && DistinctKeys(a)
    ensures DistinctKeys(b)
  {
    forall i, j | 0 <= i < j < |b| ensures b[i].key != b[j].key {
      if b[i].key == b[j].key {
        assert b[i] in multiset(a) && b[j] in multiset(a);
        var i', j' :| 0 <= i' < |a| && a[i'] == b[i] && 0 <= j' < |a| && a[j'] == b[j];
        assert i' == j';
        assert b[j] == b[i];
        TwiceInMultiset(b, i, j);
        OnceInDistinct(a, i');
      }
    }
  }

  lemma TwiceInMultiset(b: Mapping, i: nat, j: nat)
    requires i < j < |b| && b[i] == b[j]
    ensures multiset(b)[b[i]] >= 2
  {
    assert b == b[..i] + [b[i]] + b[i + 1..j] + [b[j]] + b[j + 1..];
  }

  lemma OnceInDistinct(a: Mapping, i: nat)
    requires i < |a| && DistinctKeys(a)
    ensures multiset(a)[a[i]] == 1
  {
    assert a == a[..i] + [a[i]] + a[i + 1..];
    assert a[i] !in a[..i] && a[i] !in a[i + 1..];
  }

  lemma AscendingHead(a: Mapping, b: Mapping)
    requires Ascending(a) && Ascending(b) && multiset(a) == multiset(b) && DistinctKeys(a)
    requires a != [] && b != []
    ensures a[0] == b[0]
  {
    hide LexLe;
    assert a[0] in multiset(b) && b[0] in multiset(a);
    var i :| 0 <= i < |b| && b[i] == a[0];
    var j :| 0 <= j < |a| && a[j] == b[0];
    LexTotal(a[0].key, b[0].key);
  }

  lemma TailMultiset(a: Mapping, b: Mapping)
    requires a != [] && b != [] && a[0] == b[0] && multiset(a) == multiset(b)
    ensures multiset(a[1..]) == multiset(b[1..])
  {
    assert a == [a[0]] + a[1..] && b == [b[0]] + b[1..];
    assert multiset(a[1..]) == multiset(a) - multiset{a[0]};
    assert multiset(b[1..]) == multiset(b) - multiset{b[0]};
  }

  lemma TailKeeps(a: Mapping)
    requires a != []
    ensures DistinctKeys(a) ==> DistinctKeys(a[1..])
    ensures Ascending(a) ==> Ascending(a[1..])
  {
    hide LexLe;
  }

  lemma SameLength(a: Mapping, b: Mapping)
    requires multiset(a) == multiset(b)
    ensures |a| == |b|
  {
    assert |multiset(a)| == |a| && |multiset(b)| == |b|;
  }

  lemma {:induction false} AscendingIsUnique(a: Mapping, b: Mapping)
    requires Ascending(a) && Ascending(b) && multiset(a) == multiset(b) && DistinctKeys(a)
    ensures a == b
  {
    hide Ascending, DistinctKeys;
    SameLength(a, b);
    if a != [] {
      AscendingHead(a, b);
      TailMultiset(a, b);
      TailKeeps(a);
      TailKeeps(b);
      AscendingIsUnique(a[1..], b[1..]);
      assert a == [a[0]] + a[1..] && b == [b[0]] + b[1..];
    }
  }

  /** The layout of a mapping depends only on its pairs, not on the order in which
      they are listed. */
  lemma {:induction false} SortByKeyIsCanonical(a: Mapping, b: Mapping)
    requires multiset(a) == multiset(b) && DistinctKeys(a)
    ensures SortByKey(a) == SortByKey(b)
  {
    SortByKeySorts(a);
    SortByKeySorts(b);
    DistinctKeysOfMultiset(a, SortByKey(a));
    AscendingIsUnique(SortByKey(a), SortByKey(b));
  }

  function Keys(pairs: Mapping): (r: seq<Bytes>)
    ensures |r| == |pairs| && forall i :: 0 <= i < |r| ==> r[i] == pairs[i].key
  {
    seq(|pairs|, i requires 0 <= i < |pairs| => pairs[i].key)
  }

  function Values(pairs: Mapping): (r: seq<Bytes>)
    ensures |r| == |pairs| && forall i :: 0 <= i < |r| ==> r[i] == pairs[i].value
  {
    seq(|pairs|, i requires 0 <= i < |pairs| => pairs[i].value)
  }
}
