/**
 * Stable ordering by descending key, the behaviour of LINQ's OrderByDescending: keys end
 * up non-increasing, the result is a permutation of the input, and entries with equal
 * keys keep their input order.
 */
module Ordering {

  /** An element's position in the input together with its sort key. */
  datatype Entry = Entry(index: nat, key: int)

  predicate NonIncreasing(s: seq<Entry>)
  {
    forall i, j :: 0 <= i < j < |s| ==> s[i].key >= s[j].key
  }

  /** Among equal keys, positions increase. */
  predicate TiesInInputOrder(s: seq<Entry>)
  {
    forall i, j :: 0 <= i < j < |s| && s[i].key == s[j].key ==> s[i].index < s[j].index
  }

  predicate IncreasingIndices(s: seq<Entry>)
  {
    forall i, j :: 0 <= i < j < |s| ==> s[i].index < s[j].index
  }

  /** Puts `x` in front of the first entry whose key is not larger than its own. */
  function Insert(x: Entry, s: seq<Entry>): seq<Entry>
    decreases |s|
  {
    if s == [] || s[0].key <= x.key then [x] + s
    else [s[0]] + Insert(x, s[1..])
  }

  /** Insertion sort, inserting later entries first so that earlier ones win ties. */
  function SortDescending(s: seq<Entry>): seq<Entry>
    decreases |s|
  {
    if s == [] then [] else Insert(s[0], SortDescending(s[1..]))
  }

  lemma {:induction false} InsertPermutes(x: Entry, s: seq<Entry>)
    ensures multiset(Insert(x, s)) == multiset(s) + multiset{x}
    decreases |s|
  {
    if s == [] || s[0].key <= x.key {
    } else {
      InsertPermutes(x, s[1..]);
      assert s == [s[0]] + s[1..];
    }
  }

  lemma {:induction false} InsertMembers(x: Entry, s: seq<Entry>)
    ensures |Insert(x, s)| == |s| + 1
    ensures forall e :: e in Insert(x, s) ==> e == x || e in s
    decreases |s|
  {
    if s == [] || s[0].key <= x.key {
    } else {
      InsertMembers(x, s[1..]);
    }
  }

  lemma {:induction false} InsertSorted(x: Entry, s: seq<Entry>)
    requires NonIncreasing(s)
    ensures NonIncreasing(Insert(x, s))
    decreases |s|
  {
    if s == [] || s[0].key <= x.key {
    } else {
      InsertSorted(x, s[1..]);
      InsertMembers(x, s[1..]);
      var r := Insert(x, s[1..]);
      assert forall k :: 0 <= k < |r| ==> r[k] in r;
    }
  }

  /** The head of a tie-ordered sequence comes before every later entry with its key. */
  lemma HeadBeforeTies(s: seq<Entry>)
    requires s != [] && TiesInInputOrder(s)
    ensures forall e :: e in s[1..] && e.key == s[0].key ==> s[0].index < e.index
  {
    forall e | e in s[1..] && e.key == s[0].key
      ensures s[0].index < e.index
    {
      var k :| 0 <= k < |s[1..]| && s[1..][k] == e;
      assert s[k + 1] == e;
    }
  }

  /** Putting an entry in front keeps ties in order when it comes before every later tie. */
  lemma ConsTies(h: Entry, r: seq<Entry>)
    requires TiesInInputOrder(r)
    requires forall e :: e in r && e.key == h.key ==> h.index < e.index
    ensures TiesInInputOrder([h] + r)
  {
    var out := [h] + r;
    forall i, j | 0 <= i < j < |out| && out[i].key == out[j].key
      ensures out[i].index < out[j].index
    {
      if i == 0 {
        assert out[j] == r[j - 1] && r[j - 1] in r;
      } else {
        assert out[i] == r[i - 1] && out[j] == r[j - 1];
      }
    }
  }

  lemma {:induction false} InsertStable(x: Entry, s: seq<Entry>)
    requires NonIncreasing(s) && TiesInInputOrder(s)
    requires forall e :: e in s ==> x.index < e.index
    ensures TiesInInputOrder(Insert(x, s))
    decreases |s|
  {
    if s == [] || s[0].key <= x.key {
    } else {
      var tail := s[1..];
      assert NonIncreasing(tail) && TiesInInputOrder(tail);
      assert forall e :: e in tail ==> e in s;
      InsertStable(x, tail);
      InsertMembers(x, tail);
      HeadBeforeTies(s);
      ConsTies(s[0], Insert(x, tail));
    }
  }

  lemma {:induction false} SortPermutes(s: seq<Entry>)
    ensures multiset(SortDescending(s)) == multiset(s)
    decreases |s|
  {
    if s != [] {
      SortPermutes(s[1..]);
      InsertPermutes(s[0], SortDescending(s[1..]));
      assert s == [s[0]] + s[1..];
    }
  }

  lemma {:induction false} SortSorted(s: seq<Entry>)
    ensures NonIncreasing(SortDescending(s))
    decreases |s|
  {
    if s != [] {
      SortSorted(s[1..]);
      InsertSorted(s[0], SortDescending(s[1..]));
    }
  }

  lemma {:induction false} SortStable(s: seq<Entry>)
    requires IncreasingIndices(s)
    ensures TiesInInputOrder(SortDescending(s))
    decreases |s|
  {
    if s != [] {
      var rest := SortDescending(s[1..]);
      SortStable(s[1..]);
      SortSorted(s[1..]);
      SortPermutes(s[1..]);
      forall e | e in rest ensures s[0].index < e.index
      {
        assert e in multiset(rest);
        assert e in s[1..];
      }
      InsertStable(s[0], rest);
    }
  }

  function Indexed(keys: seq<int>): (s: seq<Entry>)
    ensures |s| == |keys| && IncreasingIndices(s)
    ensures forall i :: 0 <= i < |s| ==> s[i] == Entry(i, keys[i])
  {
    seq(|keys|, i requires 0 <= i < |keys| => Entry(i, keys[i]))
  }

  function Indices(s: seq<Entry>): (r: seq<nat>)
    ensures |r| == |s| && forall i :: 0 <= i < |s| ==> r[i] == s[i].index
  {
    if s == [] then [] else [s[0].index] + Indices(s[1..])
  }

  /** The positions of `keys`, ordered by descending key, ties in input order. */
  function OrderByDescending(keys: seq<int>): seq<nat>
  {
    Indices(SortDescending(Indexed(keys)))
  }

  lemma MultisetIndexed(keys: seq<int>, e: Entry)
    ensures multiset(Indexed(keys))[e] == if e.index < |keys| && e.key == keys[e.index] then 1 else 0
  {
    var s := Indexed(keys);
    if e.index < |keys| && e.key == keys[e.index] {
      var k := e.index;
      assert s[k] == e;
      assert s == s[..k] + [e] + s[k + 1..];
      assert e !in s[..k];
      assert e !in s[k + 1..];
    } else {
      assert e !in s;
    }
  }

  lemma SortedFromIndexed(keys: seq<int>)
    ensures var sorted := SortDescending(Indexed(keys));
      && |sorted| == |keys|
      && forall i :: 0 <= i < |sorted| ==> sorted[i].index < |keys| && sorted[i].key == keys[sorted[i].index]
  {
    var s := Indexed(keys);
    var sorted := SortDescending(s);
    SortPermutes(s);
    assert |sorted| == |s| by {
      assert |multiset(sorted)| == |multiset(s)|;
    }
    forall i | 0 <= i < |sorted|
      ensures sorted[i].index < |keys| && sorted[i].key == keys[sorted[i].index]
    {
      var e := sorted[i];
      assert e in multiset(sorted);
      MultisetIndexed(keys, e);
    }
  }

  lemma SortedFromIndexedDistinct(keys: seq<int>)
    ensures var sorted := SortDescending(Indexed(keys));
      forall i, j :: 0 <= i < j < |sorted| ==> sorted[i].index != sorted[j].index
  {
    var s := Indexed(keys);
    var sorted := SortDescending(s);
    SortPermutes(s);
    SortedFromIndexed(keys);
    forall i, j | 0 <= i < j < |sorted| ensures sorted[i].index != sorted[j].index
    {
      if sorted[i].index == sorted[j].index {
        var e := sorted[i];
        assert sorted[j] == e;
        assert multiset(sorted)[e] >= 2 by {
          assert sorted == sorted[..j] + [e] + sorted[j + 1..];
          assert e in sorted[..j];
        }
        MultisetIndexed(keys, e);
      }
    }
  }

  /**
   * OrderByDescending returns each position exactly once, the keys it visits never
   * increase, and positions with equal keys stay in input order.
   */
  lemma OrderByDescendingCorrect(keys: seq<int>)
    ensures var order := OrderByDescending(keys);
      && |order| == |keys|
      && (forall i :: 0 <= i < |order| ==> order[i] < |keys|)
      && (forall i, j :: 0 <= i < j < |order| ==> order[i] != order[j])
      && (forall i, j :: 0 <= i < j < |order| ==> keys[order[i]] >= keys[order[j]])
      && (forall i, j :: 0 <= i < j < |order| && keys[order[i]] == keys[order[j]] ==> order[i] < order[j])
  {
    var sorted := SortDescending(Indexed(keys));
    SortSorted(Indexed(keys));
    SortStable(Indexed(keys));
    SortedFromIndexed(keys);
    SortedFromIndexedDistinct(keys);
  }

  /** Every position of `keys` occurs in OrderByDescending(keys): with the above, a permutation. */
  lemma OrderByDescendingCovers(keys: seq<int>, k: nat)
    requires k < |keys|
    ensures exists i :: 0 <= i < |OrderByDescending(keys)| && OrderByDescending(keys)[i] == k
  {
    var sorted := SortDescending(Indexed(keys));
    var e := Entry(k, keys[k]);
    SortPermutes(Indexed(keys));
    MultisetIndexed(keys, e);
    assert e in multiset(sorted);
    var i :| 0 <= i < |sorted| && sorted[i] == e;
    assert OrderByDescending(keys)[i] == k;
  }
}
