/** `itertools.product(*lists)` (setop.py, product mode): every way of
    choosing one line from each list, first list varying slowest. */
module Cartesian {
  import opened Bytes

  /** The product of the list lengths (1 for no lists). */
  function Count(lists: seq<seq<Line>>): nat
  {
    if lists == [] then 1 else |lists[0]| * Count(lists[1..])
  }

  /** Each head in turn, put in front of every tail in turn. */
  function PrependEach(heads: seq<Line>, tails: seq<seq<Line>>): (r: seq<seq<Line>>)
    ensures |r| == |heads| * |tails|
    ensures forall t :: t in r ==> t != [] && t[0] in heads && t[1..] in tails
  {
    if heads == [] then []
    else
      var block := seq(|tails|, j requires 0 <= j < |tails| => [heads[0]] + tails[j]);
      var rest := PrependEach(heads[1..], tails);
      assert forall t :: t in block ==> t != [] && t[0] in heads && t[1..] in tails by {
        forall t | t in block
          ensures t != [] && t[0] in heads && t[1..] in tails
        {
          var j :| 0 <= j < |tails| && block[j] == t;
          assert t[1..] == tails[j];
        }
      }
      assert |heads| * |tails| == |tails| + (|heads| - 1) * |tails|;
      block + rest
  }

  /** Head `a` followed by tail `b` stands at position `a * |tails| + b`. */
  lemma {:induction false} PrependEachAt(heads: seq<Line>, tails: seq<seq<Line>>, a: nat, b: nat)
    requires a < |heads| && b < |tails|
    ensures a * |tails| + b < |PrependEach(heads, tails)|
    ensures PrependEach(heads, tails)[a * |tails| + b] == [heads[a]] + tails[b]
  {
    var r := PrependEach(heads, tails);
    var t := |tails|;
    if a > 0 {
      PrependEachAt(heads[1..], tails, a - 1, b);
      var rest := PrependEach(heads[1..], tails);
      assert r == seq(t, j requires 0 <= j < t => [heads[0]] + tails[j]) + rest;
      assert a * t + b == t + ((a - 1) * t + b);
      assert r[a * t + b] == rest[(a - 1) * t + b];
    }
  }

  /** The tuples of `itertools.product(*lists)`, in the order it yields them. */
  function Product(lists: seq<seq<Line>>): (r: seq<seq<Line>>)
    ensures |r| == Count(lists)
    ensures forall t :: t in r ==> |t| == |lists|
    ensures forall t, i :: t in r && 0 <= i < |lists| ==> t[i] in lists[i]
  {
    if lists == [] then [[]]
    else
      var tails := Product(lists[1..]);
      var r := PrependEach(lists[0], tails);
      assert forall t, i :: t in r && 0 <= i < |lists| ==> t[i] in lists[i] by {
        forall t, i | t in r && 0 <= i < |lists|
          ensures t[i] in lists[i]
        {
          if i > 0 {
            assert t[1..] in tails;
            assert t[1..][i - 1] in lists[1..][i - 1];
          }
        }
      }
      r
  }

  /** The product of a single list is its elements, each as a one-tuple. */
  lemma ProductOfOneList(list: seq<Line>)
    ensures |Product([list])| == |list|
    ensures forall k :: 0 <= k < |list| ==> Product([list])[k] == [list[k]]
  {
    var lists := [list];
    assert lists[1..] == [];
    forall k | 0 <= k < |list|
      ensures Product(lists)[k] == [list[k]]
    {
      PrependEachAt(list, [[]], k, 0);
    }
  }

  /** One index per list, each in range: a position in every list. */
  ghost predicate ValidIndex(lists: seq<seq<Line>>, idx: seq<nat>)
  {
    |idx| == |lists| && forall i :: 0 <= i < |lists| ==> idx[i] < |lists[i]|
  }

  /** The tuple that takes element `idx[i]` of list `i` at every position `i`. */
  function Pick(lists: seq<seq<Line>>, idx: seq<nat>): (t: seq<Line>)
    requires ValidIndex(lists, idx)
    ensures |t| == |lists|
  {
    seq(|lists|, i requires 0 <= i < |lists| => lists[i][idx[i]])
  }

  /** The mixed-radix number with digits `idx` and digit bases the list lengths. */
  function Rank(lists: seq<seq<Line>>, idx: seq<nat>): nat
    requires |idx| == |lists|
  {
    if lists == [] then 0 else idx[0] * Count(lists[1..]) + Rank(lists[1..], idx[1..])
  }

  /** Lexicographic order of index tuples of one length. */
  ghost predicate LexLess(idx: seq<nat>, other: seq<nat>)
    requires |idx| == |other|
  {
    idx != [] && (idx[0] < other[0] || (idx[0] == other[0] && LexLess(idx[1..], other[1..])))
  }

  /** The tuple choosing `idx` stands at position `Rank(lists, idx)` of the product. */
  lemma {:induction false} ProductAt(lists: seq<seq<Line>>, idx: seq<nat>)
    requires ValidIndex(lists, idx)
    ensures Rank(lists, idx) < |Product(lists)|
    ensures Product(lists)[Rank(lists, idx)] == Pick(lists, idx)
  {
    if lists != [] {
      var tails := Product(lists[1..]);
      PickCons(lists, idx);
      ProductAt(lists[1..], idx[1..]);
      var b := Rank(lists[1..], idx[1..]);
      assert Rank(lists, idx) == idx[0] * |tails| + b;
      PrependEachAt(lists[0], tails, idx[0], b);
    }
  }

  lemma PickCons(lists: seq<seq<Line>>, idx: seq<nat>)
    requires ValidIndex(lists, idx) && lists != []
    ensures ValidIndex(lists[1..], idx[1..])
    ensures Pick(lists, idx) == [lists[0][idx[0]]] + Pick(lists[1..], idx[1..])
  {
    assert forall i :: 0 <= i < |lists| - 1 ==> lists[1..][i] == lists[i + 1] && idx[1..][i] == idx[i + 1];
  }

  lemma DivBelow(k: nat, n: nat, c: nat)
    requires k < n * c
    ensures c > 0 && k / c < n && k == (k / c) * c + k % c
  {
  }

  /** Every position of the product holds the tuple of some index tuple. */
  lemma {:induction false} ProductIndexOnto(lists: seq<seq<Line>>, k: nat)
    requires k < Count(lists)
    ensures exists idx :: ValidIndex(lists, idx) && Rank(lists, idx) == k
  {
    if lists == [] {
      assert ValidIndex(lists, []) && Rank(lists, []) == 0;
    } else {
      var c := Count(lists[1..]);
      DivBelow(k, |lists[0]|, c);
      var a, b := k / c, k % c;
      ProductIndexOnto(lists[1..], b);
      var rest :| ValidIndex(lists[1..], rest) && Rank(lists[1..], rest) == b;
      var idx := [a] + rest;
      assert idx[1..] == rest;
      assert ValidIndex(lists, idx);
      assert Rank(lists, idx) == a * c + b;
    }
  }

  /** The rank of a valid index tuple is below the number of tuples. */
  lemma {:induction false} RankBelowCount(lists: seq<seq<Line>>, idx: seq<nat>)
    requires ValidIndex(lists, idx)
    ensures Rank(lists, idx) < Count(lists)
  {
    ProductAt(lists, idx);
  }

  /** Index tuples in lexicographic order stand in the same order in the
      product: first list slowest, last list fastest. */
  lemma {:induction false} RankMonotone(lists: seq<seq<Line>>, idx: seq<nat>, other: seq<nat>)
    requires ValidIndex(lists, idx) && ValidIndex(lists, other)
    requires LexLess(idx, other)
    ensures Rank(lists, idx) < Rank(lists, other)
  {
    var c := Count(lists[1..]);
    PickCons(lists, idx);
    PickCons(lists, other);
    var r, q := Rank(lists[1..], idx[1..]), Rank(lists[1..], other[1..]);
    assert Rank(lists, idx) == idx[0] * c + r;
    assert Rank(lists, other) == other[0] * c + q;
    if idx[0] < other[0] {
      RankBelowCount(lists[1..], idx[1..]);
      DigitDominates(idx[0], other[0], c, r, q);
    } else {
      RankMonotone(lists[1..], idx[1..], other[1..]);
    }
  }

  /** A smaller leading digit gives a smaller number, whatever the lower digits. */
  lemma DigitDominates(a: nat, b: nat, c: nat, r: nat, q: nat)
    requires a < b && r < c
    ensures a * c + r < b * c + q
  {
    assert (a + 1) * c <= b * c;
  }
}
