/** Python's `sorted` applied to a set of lines: the distinct lines in ascending byte order. */
module Sorting {
  import opened Bytes

  /** Every element is strictly below every later one; so no line occurs twice. */
  ghost predicate StrictlyAscending(s: seq<Line>)
  {
    forall i, j :: 0 <= i < j < |s| ==> Less(s[i], s[j])
  }

  /** `m` is the smallest line of `s`. */
  predicate IsLeast(m: Line, s: set<Line>)
  {
    m in s && forall y :: y in s && y != m ==> Less(m, y)
  }

  lemma {:induction false} LeastExists(s: set<Line>)
    requires s != {}
    ensures exists m :: IsLeast(m, s)
    decreases |s|
  {
    var x :| x in s;
    if s != {x} {
      var rest := s - {x};
      LeastExists(rest);
      var m :| IsLeast(m, rest);
      LessTotal(x, m);
      if Less(x, m) {
        forall y | y in s && y != x
          ensures Less(x, y)
        {
          if y != m {
            LessTransitive(x, m, y);
          }
        }
        assert IsLeast(x, s);
      } else {
        assert IsLeast(m, s);
      }
    } else {
      assert IsLeast(x, s);
    }
  }

  lemma LeastUnique(s: set<Line>)
    ensures forall a, b :: IsLeast(a, s) && IsLeast(b, s) ==> a == b
  {
    forall a, b | IsLeast(a, s) && IsLeast(b, s)
      ensures a == b
    {
      LessAsymmetric(a, b);
    }
  }

  /** The smallest line of a non-empty set. */
  function Least(s: set<Line>): (m: Line)
    requires s != {}
    ensures m in s
    ensures forall y :: y in s && y != m ==> Less(m, y)
  {
    LeastExists(s);
    LeastUnique(s);
    var m :| IsLeast(m, s); m
  }

  /** `sorted(s)` for a set `s` of lines. */
  function SortedLines(s: set<Line>): (r: seq<Line>)
    ensures StrictlyAscending(r)
    ensures forall x :: x in r <==> x in s
    ensures |r| == |s|
    decreases |s|
  {
    if s == {} then []
    else
      var m := Least(s);
      var rest := SortedLines(s - {m});
      assert forall j :: 0 <= j < |rest| ==> Less(m, rest[j]) by {
        forall j | 0 <= j < |rest| ensures Less(m, rest[j]) {
          assert rest[j] in s - {m};
        }
      }
      [m] + rest
  }

  /** A strictly ascending sequence holds no line twice. */
  lemma AscendingDistinct(r: seq<Line>)
    requires StrictlyAscending(r)
    ensures forall i, j :: 0 <= i < j < |r| ==> r[i] != r[j]
  {
    forall i, j | 0 <= i < j < |r|
      ensures r[i] != r[j]
    {
      LessIrreflexive(r[i]);
    }
  }

  /** A set has exactly one strictly ascending listing, so `SortedLines` is
      determined by its contract: any ascending listing of `s` is `sorted(s)`. */
  lemma {:induction false} SortedLinesUnique(r: seq<Line>, s: set<Line>)
    requires StrictlyAscending(r)
    requires forall x :: x in r <==> x in s
    ensures r == SortedLines(s)
    decreases |r|
  {
    if r == [] {
      assert s == {};
    } else {
      HeadIsLeast(r, s);
      TailListsRest(r, s);
      SortedLinesUnique(r[1..], s - {r[0]});
      SortedLinesUnfold(s);
      assert r == [r[0]] + r[1..];
    }
  }

  lemma SortedLinesUnfold(s: set<Line>)
    requires s != {}
    ensures SortedLines(s) == [Least(s)] + SortedLines(s - {Least(s)})
  {
  }

  /** The first line of an ascending listing of `s` is the least line of `s`. */
  lemma HeadIsLeast(r: seq<Line>, s: set<Line>)
    requires StrictlyAscending(r) && r != []
    requires forall x :: x in r <==> x in s
    ensures s != {} && r[0] == Least(s)
  {
    assert r[0] in s;
    var m := Least(s);
    if r[0] != m {
      var k :| 0 <= k < |r| && r[k] == m;
      LessAsymmetric(m, r[0]);
    }
  }

  /** The rest of an ascending listing lists the rest of the set, ascending. */
  lemma TailListsRest(r: seq<Line>, s: set<Line>)
    requires StrictlyAscending(r) && r != []
    requires forall x :: x in r <==> x in s
    ensures StrictlyAscending(r[1..])
    ensures forall x :: x in r[1..] <==> x in s - {r[0]}
  {
    var rest := r[1..];
    forall i, j | 0 <= i < j < |rest|
      ensures Less(rest[i], rest[j])
    {
      assert rest[i] == r[i + 1] && rest[j] == r[j + 1];
    }
    forall x
      ensures x in rest <==> x in s - {r[0]}
    {
      if x in rest {
        var k :| 0 <= k < |rest| && rest[k] == x;
        assert Less(r[0], r[k + 1]);
        LessIrreflexive(x);
      }
      if x in s - {r[0]} {
        var k :| 0 <= k < |r| && r[k] == x;
        assert rest[k - 1] == x;
      }
    }
  }
}
