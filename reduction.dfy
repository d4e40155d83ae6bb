/** `reduce_line_sets` (setop.py): a left fold of one binary set operation
    over the per-file line sets, in file order. */
module Reduction {
  import opened Bytes

  /** The set operation behind `-u`, `-i` and `-d`. */
  datatype Op = Union | Intersection | Difference

  /** `set.union`, `set.intersection` or `set.difference` of two sets. */
  function Apply(op: Op, a: set<Line>, b: set<Line>): (r: set<Line>)
    ensures forall x :: x in r <==>
      match op
      case Union => x in a || x in b
      case Intersection => x in a && x in b
      case Difference => x in a && x !in b
  {
    match op
    case Union => a + b
    case Intersection => a * b
    case Difference => a - b
  }

  /** `functools.reduce(function, rest, acc)`. */
  function FoldLeft(op: Op, acc: set<Line>, rest: seq<set<Line>>): set<Line>
    decreases |rest|
  {
    if rest == [] then acc else FoldLeft(op, Apply(op, acc, rest[0]), rest[1..])
  }

  /** `reduce_line_sets(files, function)`: no files give the empty set,
      otherwise the first set is folded with the others. */
  function Reduce(sets: seq<set<Line>>, op: Op): (r: set<Line>)
    ensures sets == [] ==> r == {}
    ensures |sets| == 1 ==> r == sets[0]
  {
    if |sets| >= 1 then FoldLeft(op, sets[0], sets[1..]) else {}
  }

  lemma {:induction false} FoldLeftSnoc(op: Op, acc: set<Line>, rest: seq<set<Line>>, s: set<Line>)
    ensures FoldLeft(op, acc, rest + [s]) == Apply(op, FoldLeft(op, acc, rest), s)
    decreases |rest|
  {
    if rest != [] {
      assert (rest + [s])[1..] == rest[1..] + [s];
      FoldLeftSnoc(op, Apply(op, acc, rest[0]), rest[1..], s);
    }
  }

  /** N files give `op(...op(op(s1, s2), s3)..., sN)`: adding one more file
      applies the operation once more, to the result so far. */
  lemma ReduceSnoc(sets: seq<set<Line>>, s: set<Line>, op: Op)
    requires sets != []
    ensures Reduce(sets + [s], op) == Apply(op, Reduce(sets, op), s)
  {
    assert (sets + [s])[1..] == sets[1..] + [s];
    FoldLeftSnoc(op, sets[0], sets[1..], s);
  }

  lemma {:induction false} FoldUnion(acc: set<Line>, rest: seq<set<Line>>, x: Line)
    ensures x in FoldLeft(Union, acc, rest) <==> x in acc || exists i :: 0 <= i < |rest| && x in rest[i]
    decreases |rest|
  {
    if rest != [] {
      FoldUnion(acc + rest[0], rest[1..], x);
      if exists i :: 0 <= i < |rest| - 1 && x in rest[1..][i] {
        var i :| 0 <= i < |rest| - 1 && x in rest[1..][i];
        assert x in rest[i + 1];
      }
      if exists i :: 0 <= i < |rest| && x in rest[i] {
        var i :| 0 <= i < |rest| && x in rest[i];
        assert i == 0 || x in rest[1..][i - 1];
      }
    }
  }

  lemma {:induction false} FoldIntersection(acc: set<Line>, rest: seq<set<Line>>, x: Line)
    ensures x in FoldLeft(Intersection, acc, rest) <==> x in acc && forall i :: 0 <= i < |rest| ==> x in rest[i]
    decreases |rest|
  {
    if rest != [] {
      FoldIntersection(acc * rest[0], rest[1..], x);
      if x in acc && x in rest[0] && forall i :: 0 <= i < |rest| - 1 ==> x in rest[1..][i] {
        forall i | 0 <= i < |rest|
          ensures x in rest[i]
        {
          if i > 0 {
            assert x in rest[1..][i - 1];
          }
        }
      }
    }
  }

  lemma {:induction false} FoldDifference(acc: set<Line>, rest: seq<set<Line>>, x: Line)
    ensures x in FoldLeft(Difference, acc, rest) <==> x in acc && forall i :: 0 <= i < |rest| ==> x !in rest[i]
    decreases |rest|
  {
    if rest != [] {
      FoldDifference(acc - rest[0], rest[1..], x);
      if x in acc && x !in rest[0] && forall i :: 0 <= i < |rest| - 1 ==> x !in rest[1..][i] {
        forall i | 0 <= i < |rest|
          ensures x !in rest[i]
        {
          if i > 0 {
            assert x !in rest[1..][i - 1];
          }
        }
      }
    }
  }

  /** Union: a line is in the result iff it is in some file. */
  lemma UnionMembership(sets: seq<set<Line>>, x: Line)
    ensures x in Reduce(sets, Union) <==> exists i :: 0 <= i < |sets| && x in sets[i]
  {
    if sets != [] {
      FoldUnion(sets[0], sets[1..], x);
      if exists i :: 0 <= i < |sets| && x in sets[i] {
        var i :| 0 <= i < |sets| && x in sets[i];
        assert i == 0 || x in sets[1..][i - 1];
      }
    }
  }

  /** Intersection: with at least one file, a line is in the result iff it
      is in every file; with none the result is empty. */
  lemma IntersectionMembership(sets: seq<set<Line>>, x: Line)
    ensures x in Reduce(sets, Intersection) <==> sets != [] && forall i :: 0 <= i < |sets| ==> x in sets[i]
  {
    if sets != [] {
      FoldIntersection(sets[0], sets[1..], x);
      if x in sets[0] && forall i :: 0 <= i < |sets| - 1 ==> x in sets[1..][i] {
        forall i | 0 <= i < |sets|
          ensures x in sets[i]
        {
          if i > 0 {
            assert x in sets[1..][i - 1];
          }
        }
      }
    }
  }

  /** Difference: a line is in the result iff it is in the first file and in
      none of the others; with no file the result is empty. */
  lemma DifferenceMembership(sets: seq<set<Line>>, x: Line)
    ensures x in Reduce(sets, Difference) <==>
      sets != [] && x in sets[0] && forall i :: 1 <= i < |sets| ==> x !in sets[i]
  {
    if sets != [] {
      FoldDifference(sets[0], sets[1..], x);
      if x in sets[0] && forall i :: 0 <= i < |sets| - 1 ==> x !in sets[1..][i] {
        forall i | 1 <= i < |sets|
          ensures x !in sets[i]
        {
          assert x !in sets[1..][i - 1];
        }
      }
    }
  }

  /** Union and intersection do not depend on the order of the files, nor on
      a file being given twice: only on which sets are given. */
  lemma UnionIntersectionOrderFree(sets: seq<set<Line>>, others: seq<set<Line>>, op: Op)
    requires op != Difference
    requires forall s :: s in sets <==> s in others
    ensures Reduce(sets, op) == Reduce(others, op)
  {
    forall x
      ensures x in Reduce(sets, op) <==> x in Reduce(others, op)
    {
      if op == Union {
        UnionMembership(sets, x);
        UnionMembership(others, x);
        if exists i :: 0 <= i < |sets| && x in sets[i] {
          var i :| 0 <= i < |sets| && x in sets[i];
          assert sets[i] in others;
        }
        if exists i :: 0 <= i < |others| && x in others[i] {
          var i :| 0 <= i < |others| && x in others[i];
          assert others[i] in sets;
        }
      } else {
        IntersectionMembership(sets, x);
        IntersectionMembership(others, x);
        if sets != [] {
          assert sets[0] in others;
        }
        if others != [] {
          assert others[0] in sets;
        }
        if sets != [] && forall i :: 0 <= i < |sets| ==> x in sets[i] {
          forall i | 0 <= i < |others|
            ensures x in others[i]
          {
            assert others[i] in sets;
          }
        }
        if others != [] && forall i :: 0 <= i < |others| ==> x in others[i] {
          forall i | 0 <= i < |sets|
            ensures x in sets[i]
          {
            assert sets[i] in others;
          }
        }
      }
    }
  }
}
