/** Interval merging (src/core/censor_scheduler.cpp): a canonical form for sets of frames. */
module CensorScheduler {
  import T = AudioTimeline

  type Interval = T.Interval

  predicate IsValid(x: Interval)
  {
    x.startFrame < x.endFrame
  }

  /** The comparison handed to std::sort. */
  predicate Before(x: Interval, y: Interval)
  {
    x.startFrame < y.startFrame || (x.startFrame == y.startFrame && x.endFrame < y.endFrame)
  }

  predicate Holds(x: Interval, f: int)
  {
    x.startFrame <= f < x.endFrame
  }

  /** Frame `f` lies in one of the intervals; an empty or reversed interval holds no frame. */
  predicate Covered(q: seq<Interval>, f: int)
  {
    exists i :: 0 <= i < |q| && Holds(q[i], f)
  }

  /** Two interval lists cover the same frames. */
  ghost predicate SameFrames(a: seq<Interval>, b: seq<Interval>)
  {
    forall f: int :: Covered(a, f) <==> Covered(b, f)
  }

  /** Strictly sorted, non-empty intervals with a positive gap between neighbours. */
  ghost predicate Canonical(q: seq<Interval>)
  {
    (forall i :: 0 <= i < |q| ==> IsValid(q[i])) &&
    (forall i, j :: 0 <= i < j < |q| ==> q[i].endFrame < q[j].startFrame)
  }

  // ---- the three stages: filter, sort, join -----------------------------------------------------------

  function Filter(q: seq<Interval>): seq<Interval>
  {
    if q == [] then []
    else
      var front := Filter(q[..|q| - 1]);
      if IsValid(q[|q| - 1]) then front + [q[|q| - 1]] else front
  }

  ghost predicate Sorted(q: seq<Interval>)
  {
    forall i, j :: 0 <= i < j < |q| ==> !Before(q[j], q[i])
  }

  function Insert(x: Interval, q: seq<Interval>): seq<Interval>
  {
    if q == [] || !Before(q[0], x) then [x] + q else [q[0]] + Insert(x, q[1..])
  }

  /** std::sort: the order is total, so any sort gives this result (SortedPermutationsAgree). */
  function Sort(q: seq<Interval>): seq<Interval>
  {
    if q == [] then [] else Insert(q[|q| - 1], Sort(q[..|q| - 1]))
  }

  function Max(x: int, y: int): int
  {
    if x < y then y else x
  }

  function Join(merged: seq<Interval>, x: Interval): seq<Interval>
  {
    if merged == [] || x.startFrame > merged[|merged| - 1].endFrame then merged + [x]
    else
      var last := merged[|merged| - 1];
      merged[|merged| - 1 := last.(endFrame := Max(last.endFrame, x.endFrame))]
  }

  function JoinAll(q: seq<Interval>): seq<Interval>
  {
    if q == [] then [] else Join(JoinAll(q[..|q| - 1]), q[|q| - 1])
  }

  function Merge(q: seq<Interval>): seq<Interval>
  {
    JoinAll(Sort(Filter(q)))
  }

  // ---- each stage keeps the frames --------------------------------------------------------------------

  lemma CoveredAppend(q: seq<Interval>, x: Interval, f: int)
    ensures Covered(q + [x], f) <==> Covered(q, f) || Holds(x, f)
  {
    var all := q + [x];
    if Holds(x, f) {
      assert Holds(all[|q|], f);
    }
    if Covered(q, f) {
      var i :| 0 <= i < |q| && Holds(q[i], f);
      assert Holds(all[i], f);
    }
  }

  lemma {:induction false} FilterKeepsFrames(q: seq<Interval>, f: int)
    ensures Covered(Filter(q), f) <==> Covered(q, f)
    ensures forall x :: x in Filter(q) <==> x in q && IsValid(x)
  {
    if q != [] {
      var front, x := q[..|q| - 1], q[|q| - 1];
      assert q == front + [x];
      FilterKeepsFrames(front, f);
      CoveredAppend(front, x, f);
      CoveredAppend(Filter(front), x, f);
    }
  }

  lemma {:induction false} InsertIsPermutation(x: Interval, q: seq<Interval>)
    ensures multiset(Insert(x, q)) == multiset(q) + multiset{x}
  {
    if q != [] && Before(q[0], x) {
      InsertIsPermutation(x, q[1..]);
      assert q == [q[0]] + q[1..];
    }
  }

  lemma {:induction false} InsertSorts(x: Interval, q: seq<Interval>)
    requires Sorted(q)
    ensures Sorted(Insert(x, q))
  {
    if q != [] && Before(q[0], x) {
      InsertSorts(x, q[1..]);
      InsertIsPermutation(x, q[1..]);
      var rest := Insert(x, q[1..]);
      forall j | 0 <= j < |rest| ensures !Before(rest[j], q[0]) {
        assert rest[j] in multiset(rest);
        assert rest[j] == x || rest[j] in q[1..];
      }
    }
  }

  lemma {:induction false} SortIsSortedPermutation(q: seq<Interval>)
    ensures Sorted(Sort(q)) && multiset(Sort(q)) == multiset(q)
  {
    if q != [] {
      var front, x := q[..|q| - 1], q[|q| - 1];
      assert q == front + [x];
      SortIsSortedPermutation(front);
      InsertSorts(x, Sort(front));
      InsertIsPermutation(x, Sort(front));
    }
  }

  lemma HeadsAgree(a: seq<Interval>, b: seq<Interval>)
    requires Sorted(a) && Sorted(b) && a != [] && b != [] && a[0] in b && b[0] in a
    ensures a[0] == b[0]
  {
    var i :| 0 <= i < |a| && a[i] == b[0];
    var j :| 0 <= j < |b| && b[j] == a[0];
    assert !Before(a[i], a[0]) || i == 0;
    assert !Before(b[j], b[0]) || j == 0;
  }

  lemma DropHead(a: seq<Interval>)
    requires a != []
    ensures multiset(a[1..]) == multiset(a) - multiset{a[0]}
  {
    assert a == [a[0]] + a[1..];
  }

  /** Whatever algorithm sorts, the result is the same sequence. */
  lemma {:induction false} SortedPermutationsAgree(a: seq<Interval>, b: seq<Interval>)
    requires Sorted(a) && Sorted(b) && multiset(a) == multiset(b)
    ensures a == b
  {
    hide Before;
    assert |a| == |multiset(a)| == |multiset(b)| == |b|;
    if a != [] {
      assert a[0] in multiset(b) && b[0] in multiset(a);
      HeadsAgree(a, b);
      DropHead(a);
      DropHead(b);
      SortedPermutationsAgree(a[1..], b[1..]);
      assert a == [a[0]] + a[1..] && b == [b[0]] + b[1..];
    }
  }

  lemma PermutationKeepsFrames(a: seq<Interval>, b: seq<Interval>, f: int)
    requires multiset(a) == multiset(b)
    ensures Covered(a, f) ==> Covered(b, f)
  {
    if Covered(a, f) {
      var i :| 0 <= i < |a| && Holds(a[i], f);
      assert a[i] in multiset(a);
      assert a[i] in b;
      var j :| 0 <= j < |b| && b[j] == a[i];
    }
  }

  lemma JoinKeeps(merged: seq<Interval>, x: Interval, f: int)
    requires Canonical(merged) && IsValid(x)
    requires merged != [] ==> merged[|merged| - 1].startFrame <= x.startFrame
    ensures Canonical(Join(merged, x)) && Join(merged, x)[|Join(merged, x)| - 1].startFrame <= x.startFrame
    ensures Covered(Join(merged, x), f) <==> Covered(merged, f) || Holds(x, f)
  {
    if merged == [] || x.startFrame > merged[|merged| - 1].endFrame {
      CoveredAppend(merged, x, f);
    } else {
      var init, last := merged[..|merged| - 1], merged[|merged| - 1];
      var grown := last.(endFrame := Max(last.endFrame, x.endFrame));
      assert merged == init + [last] && Join(merged, x) == init + [grown];
      CoveredAppend(init, last, f);
      CoveredAppend(init, grown, f);
    }
  }

  lemma {:induction false} JoinAllIsCanonical(q: seq<Interval>, f: int)
    requires Sorted(q) && forall x :: x in q ==> IsValid(x)
    ensures Canonical(JoinAll(q)) && (Covered(JoinAll(q), f) <==> Covered(q, f))
    ensures q != [] ==> JoinAll(q) != [] && JoinAll(q)[|JoinAll(q)| - 1].startFrame <= q[|q| - 1].startFrame
  {
    if q != [] {
      var front, x := q[..|q| - 1], q[|q| - 1];
      assert q == front + [x] && x in q;
      assert forall y :: y in front ==> y in q;
      JoinAllIsCanonical(front, f);
      if front != [] {
        assert !Before(q[|q| - 1], q[|q| - 2]);
      }
      JoinKeeps(JoinAll(front), x, f);
      CoveredAppend(front, x, f);
    }
  }

  // ---- the canonical form -----------------------------------------------------------------------------

  /** The result is sorted with positive gaps and covers exactly the frames of the valid inputs. */
  lemma MergeIsCanonical(q: seq<Interval>)
    ensures Canonical(Merge(q)) && SameFrames(Merge(q), q)
  {
    SortIsSortedPermutation(Filter(q));
    forall f: int ensures Canonical(Merge(q)) && (Covered(Merge(q), f) <==> Covered(q, f)) {
      FilterKeepsFrames(q, f);
      forall x | x in Sort(Filter(q)) ensures IsValid(x) {
        assert x in multiset(Sort(Filter(q)));
        assert x in Filter(q);
      }
      PermutationKeepsFrames(Filter(q), Sort(Filter(q)), f);
      PermutationKeepsFrames(Sort(Filter(q)), Filter(q), f);
      JoinAllIsCanonical(Sort(Filter(q)), f);
    }
    assert Canonical(Merge(q)) by {
      FilterKeepsFrames(q, 0);
      forall x | x in Sort(Filter(q)) ensures IsValid(x) {
        assert x in multiset(Sort(Filter(q)));
        assert x in Filter(q);
      }
      JoinAllIsCanonical(Sort(Filter(q)), 0);
    }
  }

  /** First frames and first gaps of canonical lists with the same frames agree. */
  lemma FirstAgrees(a: seq<Interval>, b: seq<Interval>)
    requires Canonical(a) && Canonical(b) && SameFrames(a, b) && a != [] && b != []
    ensures a[0] == b[0]
  {
    assert Holds(a[0], a[0].startFrame) && Covered(a, a[0].startFrame) && Covered(b, a[0].startFrame);
    assert Holds(b[0], b[0].startFrame) && Covered(b, b[0].startFrame) && Covered(a, b[0].startFrame);
    assert a[0].startFrame == b[0].startFrame;
    EndsNoEarlier(a, b);
    EndsNoEarlier(b, a);
  }

  lemma EndsNoEarlier(a: seq<Interval>, b: seq<Interval>)
    requires Canonical(a) && Canonical(b) && SameFrames(a, b) && a != [] && b != []
    requires a[0].startFrame == b[0].startFrame
    ensures a[0].endFrame >= b[0].endFrame
  {
    NotCoveredAtEnd(a);
    assert forall f :: Holds(b[0], f) ==> Covered(b, f);
    assert !Holds(b[0], a[0].endFrame);
  }

  lemma NotCoveredAtEnd(a: seq<Interval>)
    requires Canonical(a) && a != []
    ensures !Covered(a, a[0].endFrame)
  {
  }

  lemma FirstIsCovered(a: seq<Interval>)
    requires Canonical(a)
    ensures a != [] ==> Covered(a, a[0].startFrame)
  {
    assert a != [] ==> Holds(a[0], a[0].startFrame);
  }

  lemma TailFrames(a: seq<Interval>, f: int)
    requires Canonical(a) && a != []
    ensures Covered(a[1..], f) <==> Covered(a, f) && f >= a[0].endFrame
  {
    if Covered(a[1..], f) {
      var i :| 0 <= i < |a[1..]| && Holds(a[1..][i], f);
      assert Holds(a[i + 1], f);
    }
    if Covered(a, f) && f >= a[0].endFrame {
      var i :| 0 <= i < |a| && Holds(a[i], f);
      assert Holds(a[1..][i - 1], f);
    }
  }

  lemma {:induction false} CanonicalFormIsUnique(a: seq<Interval>, b: seq<Interval>)
    requires Canonical(a) && Canonical(b) && SameFrames(a, b)
    ensures a == b
  {
    FirstIsCovered(a);
    FirstIsCovered(b);
    if a != [] {
      FirstAgrees(a, b);
      forall f: int ensures Covered(a[1..], f) <==> Covered(b[1..], f) {
        TailFrames(a, f);
        TailFrames(b, f);
      }
      CanonicalFormIsUnique(a[1..], b[1..]);
      assert a == [a[0]] + a[1..] && b == [b[0]] + b[1..];
    }
  }

  /** Two inputs merge to the same list if and only if they cover the same frames. */
  lemma MergeDecidesSameFrames(a: seq<Interval>, b: seq<Interval>)
    ensures Merge(a) == Merge(b) <==> SameFrames(a, b)
  {
    hide Merge;
    MergeIsCanonical(a);
    MergeIsCanonical(b);
    if Merge(a) == Merge(b) {
      forall f: int ensures Covered(a, f) <==> Covered(b, f) {
        assert Covered(Merge(a), f) <==> Covered(a, f);
      }
    }
    if SameFrames(a, b) {
      forall f: int ensures Covered(Merge(a), f) <==> Covered(Merge(b), f) {
        assert Covered(a, f) <==> Covered(b, f);
      }
      CanonicalFormIsUnique(Merge(a), Merge(b));
    }
  }

  lemma MergeIsIdempotentAndOrderIndependent(a: seq<Interval>, b: seq<Interval>)
    ensures Merge(Merge(a)) == Merge(a)
    ensures multiset(a) == multiset(b) ==> Merge(a) == Merge(b)
  {
    hide Merge;
    MergeIsCanonical(a);
    MergeIsCanonical(Merge(a));
    CanonicalFormIsUnique(Merge(Merge(a)), Merge(a));
    if multiset(a) == multiset(b) {
      forall f: int ensures Covered(a, f) <==> Covered(b, f) {
        PermutationKeepsFrames(a, b, f);
        PermutationKeepsFrames(b, a, f);
      }
      MergeDecidesSameFrames(a, b);
    }
  }

  // ---- the loops --------------------------------------------------------------------------------------

  /** In-place insertion of each element, standing for std::sort. */
  method SortIntervals(q: seq<Interval>) returns (sorted: seq<Interval>)
    ensures sorted == Sort(q)
  {
    sorted := [];
    for i := 0 to |q|
      invariant sorted == Sort(q[..i])
    {
      assert q[..i + 1][..i] == q[..i];
      sorted := Insert(q[i], sorted);
    }
    assert q[..|q|] == q;
  }

  /** merge(): filter into a vector, sort it, then extend or start the last merged interval. */
  method MergeIntervals(intervals: seq<Interval>) returns (merged: seq<Interval>)
    ensures merged == Merge(intervals)
    ensures Canonical(merged) && SameFrames(merged, intervals)
  {
    var valid := [];
    for i := 0 to |intervals|
      invariant valid == Filter(intervals[..i])
    {
      assert intervals[..i + 1][..i] == intervals[..i];
      if intervals[i].startFrame < intervals[i].endFrame {
        valid := valid + [intervals[i]];
      }
    }
    assert intervals[..|intervals|] == intervals;
    var sorted := SortIntervals(valid);
    merged := [];
    for i := 0 to |sorted|
      invariant merged == JoinAll(sorted[..i])
    {
      assert sorted[..i + 1][..i] == sorted[..i];
      if merged == [] || sorted[i].startFrame > merged[|merged| - 1].endFrame {
        merged := merged + [sorted[i]];
      } else {
        var last := merged[|merged| - 1];
        merged := merged[|merged| - 1 := last.(endFrame := Max(last.endFrame, sorted[i].endFrame))];
      }
    }
    assert sorted[..|sorted|] == sorted;
    MergeIsCanonical(intervals);
  }
}
