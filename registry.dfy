/** The local window registry's reconciliation against the host's report of
    the windows still open. */
module Registry {
  import opened Int32Text
  import opened Protocol

  /** One run of the `BrowserWindowClosed` handler as written: walking forward
      by index, a window whose id is not reported is removed, and because the
      index still advances after the removal, the window that slides into its
      place is passed over without being checked. */
  function Reconciled(windows: seq<BrowserWindow>, reported: seq<Int32>): (r: seq<BrowserWindow>)
    ensures |r| <= |windows|
    decreases |windows|
  {
    if windows == [] then []
    else if windows[0].id in reported then [windows[0]] + Reconciled(windows[1..], reported)
    else if |windows| == 1 then []
    else [windows[1]] + Reconciled(windows[2..], reported)
  }

  /** The set-difference reconciliation: exactly the reported windows stay. */
  function Filtered(windows: seq<BrowserWindow>, reported: seq<Int32>): seq<BrowserWindow>
    decreases |windows|
  {
    if windows == [] then []
    else (if windows[0].id in reported then [windows[0]] else []) + Filtered(windows[1..], reported)
  }

  /** `xs` is `ys` with some elements deleted: the survivors keep their order. */
  predicate IsSubsequence<T(==)>(xs: seq<T>, ys: seq<T>)
    decreases |ys|
  {
    if xs == [] then true
    else if ys == [] then false
    else if xs[0] == ys[0] then IsSubsequence(xs[1..], ys[1..])
    else IsSubsequence(xs, ys[1..])
  }

  lemma {:induction false} SubsequenceOfLonger<T>(xs: seq<T>, y: T, ys: seq<T>)
    requires IsSubsequence(xs, ys)
    ensures IsSubsequence(xs, [y] + ys)
    decreases |ys|, 1
  {
    var yys := [y] + ys;
    assert yys[1..] == ys;
    if xs != [] && xs[0] == y {
      if xs[0] == ys[0] {
        SubsequenceOfLonger(xs[1..], ys[0], ys[1..]);
        assert [ys[0]] + ys[1..] == ys;
      } else {
        SubsequenceDropHead(xs, ys);
      }
    }
  }

  lemma {:induction false} SubsequenceDropHead<T>(xs: seq<T>, ys: seq<T>)
    requires xs != [] && IsSubsequence(xs, ys)
    ensures IsSubsequence(xs[1..], ys)
    decreases |ys|, 0
  {
    if xs[0] == ys[0] {
      SubsequenceOfLonger(xs[1..], ys[0], ys[1..]);
      assert [ys[0]] + ys[1..] == ys;
    } else {
      SubsequenceDropHead(xs, ys[1..]);
      SubsequenceOfLonger(xs[1..], ys[0], ys[1..]);
      assert [ys[0]] + ys[1..] == ys;
    }
  }

  /** One step of the pass from position `m` on. */
  lemma ReconciledFrom(windows: seq<BrowserWindow>, reported: seq<Int32>, m: nat)
    requires m < |windows|
    ensures windows[m].id in reported ==>
      Reconciled(windows[m..], reported) == [windows[m]] + Reconciled(windows[m + 1..], reported)
    ensures windows[m].id !in reported && m + 1 == |windows| ==>
      Reconciled(windows[m..], reported) == []
    ensures windows[m].id !in reported && m + 1 < |windows| ==>
      Reconciled(windows[m..], reported) == [windows[m + 1]] + Reconciled(windows[m + 2..], reported)
  {
    assert windows[m..][1..] == windows[m + 1..];
    if m + 1 < |windows| {
      assert windows[m..][2..] == windows[m + 2..];
    }
  }

  /** The pass as written, resumed at position `m` with `done` already kept:
      the step that keeps window `m`, or removes it and passes over the next. */
  lemma ReconciledStep(windows: seq<BrowserWindow>, reported: seq<Int32>, done: seq<BrowserWindow>, m: nat)
    requires m < |windows|
    requires done + Reconciled(windows[m..], reported) == Reconciled(windows, reported)
    ensures windows[m].id in reported ==>
      (done + [windows[m]]) + Reconciled(windows[m + 1..], reported) == Reconciled(windows, reported) &&
      done + windows[m..] == (done + [windows[m]]) + windows[m + 1..]
    ensures windows[m].id !in reported && m + 1 < |windows| ==>
      (done + [windows[m + 1]]) + Reconciled(windows[m + 2..], reported) == Reconciled(windows, reported) &&
      done + windows[m + 1..] == (done + [windows[m + 1]]) + windows[m + 2..]
    ensures windows[m].id !in reported && m + 1 == |windows| ==>
      done == Reconciled(windows, reported)
  {
    ReconciledFrom(windows, reported, m);
    if windows[m].id in reported {
      StepKeeping(windows, reported, done, m);
    } else if m + 1 < |windows| {
      StepKeeping(windows, reported, done, m + 1);
    } else {
      assert done + [] == done;
    }
  }

  /** Moving window `k` from the unvisited part to the kept part, when the
      rest of the pass keeps it and goes on after it. */
  lemma StepKeeping(windows: seq<BrowserWindow>, reported: seq<Int32>, done: seq<BrowserWindow>, k: nat)
    requires k < |windows|
    ensures done + ([windows[k]] + Reconciled(windows[k + 1..], reported)) ==
      (done + [windows[k]]) + Reconciled(windows[k + 1..], reported)
    ensures done + windows[k..] == (done + [windows[k]]) + windows[k + 1..]
  {
    assert windows[k..] == [windows[k]] + windows[k + 1..];
  }

  /** Survivors of a report keep their relative order. */
  lemma {:induction false} ReconciledKeepsOrder(windows: seq<BrowserWindow>, reported: seq<Int32>)
    ensures IsSubsequence(Reconciled(windows, reported), windows)
    decreases |windows|
  {
    var r := Reconciled(windows, reported);
    if windows == [] {
    } else if windows[0].id in reported {
      ReconciledKeepsOrder(windows[1..], reported);
      assert r[0] == windows[0] && r[1..] == Reconciled(windows[1..], reported);
    } else if |windows| == 1 {
    } else {
      ReconciledKeepsOrder(windows[2..], reported);
      assert r[0] == windows[1] && r[1..] == Reconciled(windows[2..], reported);
      assert windows[1..][1..] == windows[2..];
      assert IsSubsequence(r, windows[1..]);
      SubsequenceOfLonger(r, windows[0], windows[1..]);
      assert [windows[0]] + windows[1..] == windows;
    }
  }

  lemma CountCons(x: BrowserWindow, xs: seq<BrowserWindow>, w: BrowserWindow)
    ensures multiset([x] + xs)[w] == (if x == w then 1 else 0) + multiset(xs)[w]
  {
    assert multiset([x] + xs) == multiset([x]) + multiset(xs);
  }

  /** A reported window is never removed: every copy of it survives. */
  lemma {:induction false} ReconciledKeepsReported(windows: seq<BrowserWindow>, reported: seq<Int32>, w: BrowserWindow)
    requires w.id in reported
    ensures multiset(Reconciled(windows, reported))[w] == multiset(windows)[w]
    decreases |windows|
  {
    if windows == [] {
    } else if windows[0].id in reported {
      ReconciledKeepsReported(windows[1..], reported, w);
      KeptCount(windows, reported, w);
    } else if |windows| == 1 {
      CountCons(windows[0], [], w);
      assert [windows[0]] + [] == windows;
    } else {
      ReconciledKeepsReported(windows[2..], reported, w);
      SkippedCount(windows, reported, w);
    }
  }

  /** Counting through a step that keeps the first window. */
  lemma KeptCount(windows: seq<BrowserWindow>, reported: seq<Int32>, w: BrowserWindow)
    requires windows != [] && windows[0].id in reported
    ensures multiset(Reconciled(windows, reported))[w] + multiset(windows[1..])[w] ==
      multiset(Reconciled(windows[1..], reported))[w] + multiset(windows)[w]
  {
    CountCons(windows[0], windows[1..], w);
    CountCons(windows[0], Reconciled(windows[1..], reported), w);
    assert [windows[0]] + windows[1..] == windows;
  }

  /** Counting through a step that removes the first window and passes over
      the second. */
  lemma SkippedCount(windows: seq<BrowserWindow>, reported: seq<Int32>, w: BrowserWindow)
    requires |windows| >= 2 && windows[0].id !in reported
    ensures multiset(Reconciled(windows, reported))[w] + multiset(windows[2..])[w] + (if windows[0] == w then 1 else 0) ==
      multiset(Reconciled(windows[2..], reported))[w] + multiset(windows)[w]
  {
    CountCons(windows[1], windows[2..], w);
    CountCons(windows[0], windows[1..], w);
    CountCons(windows[1], Reconciled(windows[2..], reported), w);
    assert [windows[1]] + windows[2..] == windows[1..];
    assert [windows[0]] + windows[1..] == windows;
  }

  /** Only unreported windows are removed, and never more copies of a window
      than there were. */
  lemma {:induction false} ReconciledRemovesOnlyUnreported(windows: seq<BrowserWindow>, reported: seq<Int32>, w: BrowserWindow)
    ensures multiset(Reconciled(windows, reported))[w] <= multiset(windows)[w]
    ensures multiset(Reconciled(windows, reported))[w] < multiset(windows)[w] ==> w.id !in reported
    decreases |windows|
  {
    if w.id in reported {
      ReconciledKeepsReported(windows, reported, w);
    } else if windows == [] {
    } else if windows[0].id in reported {
      ReconciledRemovesOnlyUnreported(windows[1..], reported, w);
      KeptCount(windows, reported, w);
    } else if |windows| == 1 {
      CountCons(windows[0], [], w);
      assert [windows[0]] + [] == windows;
    } else {
      ReconciledRemovesOnlyUnreported(windows[2..], reported, w);
      SkippedCount(windows, reported, w);
    }
  }

  /** A report naming every window changes nothing. */
  lemma {:induction false} ReconciledAllReported(windows: seq<BrowserWindow>, reported: seq<Int32>)
    requires forall i | 0 <= i < |windows| :: windows[i].id in reported
    ensures Reconciled(windows, reported) == windows
    decreases |windows|
  {
    if windows != [] {
      ReconciledAllReported(windows[1..], reported);
    }
  }

  /** A report that omits some window removes at least one window. */
  lemma {:induction false} ReconciledRemovesOne(windows: seq<BrowserWindow>, reported: seq<Int32>, k: int)
    requires 0 <= k < |windows| && windows[k].id !in reported
    ensures |Reconciled(windows, reported)| < |windows|
    decreases |windows|
  {
    if windows[0].id in reported {
      ReconciledRemovesOne(windows[1..], reported, k - 1);
    }
  }

  lemma {:induction false} FilteredAppend(a: seq<BrowserWindow>, b: seq<BrowserWindow>, reported: seq<Int32>)
    ensures Filtered(a + b, reported) == Filtered(a, reported) + Filtered(b, reported)
    decreases |a|
  {
    if a != [] {
      FilteredAppend(a[1..], b, reported);
      assert (a + b)[1..] == a[1..] + b;
    } else {
      assert a + b == b;
    }
  }

  /** The clean result: a window survives exactly as many times as it occurs
      when its id is reported, and not at all otherwise. */
  lemma {:induction false} FilteredCounts(windows: seq<BrowserWindow>, reported: seq<Int32>, w: BrowserWindow)
    ensures multiset(Filtered(windows, reported))[w] == if w.id in reported then multiset(windows)[w] else 0
    decreases |windows|
  {
    if windows != [] {
      FilteredCounts(windows[1..], reported, w);
      assert windows == [windows[0]] + windows[1..];
    }
  }

  /** A second pass over what the first left has the same clean result. */
  lemma {:induction false} FilteredOfReconciled(windows: seq<BrowserWindow>, reported: seq<Int32>)
    ensures Filtered(Reconciled(windows, reported), reported) == Filtered(windows, reported)
    decreases |windows|
  {
    if windows == [] {
    } else if windows[0].id in reported {
      FilteredOfReconciled(windows[1..], reported);
      FilteredAppend([windows[0]], Reconciled(windows[1..], reported), reported);
    } else if |windows| == 1 {
    } else {
      FilteredOfReconciled(windows[2..], reported);
      FilteredAppend([windows[1]], Reconciled(windows[2..], reported), reported);
      assert windows[1..][1..] == windows[2..];
    }
  }

  lemma {:induction false} FilteredAllReported(windows: seq<BrowserWindow>, reported: seq<Int32>)
    requires forall i | 0 <= i < |windows| :: windows[i].id in reported
    ensures Filtered(windows, reported) == windows
    decreases |windows|
  {
    if windows != [] {
      FilteredAllReported(windows[1..], reported);
    }
  }

  /** The registry after the same report has been handled `n` times. */
  function ReconciledTimes(windows: seq<BrowserWindow>, reported: seq<Int32>, n: nat): seq<BrowserWindow>
    decreases n
  {
    if n == 0 then windows else ReconciledTimes(Reconciled(windows, reported), reported, n - 1)
  }

  lemma {:induction false} ReconciledTimesFixed(windows: seq<BrowserWindow>, reported: seq<Int32>, n: nat)
    requires forall i | 0 <= i < |windows| :: windows[i].id in reported
    ensures ReconciledTimes(windows, reported, n) == windows
    decreases n
  {
    if n > 0 {
      ReconciledAllReported(windows, reported);
      ReconciledTimesFixed(windows, reported, n - 1);
    }
  }

  /** The registry converges to the host's set: once the same report has been
      handled as many times as there are windows, only reported windows are
      left, in their original order. */
  lemma {:induction false} RepeatedReportsConverge(windows: seq<BrowserWindow>, reported: seq<Int32>, n: nat)
    requires n >= |windows|
    ensures ReconciledTimes(windows, reported, n) == Filtered(windows, reported)
    decreases n
  {
    if forall i | 0 <= i < |windows| :: windows[i].id in reported {
      ReconciledTimesFixed(windows, reported, n);
      FilteredAllReported(windows, reported);
    } else {
      var k :| 0 <= k < |windows| && windows[k].id !in reported;
      ReconciledRemovesOne(windows, reported, k);
      RepeatedReportsConverge(Reconciled(windows, reported), reported, n - 1);
      FilteredOfReconciled(windows, reported);
    }
  }

  /** The pass as written agrees with the set difference when no two adjacent
      windows go, and not otherwise: with windows 1, 2, 3 and report {1, 3}
      window 2 goes, but with report {1} window 3 is passed over and stays. */
  lemma ReconciledSkipsSuccessor()
    ensures Reconciled([BrowserWindow(1), BrowserWindow(2), BrowserWindow(3)], [1, 3])
         == [BrowserWindow(1), BrowserWindow(3)]
    ensures Reconciled([BrowserWindow(1), BrowserWindow(2), BrowserWindow(3)], [1])
         == [BrowserWindow(1), BrowserWindow(3)]
    ensures Filtered([BrowserWindow(1), BrowserWindow(2), BrowserWindow(3)], [1])
         == [BrowserWindow(1)]
  {
    var ws := [BrowserWindow(1), BrowserWindow(2), BrowserWindow(3)];
    var tail := [BrowserWindow(2), BrowserWindow(3)];
    var last := [BrowserWindow(3)];
    assert ws[1..] == tail && tail[1..] == last && tail[2..] == [] && last[1..] == [];
    assert 2 !in [1, 3] && 3 in [1, 3] && 1 in [1, 3];
    assert Reconciled(tail, [1, 3]) == last;
    assert 2 !in [1] && 3 !in [1] && 1 in [1];
    assert Reconciled(tail, [1]) == last;
    assert Filtered(last, [1]) == [];
    assert Filtered(tail, [1]) == [];
  }

  /** No two windows in the list have the same id. */
  predicate DistinctIds(windows: seq<BrowserWindow>)
  {
    forall i, j | 0 <= i < j < |windows| :: windows[i].id != windows[j].id
  }

  /** A window put in front of a list whose ids differ from its own keeps
      the ids distinct. */
  lemma DistinctCons(head: BrowserWindow, rest: seq<BrowserWindow>)
    requires DistinctIds(rest) && forall w | w in rest :: w.id != head.id
    ensures DistinctIds([head] + rest)
  {
    var r := [head] + rest;
    forall i, j | 0 <= i < j < |r| ensures r[i].id != r[j].id {
      assert r[j] == rest[j - 1];
      if i == 0 {
        assert rest[j - 1] in rest;
      } else {
        assert r[i] == rest[i - 1];
      }
    }
  }

  /** A list without its first `k` windows keeps its ids distinct. */
  lemma DistinctSuffix(windows: seq<BrowserWindow>, k: nat)
    requires DistinctIds(windows) && k <= |windows|
    ensures DistinctIds(windows[k..])
  {
    var tail := windows[k..];
    forall i, j | 0 <= i < j < |tail| ensures tail[i].id != tail[j].id {
      assert tail[i] == windows[k + i] && tail[j] == windows[k + j];
    }
  }

  /** Every window one pass keeps was in the list. */
  lemma ReconciledKeepsOnlyListed(windows: seq<BrowserWindow>, reported: seq<Int32>, w: BrowserWindow)
    requires w in Reconciled(windows, reported)
    ensures w in windows
  {
    ReconciledRemovesOnlyUnreported(windows, reported, w);
    assert w in multiset(windows);
  }

  /** The window at `k - 1` put in front of what the pass keeps of the
      windows after it: ids stay distinct. */
  lemma ReconciledDistinctStep(windows: seq<BrowserWindow>, reported: seq<Int32>, k: nat)
    requires DistinctIds(windows) && 1 <= k <= |windows|
    requires DistinctIds(Reconciled(windows[k..], reported))
    ensures DistinctIds([windows[k - 1]] + Reconciled(windows[k..], reported))
  {
    var tail := windows[k..];
    var rest := Reconciled(tail, reported);
    forall w | w in rest ensures w.id != windows[k - 1].id {
      ReconciledKeepsOnlyListed(tail, reported, w);
      var j :| 0 <= j < |tail| && tail[j] == w;
      assert windows[k + j] == w;
    }
    DistinctCons(windows[k - 1], rest);
  }

  /** One pass never makes two windows share an id: it only keeps windows
      that were in the list. */
  lemma {:induction false} ReconciledKeepsIdsDistinct(windows: seq<BrowserWindow>, reported: seq<Int32>)
    requires DistinctIds(windows)
    ensures DistinctIds(Reconciled(windows, reported))
    decreases |windows|
  {
    if windows == [] {
    } else if windows[0].id in reported {
      DistinctSuffix(windows, 1);
      ReconciledKeepsIdsDistinct(windows[1..], reported);
      ReconciledDistinctStep(windows, reported, 1);
    } else if |windows| >= 2 {
      DistinctSuffix(windows, 2);
      ReconciledKeepsIdsDistinct(windows[2..], reported);
      ReconciledDistinctStep(windows, reported, 2);
    }
  }

  /** Appending a window keeps the ids distinct exactly when the list's ids
      were distinct and its id is not listed yet. */
  lemma AppendKeepsIdsDistinct(windows: seq<BrowserWindow>, id: Int32)
    ensures DistinctIds(windows + [BrowserWindow(id)]) <==>
      DistinctIds(windows) && BrowserWindow(id) !in windows
  {
    var r := windows + [BrowserWindow(id)];
    if DistinctIds(r) {
      forall i, j | 0 <= i < j < |windows| ensures windows[i].id != windows[j].id {
        assert r[i] == windows[i] && r[j] == windows[j];
      }
      forall i | 0 <= i < |windows| ensures windows[i] != BrowserWindow(id) {
        assert r[i].id != r[|windows|].id;
      }
    }
    if DistinctIds(windows) && BrowserWindow(id) !in windows {
      forall i, j | 0 <= i < j < |r| ensures r[i].id != r[j].id {
        assert r[i] == windows[i];
        if j == |windows| {
          assert windows[i] in windows;
        } else {
          assert r[j] == windows[j];
        }
      }
    }
  }

  /** The loop of the `BrowserWindowClosed` handler with the index advanced
      only past windows that stay: every unreported window is removed. */
  method RemoveUnreported(windows: seq<BrowserWindow>, reported: seq<Int32>) returns (remaining: seq<BrowserWindow>)
    ensures remaining == Filtered(windows, reported)
  {
    remaining := windows;
    var index := 0;
    ghost var m := 0;
    while index < |remaining|
      invariant 0 <= m <= |windows| && 0 <= index <= |remaining|
      invariant remaining[index..] == windows[m..]
      invariant remaining[..index] + Filtered(windows[m..], reported) == Filtered(windows, reported)
      decreases |windows| - m
    {
      assert windows[m..][1..] == windows[m + 1..];
      if remaining[index].id !in reported {
        remaining := remaining[..index] + remaining[index + 1..];
      } else {
        index := index + 1;
      }
      m := m + 1;
    }
    assert remaining[index..] == [];
  }
}
