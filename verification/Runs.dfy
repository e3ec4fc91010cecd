/** Cutting a sequence in maximal runs: consecutive elements stay together exactly when they are related. */
module Runs {
  import opened Sequences

  function Last<T>(s: seq<T>): T
    requires s != []
  {
    s[|s| - 1]
  }

  predicate IsRun<T>(same: (T, T) -> bool, run: seq<T>) {
    forall j :: 0 < j < |run| ==> same(run[j - 1], run[j])
  }

  /** The declarative reading: nothing is lost, each piece is a run, and no two neighbours could be one run. */
  ghost predicate IsMaximalRuns<T>(same: (T, T) -> bool, xs: seq<T>, runs: seq<seq<T>>) {
    && Flatten(runs) == xs
    && (forall i :: 0 <= i < |runs| ==> runs[i] != [] && IsRun(same, runs[i]))
    && (forall i :: 0 < i < |runs| ==> !same(Last(runs[i - 1]), runs[i][0]))
  }

  predicate NoEmptyRun<T>(runs: seq<seq<T>>) {
    forall i :: 0 <= i < |runs| ==> runs[i] != []
  }

  /** Whether the next element goes with the last run. */
  predicate Continues<T>(same: (T, T) -> bool, runs: seq<seq<T>>, x: T)
    requires NoEmptyRun(runs)
  {
    runs != [] && same(Last(Last(runs)), x)
  }

  function AddToRuns<T>(same: (T, T) -> bool, runs: seq<seq<T>>, x: T): (r: seq<seq<T>>)
    requires NoEmptyRun(runs)
    ensures r != [] && NoEmptyRun(r) && Last(Last(r)) == x
  {
    if Continues(same, runs, x) then runs[..|runs| - 1] + [Last(runs) + [x]] else runs + [[x]]
  }

  /** The operational reading: elements are taken one by one. */
  function RunsOf<T>(same: (T, T) -> bool, xs: seq<T>): (r: seq<seq<T>>)
    ensures NoEmptyRun(r)
    ensures xs == [] <==> r == []
    ensures xs != [] ==> Last(Last(r)) == Last(xs)
  {
    if xs == [] then [] else AddToRuns(same, RunsOf(same, xs[..|xs| - 1]), Last(xs))
  }

  lemma RunsOfSnoc<T>(same: (T, T) -> bool, xs: seq<T>, x: T)
    ensures RunsOf(same, xs + [x]) == AddToRuns(same, RunsOf(same, xs), x)
  {
    assert (xs + [x])[..|xs|] == xs;
  }

  lemma ExtendKeepsMaximal<T>(same: (T, T) -> bool, xs: seq<T>, init: seq<seq<T>>, last: seq<T>, x: T)
    requires IsMaximalRuns(same, xs, init + [last]) && last != [] && same(Last(last), x)
    ensures IsMaximalRuns(same, xs + [x], init + [last + [x]])
  {
    hide Flatten;
    FlattenSnoc(init, last);
    FlattenSnoc(init, last + [x]);
    var was, now := init + [last], init + [last + [x]];
    assert IsRun(same, was[|init|]);
    assert forall i :: 0 <= i < |init| ==> now[i] == was[i];
  }

  lemma OpenKeepsMaximal<T>(same: (T, T) -> bool, xs: seq<T>, runs: seq<seq<T>>, x: T)
    requires IsMaximalRuns(same, xs, runs) && !Continues(same, runs, x)
    ensures IsMaximalRuns(same, xs + [x], runs + [[x]])
  {
    FlattenSnoc(runs, [x]);
  }

  lemma AddKeepsMaximal<T>(same: (T, T) -> bool, xs: seq<T>, runs: seq<seq<T>>, x: T)
    requires IsMaximalRuns(same, xs, runs)
    ensures IsMaximalRuns(same, xs + [x], AddToRuns(same, runs, x))
  {
    if Continues(same, runs, x) {
      assert runs == runs[..|runs| - 1] + [Last(runs)];
      ExtendKeepsMaximal(same, xs, runs[..|runs| - 1], Last(runs), x);
    } else {
      OpenKeepsMaximal(same, xs, runs, x);
    }
  }

  /** RunsOf() meets the declarative reading... */
  lemma {:induction false} RunsOfAreMaximal<T>(same: (T, T) -> bool, xs: seq<T>)
    ensures IsMaximalRuns(same, xs, RunsOf(same, xs))
  {
    if xs != [] {
      var init := xs[..|xs| - 1];
      RunsOfAreMaximal(same, init);
      AddKeepsMaximal(same, init, RunsOf(same, init), Last(xs));
      assert xs == init + [Last(xs)];
    }
  }

  lemma DropSingleton<T>(same: (T, T) -> bool, xs: seq<T>, init: seq<seq<T>>, x: T)
    requires IsMaximalRuns(same, xs, init + [[x]])
    ensures xs != [] && Last(xs) == x && IsMaximalRuns(same, xs[..|xs| - 1], init)
    ensures init + [[x]] == AddToRuns(same, init, x)
  {
    var runs := init + [[x]];
    FlattenSnoc(init, [x]);
    assert forall i :: 0 <= i < |init| ==> runs[i] == init[i];
    if init != [] { assert !same(Last(runs[|init| - 1]), runs[|init|][0]); }
  }

  lemma DropFromLonger<T>(same: (T, T) -> bool, xs: seq<T>, init: seq<seq<T>>, shorter: seq<T>, x: T)
    requires shorter != [] && IsMaximalRuns(same, xs, init + [shorter + [x]])
    ensures xs != [] && Last(xs) == x && IsMaximalRuns(same, xs[..|xs| - 1], init + [shorter])
    ensures init + [shorter + [x]] == AddToRuns(same, init + [shorter], x)
  {
    var runs, now := init + [shorter + [x]], init + [shorter];
    FlattenSnoc(init, shorter + [x]);
    FlattenSnoc(init, shorter);
    assert forall i :: 0 <= i < |init| ==> runs[i] == now[i];
    var run := runs[|init|];
    assert IsRun(same, run);
    assert same(run[|shorter| - 1], run[|shorter|]);
    forall j | 0 < j < |shorter|
      ensures same(shorter[j - 1], shorter[j])
    {
      assert same(run[j - 1], run[j]);
    }
  }

  lemma DropLast<T>(same: (T, T) -> bool, xs: seq<T>, runs: seq<seq<T>>) returns (init: seq<seq<T>>)
    requires IsMaximalRuns(same, xs, runs) && runs != []
    ensures xs != [] && IsMaximalRuns(same, xs[..|xs| - 1], init) && runs == AddToRuns(same, init, Last(xs))
  {
    var n, run := |runs| - 1, Last(runs);
    assert runs == runs[..n] + [run];
    if |run| == 1 {
      init := runs[..n];
      assert run == [run[0]];
      DropSingleton(same, xs, init, run[0]);
    } else {
      init := runs[..n] + [run[..|run| - 1]];
      assert run == run[..|run| - 1] + [Last(run)];
      DropFromLonger(same, xs, runs[..n], run[..|run| - 1], Last(run));
    }
  }

  /** ... and is the only cut that does. */
  lemma {:induction false} MaximalRunsAreUnique<T>(same: (T, T) -> bool, xs: seq<T>, runs: seq<seq<T>>)
    requires IsMaximalRuns(same, xs, runs)
    ensures runs == RunsOf(same, xs)
    decreases |xs|
  {
    if runs != [] {
      var init := DropLast(same, xs, runs);
      MaximalRunsAreUnique(same, xs[..|xs| - 1], init);
    }
  }
}
