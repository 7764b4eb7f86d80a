/**
 * The results dashboard: one counter per proposal counts up from 0 towards
 * the proposal's tally, a tenth of the remaining distance (at least one)
 * per tick, and the chart rows show the counters next to the tallies.
 */
module VoteCountDashboard {
  import opened Wrappers
  import opened ElectionTypes

  /** The chart colours, used in turn. */
  const COLORS: seq<string> :=
    ["#00C49F", "#0088FE", "#FFBB28", "#FF8042", "#a4de6c", "#d0ed57", "#83a6ed", "#8884d8"]

  /** The tally counter `i` counts towards; a counter with no vote data
      behind it counts towards 0. */
  function Target(voteData: seq<VoteItem>, i: nat): int {
    if i < |voteData| then voteData[i].votes else 0
  }

  function Targets(voteData: seq<VoteItem>, n: nat): (r: seq<int>)
    ensures |r| == n && forall i :: 0 <= i < n ==> r[i] == Target(voteData, i)
  {
    seq(n, i requires 0 <= i < n => Target(voteData, i))
  }

  /** One counter's move in one tick: below its target it advances by a
      tenth of the distance rounded up, at least one, never past the target;
      otherwise it is set to the target. */
  function StepOne(counter: int, target: int): (r: int)
    ensures counter < target ==> counter < r <= target
    ensures counter >= target ==> r == target
  {
    if counter < target then
      var tenth := (target - counter + 9) / 10;
      counter + (if tenth > 1 then tenth else 1)
    else target
  }

  /** What is left to count for counter `i`. */
  function Shortfall(counters: seq<int>, voteData: seq<VoteItem>, i: nat): nat
    requires i < |counters|
  {
    var d := Target(voteData, i) - counters[i];
    if d > 0 then d else 0
  }

  /** What is left to count over the first `n` counters. */
  function Gap(counters: seq<int>, voteData: seq<VoteItem>, n: nat): nat
    requires n <= |counters|
  {
    if n == 0 then 0 else Gap(counters, voteData, n - 1) + Shortfall(counters, voteData, n - 1)
  }

  /** Counters that are nowhere further from their targets than others leave
      no larger gap, and a strictly smaller one if one of them is closer. */
  lemma {:induction false} GapShrinks(c: seq<int>, d: seq<int>, voteData: seq<VoteItem>, n: nat)
    requires n <= |c| == |d|
    requires forall j :: 0 <= j < n ==> Shortfall(d, voteData, j) <= Shortfall(c, voteData, j)
    ensures Gap(d, voteData, n) <= Gap(c, voteData, n)
    ensures (exists j :: 0 <= j < n && Shortfall(d, voteData, j) < Shortfall(c, voteData, j))
            ==> Gap(d, voteData, n) < Gap(c, voteData, n)
  {
    if n > 0 {
      GapShrinks(c, d, voteData, n - 1);
    }
  }

  /** Counters with nothing left to count leave no gap. */
  lemma {:induction false} GapZero(c: seq<int>, voteData: seq<VoteItem>, n: nat)
    requires n <= |c|
    requires forall j :: 0 <= j < n ==> Shortfall(c, voteData, j) == 0
    ensures Gap(c, voteData, n) == 0
  {
    if n > 0 {
      GapZero(c, voteData, n - 1);
    }
  }

  /** One tick of the animation: every counter moves by StepOne, and the
      tick reports whether it found every counter at or above its target.
      The counter list keeps its length. */
  method Tick(counters: seq<int>, voteData: seq<VoteItem>) returns (next: seq<int>, completed: bool)
    ensures |next| == |counters|
    ensures forall i :: 0 <= i < |counters| ==> next[i] == StepOne(counters[i], Target(voteData, i))
    ensures completed <==> forall i :: 0 <= i < |counters| ==> counters[i] >= Target(voteData, i)
  {
    completed := true;
    next := [];
    var i := 0;
    while i < |counters|
      invariant 0 <= i <= |counters| && |next| == i
      invariant forall j :: 0 <= j < i ==> next[j] == StepOne(counters[j], Target(voteData, j))
      invariant completed <==> forall j :: 0 <= j < i ==> counters[j] >= Target(voteData, j)
    {
      var target := Target(voteData, i);
      if counters[i] < target {
        completed := false;
        var tenth := (target - counters[i] + 9) / 10;
        next := next + [counters[i] + (if tenth > 1 then tenth else 1)];
      } else {
        next := next + [target];
      }
      i := i + 1;
    }
  }

  /** The whole animation: counters start at 0, one per vote-data entry, and
      ticks repeat until a tick finds nothing below target. It stops after
      at most one tick more than the sum of the positive tallies, with every
      counter showing its tally. */
  method Animate(voteData: seq<VoteItem>) returns (counters: seq<int>, ticks: nat)
    ensures counters == Targets(voteData, |voteData|)
    ensures ticks <= Gap(seq(|voteData|, _ => 0), voteData, |voteData|) + 1
  {
    var n := |voteData|;
    counters := seq(n, _ => 0);
    ghost var start := Gap(counters, voteData, n);
    ticks := 0;
    var completed := false;
    while !completed
      invariant |counters| == n
      invariant completed ==> counters == Targets(voteData, n)
      invariant !completed ==> ticks + Gap(counters, voteData, n) <= start
      invariant completed ==> ticks <= start + 1
      decreases Gap(counters, voteData, n), if completed then 0 else 1
    {
      var next, done := Tick(counters, voteData);
      forall j | 0 <= j < n ensures Shortfall(next, voteData, j) <= Shortfall(counters, voteData, j) {
      }
      if !done {
        var k :| 0 <= k < n && counters[k] < Target(voteData, k);
        assert Shortfall(next, voteData, k) < Shortfall(counters, voteData, k);
      } else {
        assert next == Targets(voteData, n);
        GapZero(next, voteData, n);
      }
      GapShrinks(counters, next, voteData, n);
      counters, completed := next, done;
      ticks := ticks + 1;
    }
  }

  /** One row of the chart. */
  datatype ChartEntry = ChartEntry(name: string, votes: int, displayVotes: Option<int>, color: string)

  /** The chart rows: one per vote-data entry, in order, each showing the
      tally, the counter of the same index (when there is one) and the
      colours in turn. */
  function ChartData(voteData: seq<VoteItem>, counters: seq<int>): (r: seq<ChartEntry>)
    ensures |r| == |voteData|
    ensures forall i :: 0 <= i < |r| ==>
      && r[i].name == voteData[i].name && r[i].votes == voteData[i].votes
      && r[i].displayVotes == (if i < |counters| then Some(counters[i]) else None)
      && r[i].color == COLORS[i % 8]
  {
    seq(|voteData|, i requires 0 <= i < |voteData| =>
      ChartEntry(voteData[i].name, voteData[i].votes,
                 if i < |counters| then Some(counters[i]) else None,
                 COLORS[i % |COLORS|]))
  }

  /** Once the animation has stopped, every chart row shows its tally. */
  lemma ChartSettles(voteData: seq<VoteItem>)
    ensures forall i :: 0 <= i < |voteData| ==>
      ChartData(voteData, Targets(voteData, |voteData|))[i].displayVotes == Some(voteData[i].votes)
  {
    var r := ChartData(voteData, Targets(voteData, |voteData|));
    forall i | 0 <= i < |voteData| ensures r[i].displayVotes == Some(voteData[i].votes) {
      assert Target(voteData, i) == voteData[i].votes;
    }
  }
}
