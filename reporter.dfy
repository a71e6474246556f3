/**
 * The reporter loop on the main thread. Each tick reads the metrics
 * timer's running count, logs the difference from the previous reading as
 * that second's throughput, and sleeps for the rest of the second. The
 * counter readings and the time each tick spent are parameters.
 */
module Reporter {

  /** The reading before `i`; the loop starts from a count of zero. */
  function Previous(snapshots: seq<int>, i: nat): int
    requires i < |snapshots|
  {
    if i == 0 then 0 else snapshots[i - 1]
  }

  /** The throughput samples logged for a sequence of counter readings. */
  function Deltas(snapshots: seq<int>): (d: seq<int>)
    ensures |d| == |snapshots|
  {
    seq(|snapshots|, i requires 0 <= i < |snapshots| => snapshots[i] - Previous(snapshots, i))
  }

  function Sum(s: seq<int>): int
  {
    if s == [] then 0 else Sum(s[..|s| - 1]) + s[|s| - 1]
  }

  predicate NonDecreasing(s: seq<int>)
  {
    forall i, j :: 0 <= i < j < |s| ==> s[i] <= s[j]
  }

  /** The samples add up to the last reading: no completed request is lost or counted twice. */
  lemma {:induction false} DeltasTelescope(snapshots: seq<int>)
    ensures Sum(Deltas(snapshots)) == if snapshots == [] then 0 else snapshots[|snapshots| - 1]
  {
    if snapshots != [] {
      var n := |snapshots|;
      var front := snapshots[..n - 1];
      assert Deltas(snapshots)[..n - 1] == Deltas(front);
      DeltasTelescope(front);
    }
  }

  /** A counter that never goes down yields no negative sample. */
  lemma DeltasNonNegative(snapshots: seq<int>)
    requires |snapshots| > 0 ==> snapshots[0] >= 0
    requires NonDecreasing(snapshots)
    ensures forall i :: 0 <= i < |snapshots| ==> Deltas(snapshots)[i] >= 0
  {
  }

  /** The sleep `1000 - spent` asked for after a tick that took `spent` milliseconds. */
  function SleepRequest(spent: int): (ms: int)
    ensures spent + ms == 1000
  {
    1000 - spent
  }

  /** `Thread.sleep` throws `IllegalArgumentException` for a negative argument. */
  predicate SleepAccepts(ms: int)
  {
    ms >= 0
  }

  /** A tick that takes longer than a second asks for a negative sleep, which ends the loop with an exception. */
  lemma SlowTickIsRejected(spent: int)
    requires spent > 1000
    ensures !SleepAccepts(SleepRequest(spent))
  {
  }

  /** The sleep the loop evidently intends: the rest of the second, or none once the second is gone. */
  function ClampedSleep(spent: int): (ms: int)
    ensures SleepAccepts(ms)
    ensures 0 <= spent <= 1000 ==> ms == SleepRequest(spent)
    ensures spent + ms == if spent < 1000 then 1000 else spent
  {
    if spent < 1000 then 1000 - spent else 0
  }

  /**
   * The tick at which the loop as written stops: the first whose sleep
   * request `Thread.sleep` rejects, or the number of ticks if there is none.
   */
  function FirstRejected(spent: seq<int>): (k: nat)
    ensures k <= |spent|
    ensures forall i :: 0 <= i < k ==> SleepAccepts(SleepRequest(spent[i]))
    ensures k < |spent| ==> !SleepAccepts(SleepRequest(spent[k]))
  {
    if spent == [] then 0
    else if !SleepAccepts(SleepRequest(spent[0])) then 0
    else 1 + FirstRejected(spent[1..])
  }

  /** The first tick whose request is rejected, after accepted ones, is `FirstRejected`. */
  lemma FirstRejectedAt(spent: seq<int>, j: nat)
    requires j <= |spent|
    requires forall k :: 0 <= k < j ==> SleepAccepts(SleepRequest(spent[k]))
    requires j < |spent| ==> !SleepAccepts(SleepRequest(spent[j]))
    ensures FirstRejected(spent) == j
  {
  }

  /** The number of samples the loop as written logs: the rejected tick still logs its sample before it sleeps. */
  function Logged(spent: seq<int>): (n: nat)
    ensures n <= |spent|
    ensures n == |spent| || n == FirstRejected(spent) + 1
  {
    if FirstRejected(spent) < |spent| then FirstRejected(spent) + 1 else |spent|
  }

  /** A first tick of 1001 ms: one sample is logged, then the loop ends with the exception. */
  lemma SlowFirstTickEndsLoop()
    ensures FirstRejected([1001, 0]) == 0 && Logged([1001, 0]) == 1
  {
  }

  /**
   * The loop as written, over `n` ticks: tick `i` reads `snapshots[i]`,
   * spends `spent[i]` milliseconds, logs `deltas[i]` and asks `Thread.sleep`
   * for `sleeps[i]`. The first negative request makes `Thread.sleep` throw
   * `IllegalArgumentException`, which the loop does not catch: it ends with
   * `rejected` set after logging `logged` samples.
   */
  method Report(snapshots: array<int>, spent: array<int>)
      returns (deltas: array<int>, sleeps: seq<int>, logged: nat, rejected: bool)
    requires snapshots.Length == spent.Length
    ensures fresh(deltas) && deltas.Length == snapshots.Length
    ensures rejected <==> FirstRejected(spent[..]) < spent.Length
    ensures logged == Logged(spent[..])
    ensures deltas[..logged] == Deltas(snapshots[..])[..logged]
    ensures |sleeps| == logged
    ensures forall i :: 0 <= i < logged ==> sleeps[i] == SleepRequest(spent[i])
  {
    var n := snapshots.Length;
    ghost var readings, times := snapshots[..], spent[..];
    ghost var expected := Deltas(readings);
    deltas := new int[n];
    sleeps := [];
    rejected := false;
    var count := 0;
    var i := 0;
    while i < n && !rejected
      invariant 0 <= i <= n && |sleeps| == i
      invariant forall k :: 0 <= k < i ==> sleeps[k] == SleepRequest(times[k])
      invariant forall k :: 0 <= k < i - 1 ==> SleepAccepts(sleeps[k])
      invariant rejected ==> 0 < i
      invariant 0 < i ==> (rejected <==> !SleepAccepts(sleeps[i - 1]))
      invariant count == if i == 0 then 0 else readings[i - 1]
      invariant forall k :: 0 <= k < i ==> deltas[k] == expected[k]
    {
      var tmpCount := snapshots[i];
      assert expected[i] == tmpCount - count;
      deltas[i] := tmpCount - count;
      count := tmpCount;
      var ms := SleepRequest(spent[i]);
      sleeps := sleeps + [ms];
      rejected := !SleepAccepts(ms);
      i := i + 1;
    }
    FirstRejectedAt(times, if rejected then i - 1 else i);
    logged := i;
    assert deltas[..logged] == expected[..logged];
  }

  /** Readings 5 and 7, with a first tick of 1001 ms: the loop logs 5 and then ends with the exception. */
  method SlowTickExample() returns (logged: nat, rejected: bool, firstSample: int)
    ensures logged == 1 && rejected && firstSample == 5
  {
    var snapshots := new int[] [5, 7];
    var spent := new int[] [1001, 0];
    assert snapshots[..] == [5, 7] && spent[..] == [1001, 0];
    var deltas, sleeps;
    deltas, sleeps, logged, rejected := Report(snapshots, spent);
    assert deltas[..1] == Deltas([5, 7])[..1];
    firstSample := deltas[0];
  }

  /**
   * The loop as evidently intended: every tick logs its sample and asks for
   * `ClampedSleep`, so no tick ends the loop.
   */
  method ReportClamped(snapshots: array<int>, spent: array<int>) returns (deltas: array<int>, sleeps: seq<int>)
    requires snapshots.Length == spent.Length
    ensures fresh(deltas)
    ensures deltas[..] == Deltas(snapshots[..])
    ensures |sleeps| == spent.Length
    ensures forall i :: 0 <= i < |sleeps| ==> sleeps[i] == ClampedSleep(spent[i])
  {
    var n := snapshots.Length;
    ghost var readings, times := snapshots[..], spent[..];
    ghost var expected := Deltas(readings);
    deltas := new int[n];
    sleeps := [];
    var count := 0;
    var i := 0;
    while i < n
      invariant 0 <= i <= n && |sleeps| == i
      invariant forall k :: 0 <= k < i ==> sleeps[k] == ClampedSleep(times[k])
      invariant count == if i == 0 then 0 else readings[i - 1]
      invariant forall k :: 0 <= k < i ==> deltas[k] == expected[k]
    {
      var tmpCount := snapshots[i];
      assert expected[i] == tmpCount - count;
      deltas[i] := tmpCount - count;
      count := tmpCount;
      sleeps := sleeps + [ClampedSleep(spent[i])];
      i := i + 1;
    }
    assert deltas[..] == expected;
  }

  /** Both loops log the same samples for every tick the loop as written reaches. */
  lemma LoopsAgreeUntilRejected(spent: seq<int>)
    ensures forall i :: 0 <= i < FirstRejected(spent) ==> ClampedSleep(spent[i]) == SleepRequest(spent[i])
  {
  }
}
