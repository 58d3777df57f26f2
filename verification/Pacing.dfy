/** The writer's schedule: when it may write next, and what that says about the times of its iterations. */
module Pacing {
  import opened Bytes

  /** next_write after a successful write at `now`: one interval on, or restarted when too far behind. */
  function AfterWrite(nextWrite: int, now: int, interval: nat): int
  {
    var next := nextWrite + interval;
    if next < now - interval then now + interval else next
  }

  /** next_write after an iteration without a successful write. */
  function AfterNothing(now: int, interval: nat): int
  {
    now + interval
  }

  function Times(count: int, interval: nat): int
  {
    count * interval
  }

  lemma TimesNext(count: int, interval: nat)
    ensures Times(count + 1, interval) == Times(count, interval) + interval
    ensures Times(0, interval) == 0
  {
  }

  /** The long-run rate: iteration i runs no earlier than start + i intervals. */
  ghost predicate NeverEarly(start: int, interval: nat, ticks: seq<int>)
  {
    forall i :: 0 <= i < |ticks| ==> ticks[i] >= start + Times(i, interval)
  }

  /** Bursts: any stretch of iterations catches up by at most two intervals. */
  ghost predicate BoundedBursts(interval: nat, ticks: seq<int>)
  {
    forall i, j :: 0 <= i < j < |ticks| ==> ticks[j] - ticks[i] >= Times(j - i - 2, interval)
  }

  /** next_write lies at least as far after each earlier iteration as a burst may close up. */
  ghost predicate Ahead(interval: nat, ticks: seq<int>, nextWrite: int)
  {
    forall i :: 0 <= i < |ticks| ==> nextWrite - ticks[i] >= Times(|ticks| - i - 2, interval)
  }

  /** At the loop head next_write carries both bounds on to the coming iteration. */
  ghost predicate Scheduled(start: int, interval: nat, ticks: seq<int>, nextWrite: int)
  {
    && NeverEarly(start, interval, ticks)
    && BoundedBursts(interval, ticks)
    && nextWrite >= start + Times(|ticks|, interval)
    && Ahead(interval, ticks, nextWrite)
    && nextWrite <= Soonest(start, interval, ticks)
  }

  /** The writer is never made to wait longer than one interval after its last iteration. */
  function Soonest(start: int, interval: nat, ticks: seq<int>): int
  {
    if ticks == [] then start else ticks[|ticks| - 1] + interval
  }

  /** Inside an iteration, after its clock was read and before next_write is moved. */
  ghost predicate InIteration(start: int, interval: nat, ticks: seq<int>, nextWrite: int)
  {
    && ticks != []
    && Scheduled(start, interval, ticks[..|ticks| - 1], nextWrite)
    && ticks[|ticks| - 1] >= nextWrite
  }

  lemma ScheduleStarts(start: int, interval: nat)
    ensures Scheduled(start, interval, [], start)
  {
    TimesNext(0, interval);
  }

  lemma IterationStarts(start: int, interval: nat, ticks: seq<int>, nextWrite: int, now: int)
    requires Scheduled(start, interval, ticks, nextWrite) && now >= nextWrite
    ensures InIteration(start, interval, ticks + [now], nextWrite)
    ensures NeverEarly(start, interval, ticks + [now]) && BoundedBursts(interval, ticks + [now])
  {
    hide NeverEarly, BoundedBursts, Ahead, Times;
    assert (ticks + [now])[..|ticks|] == ticks;
    BurstsExtend(interval, ticks, nextWrite, now);
    NeverEarlyExtends(start, interval, ticks, now);
  }

  lemma BurstsExtend(interval: nat, ticks: seq<int>, nextWrite: int, now: int)
    requires BoundedBursts(interval, ticks) && Ahead(interval, ticks, nextWrite) && now >= nextWrite
    ensures BoundedBursts(interval, ticks + [now])
  {
    hide Times;
    var more := ticks + [now];
    forall i, j | 0 <= i < j < |more| ensures more[j] - more[i] >= Times(j - i - 2, interval) {
      if j == |ticks| {
        assert nextWrite - ticks[i] >= Times(|ticks| - i - 2, interval);
      } else {
        assert ticks[j] - ticks[i] >= Times(j - i - 2, interval);
      }
    }
  }

  lemma NeverEarlyExtends(start: int, interval: nat, ticks: seq<int>, now: int)
    requires NeverEarly(start, interval, ticks) && now >= start + Times(|ticks|, interval)
    ensures NeverEarly(start, interval, ticks + [now])
  {
    hide Times;
    var more := ticks + [now];
    forall i | 0 <= i < |more| ensures more[i] >= start + Times(i, interval) {
      if i < |ticks| {
        assert ticks[i] >= start + Times(i, interval);
      }
    }
  }

  lemma IterationEnds(start: int, interval: nat, before: seq<int>, now: int, nextWrite: int, next: int)
    requires Scheduled(start, interval, before, nextWrite) && now >= nextWrite
    requires next >= nextWrite + interval && now - interval <= next <= now + interval
    ensures Scheduled(start, interval, before + [now], next)
  {
    hide Times, NeverEarly, BoundedBursts, Ahead;
    IterationStarts(start, interval, before, nextWrite, now);
    TimesNext(|before|, interval);
    AheadExtends(interval, before, now, nextWrite, next);
  }

  lemma AheadExtends(interval: nat, before: seq<int>, now: int, nextWrite: int, next: int)
    requires Ahead(interval, before, nextWrite)
    requires next >= nextWrite + interval && next >= now - interval
    ensures Ahead(interval, before + [now], next)
  {
    hide Times;
    var n, ticks := |before|, before + [now];
    forall i | 0 <= i < |ticks| ensures next - ticks[i] >= Times(|ticks| - i - 2, interval) {
      if i < n {
        OneMoreInterval(nextWrite, next, before[i], interval, n - i - 2);
      } else {
        TimesNext(-1, interval);
      }
    }
  }

  lemma OneMoreInterval(nextWrite: int, next: int, tick: int, interval: nat, k: int)
    requires nextWrite - tick >= Times(k, interval) && next >= nextWrite + interval
    ensures next - tick >= Times(k + 1, interval)
  {
    TimesNext(k, interval);
  }

  /** Both ways next_write moves, including a schedule restart, keep the bounds. */
  lemma NextWriteKeepsSchedule(start: int, interval: nat, ticks: seq<int>, nextWrite: int)
    requires InIteration(start, interval, ticks, nextWrite)
    ensures ticks != []
    ensures Scheduled(start, interval, ticks, AfterWrite(nextWrite, ticks[|ticks| - 1], interval))
    ensures Scheduled(start, interval, ticks, AfterNothing(ticks[|ticks| - 1], interval))
  {
    hide Scheduled;
    var before, now := ticks[..|ticks| - 1], ticks[|ticks| - 1];
    assert ticks == before + [now];
    IterationEnds(start, interval, before, now, nextWrite, AfterWrite(nextWrite, now, interval));
    IterationEnds(start, interval, before, now, nextWrite, AfterNothing(now, interval));
  }

  /** Every iteration came at most two intervals after its deadline. */
  ghost predicate OnTime(start: int, interval: nat, ticks: seq<int>)
  {
    forall k :: 0 <= k < |ticks| ==> ticks[k] <= Deadline(start, interval, ticks[..k]) + 2 * interval
  }

  lemma FrontIsOnTime(start: int, interval: nat, ticks: seq<int>)
    requires ticks != [] && OnTime(start, interval, ticks)
    ensures OnTime(start, interval, ticks[..|ticks| - 1])
  {
    hide Deadline;
    var front := ticks[..|ticks| - 1];
    forall k | 0 <= k < |front| ensures front[k] <= Deadline(start, interval, front[..k]) + 2 * interval {
      assert front[..k] == ticks[..k];
    }
  }

  /** A writer never more than two intervals late keeps to its grid: deadlines do not drift. */
  lemma {:induction false} NoDrift(start: int, interval: nat, ticks: seq<int>)
    requires OnTime(start, interval, ticks)
    ensures Deadline(start, interval, ticks) == start + Times(|ticks|, interval)
    decreases |ticks|
  {
    hide OnTime, Times;
    TimesNext(|ticks| - 1, interval);
    if ticks == [] {
    } else {
      FrontIsOnTime(start, interval, ticks);
      NoDrift(start, interval, ticks[..|ticks| - 1]);
      LastIsOnTime(start, interval, ticks);
    }
  }

  lemma LastIsOnTime(start: int, interval: nat, ticks: seq<int>)
    requires ticks != [] && OnTime(start, interval, ticks)
    ensures var deadline := Deadline(start, interval, ticks[..|ticks| - 1]);
            ticks[|ticks| - 1] <= deadline + 2 * interval
            && Deadline(start, interval, ticks) == deadline + interval
  {
  }

  /** A writer later than that starts a new grid one interval on. */
  lemma LateStartsAnew(nextWrite: int, now: int, interval: nat)
    requires now > nextWrite + 2 * interval
    ensures AfterWrite(nextWrite, now, interval) == now + interval
  {
  }

  /** next_write after iterations that all wrote. */
  function Deadline(start: int, interval: nat, ticks: seq<int>): int
  {
    if ticks == [] then start
    else AfterWrite(Deadline(start, interval, ticks[..|ticks| - 1]), ticks[|ticks| - 1], interval)
  }

  /** Every iteration waited for its deadline. */
  ghost predicate Waited(start: int, interval: nat, ticks: seq<int>)
  {
    forall k :: 0 <= k < |ticks| ==> ticks[k] >= Deadline(start, interval, ticks[..k])
  }

  /** A writer whose first iteration came two intervals late. */
  function Late(interval: nat, n: nat): (ticks: seq<int>)
    ensures |ticks| == n
  {
    seq<int>(n, k requires 0 <= k => Times(Max(2, k), interval))
  }

  lemma {:induction false} LateDeadline(interval: nat, n: nat)
    ensures Deadline(0, interval, Late(interval, n)) == Times(n, interval)
  {
    TimesNext(0, interval);
    if n == 0 {
    } else {
      LateDeadline(interval, n - 1);
      assert Late(interval, n)[..n - 1] == Late(interval, n - 1);
      TimesNext(n - 1, interval);
      TimesGrows(n - 1, Max(2, n - 1), interval);
      TimesGrows(Max(2, n - 1) - 2, n - 1, interval);
      TimesNext(Max(2, n - 1) - 2, interval);
      TimesNext(Max(2, n - 1) - 1, interval);
    }
  }

  lemma TimesGrows(a: int, b: int, interval: nat)
    requires a <= b
    ensures Times(a, interval) <= Times(b, interval)
  {
    assert (b - a) * interval >= 0;
  }

  /** The burst bound is attained: after a late start three iterations share an instant, and the lead is kept. */
  lemma BurstBoundIsTight(interval: nat, n: nat)
    ensures Waited(0, interval, Late(interval, n))
    ensures forall j :: 2 <= j < n ==> Late(interval, n)[j] - Late(interval, n)[0] == Times(j - 0 - 2, interval)
  {
    hide Times;
    var ticks := Late(interval, n);
    forall k | 0 <= k < n ensures ticks[k] >= Deadline(0, interval, ticks[..k]) {
      assert ticks[..k] == Late(interval, k);
      LateDeadline(interval, k);
      TimesGrows(k, Max(2, k), interval);
    }
    forall j | 2 <= j < n ensures ticks[j] - ticks[0] == Times(j - 2, interval) {
      TimesSplit(2, j - 2, interval);
    }
  }

  lemma TimesSplit(a: int, b: int, interval: nat)
    ensures Times(a + b, interval) == Times(a, interval) + Times(b, interval)
  {
  }
}
