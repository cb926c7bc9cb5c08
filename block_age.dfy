/**
 * The latest-block age monitor. Each snapshot delivery re-runs an effect: it first
 * clears the interval the previous run started, then, when the snapshot has a
 * newest block, sets the elapsed time from that block's `minedAt` and starts a
 * one-second interval that keeps recomputing it against the same anchor.
 * Times are whole seconds; `now` is passed in.
 */
module BlockAge {
  import opened Wrappers
  import opened LatestBlocks

  /** Above this many seconds the feed is shown as resyncing. */
  const ResyncThresholdSeconds := 1800

  /** What the age line shows: the resyncing notice, or the age (a skeleton while unknown). */
  datatype AgeView = Resyncing | Age(seconds: Option<int>)

  /** The view of an elapsed time. */
  function AgeIndicator(timeElapsed: Option<int>): (v: AgeView)
    ensures v == Resyncing <==> timeElapsed.Some? && timeElapsed.value > ResyncThresholdSeconds
    ensures v != Resyncing ==> v == Age(timeElapsed)
  {
    if timeElapsed.Some? && timeElapsed.value > ResyncThresholdSeconds then Resyncing else Age(timeElapsed)
  }

  /** Once an age is past the threshold, every larger age is too: a stalled anchor stays stalled as ticks go by. */
  lemma ResyncingPersists(t: int, t': int)
    requires t <= t'
    requires AgeIndicator(Some(t)) == Resyncing
    ensures AgeIndicator(Some(t')) == Resyncing
  {
  }

  /** `minedAt` of the first (newest) block of a snapshot, absent when it has not loaded or is empty. */
  function NewestMinedAt(snapshot: Option<seq<LatestBlock>>): (m: Option<int>)
    ensures m.Some? <==> snapshot.Some? && |snapshot.value| > 0
    ensures m.Some? ==> m.value == snapshot.value[0].minedAt
  {
    if snapshot.Some? && |snapshot.value| > 0 then Some(snapshot.value[0].minedAt) else None
  }

  /** An interval the effect started: its id and the `minedAt` its callback measures from. */
  datatype Interval = Interval(id: nat, anchor: int)

  class LatestBlockAge {
    /** The component's `timeElapsed` state. */
    var timeElapsed: Option<int>
    /** The interval started by the effect's latest run, which its cleanup clears. */
    var live: Option<Interval>
    /** The window's table of scheduled intervals of this component: id to the anchor its callback captured. */
    var timers: map<nat, int>
    /** The id the window hands out for the next interval. */
    var nextId: nat

    /** The window schedules exactly the interval the component holds, if any. */
    ghost predicate Valid()
      reads this
    {
      match live
      case None => timers == map[]
      case Some(iv) => timers == map[iv.id := iv.anchor] && iv.id < nextId
    }

    /** The age view as rendered now. */
    function Indicator(): (v: AgeView)
      reads this
      ensures v == Resyncing <==> timeElapsed.Some? && timeElapsed.value > ResyncThresholdSeconds
    {
      AgeIndicator(timeElapsed)
    }

    /** Mounting: no elapsed time yet and no interval. */
    constructor ()
      ensures Valid()
      ensures timeElapsed.None? && live.None? && timers == map[]
    {
      timeElapsed := None;
      live := None;
      timers := map[];
      nextId := 0;
    }

    /** A snapshot arrives and the effect re-runs: clean up, then re-anchor if there is a newest block. */
    method OnSnapshot(snapshot: Option<seq<LatestBlock>>, now: int)
      requires Valid()
      modifies this
      ensures Valid()
      ensures |timers| <= 1
      ensures old(live).Some? ==> old(live).value.id !in timers
      ensures match NewestMinedAt(snapshot)
        case None =>
          && timeElapsed == old(timeElapsed)
          && live.None? && timers == map[] && nextId == old(nextId)
        case Some(minedAt) =>
          && timeElapsed == Some(now - minedAt)
          && live == Some(Interval(old(nextId), minedAt))
          && timers == map[old(nextId) := minedAt]
          && nextId == old(nextId) + 1
    {
      Cleanup();
      if snapshot.Some? && |snapshot.value| > 0 {
        var minedAt := snapshot.value[0].minedAt;
        timeElapsed := Some(now - minedAt);
        var id := nextId;
        nextId := nextId + 1;
        timers := timers[id := minedAt];
        live := Some(Interval(id, minedAt));
      }
    }

    /** The window runs the callback of interval `id`; a cleared interval never runs. */
    method Tick(id: nat, now: int)
      requires Valid()
      modifies this`timeElapsed
      ensures Valid()
      ensures timeElapsed == if live.Some? && live.value.id == id then Some(now - live.value.anchor) else old(timeElapsed)
    {
      if id in timers {
        timeElapsed := Some(now - timers[id]);
      }
    }

    /** Unmounting: the last run's cleanup clears its interval. */
    method Dispose()
      requires Valid()
      modifies this`live, this`timers
      ensures Valid()
      ensures live.None? && timers == map[]
    {
      Cleanup();
    }

    /** The cleanup the previous run returned, if it started an interval: clear it. */
    method Cleanup()
      requires Valid()
      modifies this`live, this`timers
      ensures Valid()
      ensures live.None? && timers == map[]
    {
      if live.Some? {
        timers := timers - {live.value.id};
        live := None;
      }
    }
  }

  /** A run of events: a stale block shows resyncing, a recent one clears it, and after unmounting ticks do nothing. */
  method AgeScenario()
  {
    var monitor := new LatestBlockAge();
    assert monitor.Indicator() == Age(None);

    var stale := LatestBlock(100, 0, None, None, None);
    monitor.OnSnapshot(Some([stale]), 1801);
    assert monitor.Indicator() == Resyncing;

    var recent := LatestBlock(101, 1790, None, None, None);
    monitor.OnSnapshot(Some([recent, stale]), 1800);
    assert monitor.timeElapsed == Some(10);
    assert monitor.Indicator() == Age(Some(10));
    var id := monitor.live.value.id;
    monitor.Tick(id, 1805);
    assert monitor.timeElapsed == Some(15);

    // An absent snapshot stops the interval and freezes the last age.
    monitor.OnSnapshot(None, 1806);
    monitor.Tick(id, 1900);
    assert monitor.timeElapsed == Some(15);

    // An older block re-anchors: the age jumps back up.
    monitor.OnSnapshot(Some([stale]), 1810);
    assert monitor.Indicator() == Resyncing;

    monitor.Dispose();
    assert monitor.timers == map[];
    monitor.Tick(id + 1, 5000);
    assert monitor.Indicator() == Resyncing && monitor.timeElapsed == Some(1810);
  }
}
