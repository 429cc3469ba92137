/**
 The stop ladder over whole lives: it only climbs, each signal is sent at most
 once, and a stop that was asked for ends, within a bounded time, in SIGKILL or
 in a process found gone.
 */
module Ladder {
  import opened Safety
  import opened Tracking

  /** What the step says about the signals already sent. */
  predicate SignalsMatchStep(rung: Rung) {
    match rung.step
    case Unasked => rung.signals == []
    case Requested => rung.signals == []
    case Terminated => rung.signals == [SigTerm]
    case Killed => rung.signals == [SigKill] || rung.signals == [SigTerm, SigKill]
  }

  /** One operation never takes a worker down the ladder, nor takes back a signal. */
  lemma MomentClimbs(w: Tracked, m: Moment, options: Options)
    ensures Rank(w.rung.step) <= Rank(After(w, m, options).rung.step)
    ensures w.rung.signals <= After(w, m, options).rung.signals
    ensures SignalsMatchStep(w.rung) ==> SignalsMatchStep(After(w, m, options).rung)
    ensures w.rung.step == After(w, m, options).rung.step ==> w.rung == After(w, m, options).rung
    ensures w.rung == After(w, m, options).rung || After(w, m, options).rung.sinceNs == m.atNs
  {
  }

  /**
   Over every life: the step never goes back, the signals sent are never more
   than one SIGTERM followed by one SIGKILL, nothing follows a SIGKILL, and
   while a worker stays on a step nothing about the step changes.
   */
  lemma {:induction false} LadderOnlyClimbs(life: Life, i: nat, j: nat, options: Options)
    requires life.Valid(options) && i <= j <= |life.moments|
    ensures Rank(life.states[i].rung.step) <= Rank(life.states[j].rung.step)
    ensures life.states[i].rung.signals <= life.states[j].rung.signals
    ensures life.states[j].rung.signals <= [SigTerm, SigKill] || life.states[j].rung.signals == [SigKill]
    ensures SignalsMatchStep(life.states[j].rung)
    ensures life.states[i].rung.step == life.states[j].rung.step ==> life.states[i].rung == life.states[j].rung
    decreases j
  {
    if j > 0 {
      assert life.Follows(j - 1, options);
      MomentClimbs(life.states[j - 1], life.moments[j - 1], options);
      LadderOnlyClimbs(life, if i < j then i else j - 1, j - 1, options);
    }
  }

  /** When the i-th moment came; the launch, for -1. */
  ghost function TimeAt(life: Life, i: int): int
    requires -1 <= i < |life.moments| && life.states != []
  {
    if i < 0 then life.states[0].pulse.launchedNs else life.moments[i].atNs
  }

  /** From the launch and from any moment the next watch comes within delta: the ticks are at most that far apart. */
  ghost predicate Prompt(life: Life, delta: int)
    requires life.states != []
  {
    forall i, k :: -1 <= i < k < |life.moments| && life.moments[k].Watch? && NoWatchBetween(life.moments, i, k)
                   ==> life.moments[k].atNs - TimeAt(life, i) <= delta
  }

  ghost predicate NoWatchBetween(moments: seq<Moment>, i: int, k: int)
    requires -1 <= i < k < |moments|
  {
    forall j :: i < j < k ==> !moments[j].Watch?
  }

  /** The step a worker is on was taken no later than its latest moment. */
  lemma {:induction false} StepTakenInThePast(life: Life, n: nat, options: Options)
    requires life.Valid(options) && 0 < n <= |life.moments|
    ensures life.states[n].rung.step != Unasked ==> life.states[n].rung.sinceNs <= life.moments[n - 1].atNs
  {
    assert life.Follows(n - 1, options);
    MomentClimbs(life.states[n - 1], life.moments[n - 1], options);
    if n > 1 {
      StepTakenInThePast(life, n - 1, options);
    }
  }

  /** A watch that comes when a step's grace is over takes the next step or finds the process gone. */
  lemma WatchEscalates(w: Tracked, m: Moment, options: Options)
    requires m.Watch? && !Faults(w, m, options)
    requires w.rung.step == Requested ==> m.atNs - w.rung.sinceNs >= options.grace.stopNs
    requires w.rung.step == Terminated ==> m.atNs - w.rung.sinceNs >= options.grace.killNs
    requires w.rung.step != Unasked
    ensures FindsGone(w, m, options) || w.rung.step == Killed
            || Rank(After(w, m, options).rung.step) > Rank(w.rung.step)
  {
  }

  /** The first watch later than `dueNs` comes within delta of it. */
  lemma FirstWatchPast(life: Life, s: int, k: nat, dueNs: int, delta: int) returns (j: nat)
    requires life.states != [] && Prompt(life, delta)
    requires -1 <= s < k < |life.moments| && life.moments[k].Watch?
    requires TimeAt(life, s) <= dueNs < life.moments[k].atNs
    ensures s < j <= k && life.moments[j].Watch? && dueNs < life.moments[j].atNs <= dueNs + delta
  {
    j := s + 1;
    var last := s;
    while !(life.moments[j].Watch? && life.moments[j].atNs > dueNs)
      invariant s <= last < j <= k
      invariant TimeAt(life, last) <= dueNs
      invariant forall i :: last < i < j ==> !life.moments[i].Watch?
      decreases k - j
    {
      if life.moments[j].Watch? {
        last := j;
      }
      j := j + 1;
    }
    assert NoWatchBetween(life.moments, last, j);
  }

  lemma {:induction false} UnreapedWhileWatched(life: Life, n: nat, j: nat, options: Options)
    requires life.Valid(options)
    requires n <= j < |life.moments| && life.moments[j].Watch?
    ensures !life.states[n].reaped
  {
    if n > 0 {
      assert life.Follows(n - 1, options);
      assert MayFollow(life.moments[n - 1], life.moments[j]);
      UnreapedWhileWatched(life, n - 1, j, options);
    }
  }

  /** After the watch that ends the request's grace, the worker has had SIGTERM, or was found gone. */
  lemma RequestEndsInTerm(life: Life, s: nat, j: nat, options: Options)
    requires life.Valid(options) && life.Faultless(options)
    requires s < j < |life.moments| && life.moments[s].AskStop? && life.moments[j].Watch?
    requires life.moments[j].atNs >= life.moments[s].atNs + options.grace.stopNs
    ensures Rank(life.states[j + 1].rung.step) >= 2 || life.GoneAt(j, options)
  {
    UnreapedWhileWatched(life, s, j, options);
    assert life.Follows(s, options) && !life.FaultsAt(s, options);
    assert Rank(life.states[s + 1].rung.step) >= 1;
    LadderOnlyClimbs(life, s + 1, j, options);
    StepTakenInThePast(life, s + 1, options);
    assert life.Follows(j, options) && !life.FaultsAt(j, options);
    MomentClimbs(life.states[j], life.moments[j], options);
    if life.states[j].rung.step == Requested {
      WatchEscalates(life.states[j], life.moments[j], options);
    }
  }

  /** A watch that comes SIGTERM's grace after the signal leaves the worker killed, or finds it gone. */
  lemma TermEndsInKill(life: Life, j: nat, k: nat, options: Options)
    requires life.Valid(options) && life.Faultless(options)
    requires j < k < |life.moments| && life.moments[k].Watch?
    requires Rank(life.states[j + 1].rung.step) >= 2
    requires life.moments[k].atNs >= life.moments[j].atNs + options.grace.killNs
    ensures life.states[k + 1].rung.step == Killed || life.GoneAt(k, options)
  {
    LadderOnlyClimbs(life, j + 1, k, options);
    StepTakenInThePast(life, j + 1, options);
    assert life.Follows(k, options) && !life.FaultsAt(k, options);
    MomentClimbs(life.states[k], life.moments[k], options);
    WatchEscalates(life.states[k], life.moments[k], options);
  }

  /**
   The bound: when ticks are at most delta apart, a worker that is still there
   to be watched after the request plus both graces plus two deltas had been
   killed, or found gone, by then.
   */
  lemma StopIsBounded(life: Life, s: nat, k: nat, delta: int, options: Options) returns (met: nat)
    requires life.Valid(options) && life.Faultless(options) && Prompt(life, delta)
    requires 0 <= options.grace.stopNs && 0 <= options.grace.killNs && 0 <= delta
    requires s < k < |life.moments| && life.moments[s].AskStop? && life.moments[k].Watch?
    requires life.moments[k].atNs > life.moments[s].atNs + options.grace.stopNs + options.grace.killNs + 2 * delta
    ensures s < met <= k
    ensures life.moments[met].atNs <= life.moments[s].atNs + options.grace.stopNs + options.grace.killNs + 2 * delta
    ensures life.states[met + 1].rung.step == Killed || life.GoneBefore(met + 1, options)
  {
    hide Prompt;
    var j := FirstWatchPast(life, s, k, life.moments[s].atNs + options.grace.stopNs, delta);
    RequestEndsInTerm(life, s, j, options);
    if life.GoneAt(j, options) {
      met := j;
    } else {
      met := FirstWatchPast(life, j, k, life.moments[j].atNs + options.grace.killNs, delta);
      TermEndsInKill(life, j, met, options);
    }
  }
}
