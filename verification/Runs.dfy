/**
 One supervised run: the loop over ticks that requests the stop, carries out the
 schedule, watches every worker, takes in what the workers sent and reaps those
 that ended. Every worker's life is kept beside its state, so what is proved of
 all lives holds of every run.
 */
module Runs {
  import opened Wrappers
  import opened Safety
  import opened Control
  import opened Tracking
  import opened Ladder
  import opened Watchdog
  import opened Protocol
  import opened Pool

  /** What a worker was handed of the schedule, sent or dropped. */
  ghost function Handed(life: Life): seq<Command> {
    ScheduledIn(life.moments)
  }

  /** The life went on by one moment. */
  ghost predicate GrewBy(before: Life, after: Life, m: Moment, options: Options) {
    before.states != [] && after == before.Then(m, options)
  }

  /** One moment more, and the same before it. */
  ghost predicate Added(before: Life, after: Life) {
    |after.moments| == |before.moments| + 1 && before.moments <= after.moments
  }

  ghost function LastOf(life: Life): Moment
    requires life.moments != []
  {
    life.moments[|life.moments| - 1]
  }

  /** Every order names a worker of the run. */
  ghost predicate Fits(schedule: seq<Step>, workers: nat) {
    forall s, o :: 0 <= s < |schedule| && 0 <= o < |schedule[s].orders| ==> schedule[s].orders[o].slot < workers
  }

  // ---- A life as a run keeps it ---------------------------------------------------

  ghost predicate Asked(life: Life) {
    exists k :: 0 <= k < |life.moments| && life.moments[k].AskStop?
  }

  ghost predicate Pressed(life: Life) {
    exists k :: 0 <= k < |life.moments| && life.moments[k].Insist?
  }

  /** The life is the worker's, up to the clock, and met no kernel error. */
  ghost predicate Tells(life: Life, w: Tracked, clockNs: int, options: Options) {
    && life.Valid(options)
    && life.Faultless(options)
    && life.Now() == w
    && (forall k :: 0 <= k < |life.moments| ==> life.moments[k].atNs <= clockNs)
    && (!w.reaped ==> forall k :: 0 <= k < |life.moments| ==> !life.moments[k].Reap?)
  }

  ghost predicate NoWatchAfter(moments: seq<Moment>, i: int)
    requires -1 <= i < |moments|
  {
    forall j :: i < j < |moments| ==> !moments[j].Watch?
  }

  /** Watches came at most `gap` apart; whatever no watch has followed yet is no older than the last tick. */
  ghost predicate Paced(life: Life, tickNs: int, gap: int)
    requires life.states != []
  {
    && Prompt(life, gap)
    && (forall i :: -1 <= i < |life.moments| && NoWatchAfter(life.moments, i) ==> TimeAt(life, i) >= tickNs)
  }

  /** A moment the controller may add now. */
  ghost predicate Admits(life: Life, w: Tracked, m: Moment, clockNs: int, options: Options) {
    && m.atNs == clockNs
    && (m.AskStop? || m.Schedule? ==> !Asked(life))
    && (m.Watch? || m.Reap? ==> !w.reaped)
    && !Faults(w, m, options)
  }

  lemma TellsOn(life: Life, w: Tracked, m: Moment, clockNs: int, options: Options)
    requires Tells(life, w, clockNs, options) && Admits(life, w, m, clockNs, options)
    ensures Tells(life.Then(m, options), After(w, m, options), clockNs, options)
    ensures Asked(life.Then(m, options)) <==> Asked(life) || m.AskStop?
    ensures Pressed(life.Then(m, options)) <==> Pressed(life) || m.Insist?
  {
    LifeGoesOn(life, m, options);
    var next := life.Then(m, options);
    forall k | 0 <= k < |next.moments| ensures !next.FaultsAt(k, options) {
      if k < |life.moments| {
        assert !life.FaultsAt(k, options);
      }
    }
    assert next.moments[|life.moments|] == m;
    assert forall k :: 0 <= k < |life.moments| ==> next.moments[k] == life.moments[k];
    assert !m.Reap? ==> After(w, m, options).reaped == w.reaped;
  }

  lemma PacedOn(life: Life, m: Moment, tickNs: int, gap: int, options: Options)
    requires life.states != [] && Paced(life, tickNs, gap)
    requires m.atNs >= tickNs
    requires m.Watch? ==> m.atNs - tickNs <= gap
    ensures Paced(life.Then(m, options), if m.Watch? then m.atNs else tickNs, gap)
  {
    var before, next := life.moments, life.Then(m, options);
    var after := next.moments;
    forall i, k | -1 <= i < k < |after| && after[k].Watch? && NoWatchBetween(after, i, k)
      ensures after[k].atNs - TimeAt(next, i) <= gap
    {
      if k < |before| {
        assert forall j :: 0 <= j < |before| ==> after[j] == before[j];
        assert NoWatchBetween(before, i, k);
      } else {
        assert forall j :: i < j < |before| ==> before[j] == after[j];
        assert NoWatchAfter(before, i);
      }
    }
    forall i | -1 <= i < |after| && NoWatchAfter(after, i)
      ensures TimeAt(next, i) >= if m.Watch? then m.atNs else tickNs
    {
      if i < |before| {
        assert after[|before|] == m;
        assert forall j :: i < j < |before| ==> before[j] == after[j];
        assert NoWatchAfter(before, i);
      }
    }
  }

  lemma PromptOn(life: Life, m: Moment, gap: int, options: Options)
    requires life.states != [] && Prompt(life, gap) && !m.Watch?
    ensures Prompt(life.Then(m, options), gap)
  {
    var before, next := life.moments, life.Then(m, options);
    var after := next.moments;
    forall i, k | -1 <= i < k < |after| && after[k].Watch? && NoWatchBetween(after, i, k)
      ensures after[k].atNs - TimeAt(next, i) <= gap
    {
      assert forall j :: 0 <= j < |before| ==> after[j] == before[j];
      assert NoWatchBetween(before, i, k);
    }
  }

  /** The worker is what its life made it: asked to stop exactly if the run was, insisted on exactly if it is forced. */
  ghost predicate Kept(life: Life, w: Tracked, asked: bool, forced: bool, clockNs: int, options: Options) {
    Tells(life, w, clockNs, options) && (Asked(life) <==> asked) && (Pressed(life) <==> forced)
  }

  lemma AskedIsKept(life: Life, w: Tracked, asked: bool, forced: bool, clockNs: int, options: Options)
    requires Kept(life, w, asked, forced, clockNs, options)
    ensures Asked(life) <==> asked
  {
  }

  ghost predicate AtPace(life: Life, w: Tracked, tickNs: int, gap: int) {
    life.states != [] && Prompt(life, gap) && (!w.reaped ==> Paced(life, tickNs, gap))
  }

  /** A reaped worker is watched no more, so no tick is waited for. */
  lemma ReapedPace(life: Life, w: Tracked, tickNs: int, later: int, gap: int)
    requires AtPace(life, w, tickNs, gap) && w.reaped
    ensures AtPace(life, w, later, gap)
  {
  }

  lemma WatchedStays(moments: seq<Moment>, more: seq<Moment>, n: nat, fewer: nat, atNs: int)
    requires WatchedAt(moments, n, atNs) && moments <= more && fewer <= n
    ensures WatchedAt(more, fewer, atNs)
  {
    var k :| n <= k < |moments| && moments[k].Watch? && moments[k].atNs == atNs;
    assert more[k] == moments[k];
  }

  /** Time passes: the life is still the worker's, and the pace is judged by the wider gap. */
  lemma LaterOn(life: Life, w: Tracked, asked: bool, forced: bool, clockNs: int, later: int, tickNs: int, gap: int,
                wider: int, options: Options)
    requires Kept(life, w, asked, forced, clockNs, options) && clockNs <= later
    requires AtPace(life, w, tickNs, gap) && gap <= wider
    ensures Kept(life, w, asked, forced, later, options)
    ensures AtPace(life, w, tickNs, wider)
  {
  }

  function LaunchAll(launchedNs: seq<int>): (workers: seq<Tracked>)
    ensures |workers| == |launchedNs|
    ensures forall i :: 0 <= i < |workers| ==> workers[i] == Launched(launchedNs[i])
  {
    seq(|launchedNs|, i requires 0 <= i < |launchedNs| => Launched(launchedNs[i]))
  }

  ghost function BeginAll(launchedNs: seq<int>): (lives: seq<Life>)
    ensures |lives| == |launchedNs|
    ensures forall i :: 0 <= i < |lives| ==> lives[i] == Life([], [Launched(launchedNs[i])])
  {
    seq(|launchedNs|, i requires 0 <= i < |launchedNs| => Life([], [Launched(launchedNs[i])]))
  }

  /** What the records of a read make of a worker: a refused one closes the channel to the rest. */
  function TakenIn(w: Tracked, records: seq<Record>): Tracked {
    if records == [] then w
    else Received(TakenIn(w, records[..|records| - 1]), records[|records| - 1])
  }

  function Drained(w: Tracked, records: seq<Record>, end: Option<ChannelEnd>): Tracked {
    var taken := TakenIn(w, records);
    if end.None? then taken else Ended(taken, end.value)
  }

  lemma {:induction false} ClosedTakesNothing(w: Tracked, records: seq<Record>)
    requires w.channel != Open
    ensures TakenIn(w, records) == w
  {
    if records != [] {
      ClosedTakesNothing(w, records[..|records| - 1]);
    }
  }

  /** Nothing is taken in after the record that closed the channel. */
  lemma {:induction false} RestIsIgnored(w: Tracked, records: seq<Record>, i: nat)
    requires i <= |records| && (i == |records| || TakenIn(w, records[..i]).channel != Open)
    ensures TakenIn(w, records) == TakenIn(w, records[..i])
    decreases |records|
  {
    if i < |records| {
      var n := |records| - 1;
      assert records[..n][..i] == records[..i];
      RestIsIgnored(w, records[..n], i);
    } else {
      assert records[..i] == records;
    }
  }

  lemma NewLife(launchedNs: int, clockNs: int, options: Options)
    ensures Kept(Life([], [Launched(launchedNs)]), Launched(launchedNs), false, false, clockNs, options)
    ensures forall tickNs :: tickNs <= launchedNs ==>
              AtPace(Life([], [Launched(launchedNs)]), Launched(launchedNs), tickNs, 0)
  {
  }

  lemma NewLives(launchedNs: seq<int>, clockNs: int, options: Options)
    ensures forall i :: 0 <= i < |launchedNs| ==>
              && Kept(BeginAll(launchedNs)[i], LaunchAll(launchedNs)[i], false, false, clockNs, options)
              && AtPace(BeginAll(launchedNs)[i], LaunchAll(launchedNs)[i], Earliest(clockNs, launchedNs), 0)
  {
    hide Kept, AtPace;
    forall i | 0 <= i < |launchedNs|
      ensures Kept(BeginAll(launchedNs)[i], LaunchAll(launchedNs)[i], false, false, clockNs, options)
      ensures AtPace(BeginAll(launchedNs)[i], LaunchAll(launchedNs)[i], Earliest(clockNs, launchedNs), 0)
    {
      NewLife(launchedNs[i], clockNs, options);
    }
  }

  // ---- Bounds as they stand after a tick ---------------------------------------------

  /** The worker is reaped, has had SIGKILL, or was found gone. */
  ghost predicate Over(life: Life, w: Tracked, options: Options)
    requires |life.states| == |life.moments| + 1
  {
    w.reaped || w.rung.step == Killed || life.GoneBefore(|life.moments|, options)
  }

  lemma OverOnceMet(life: Life, w: Tracked, met: nat, clockNs: int, options: Options)
    requires Tells(life, w, clockNs, options) && met < |life.moments|
    requires life.states[met + 1].rung.step == Killed || life.GoneBefore(met + 1, options)
    ensures Over(life, w, options)
  {
    LadderOnlyClimbs(life, met + 1, |life.moments|, options);
    if life.GoneBefore(met + 1, options) {
      var j :| 0 <= j < met + 1 && life.GoneAt(j, options);
    }
  }

  /** Every stop asked longer ago than both graces and twice the wait between ticks is over. */
  ghost predicate StopIsKept(life: Life, w: Tracked, clockNs: int, gap: int, options: Options)
    requires |life.states| == |life.moments| + 1
  {
    forall s :: 0 <= s < |life.moments| && life.moments[s].AskStop?
                && clockNs > life.moments[s].atNs + options.grace.stopNs + options.grace.killNs + 2 * gap
                ==> Over(life, w, options)
  }

  /** Every silence longer than both allowances, SIGTERM's grace and twice the wait between ticks is over. */
  ghost predicate HangIsKept(life: Life, w: Tracked, clockNs: int, gap: int, options: Options)
    requires |life.states| == |life.moments| + 1
  {
    forall t0 {:trigger SilentSince(life, t0)} :: SilentSince(life, t0)
                && clockNs > t0 + options.staleAfterNs + options.replacementAllowanceNs
                             + options.grace.killNs + 2 * gap
                ==> Over(life, w, options)
  }

  /** What a run is configured with is never negative. */
  predicate Sane(options: Options) {
    && 0 <= options.grace.stopNs && 0 <= options.grace.killNs
    && 0 <= options.staleAfterNs && 0 <= options.replacementAllowanceNs
  }

  /** A worker reaped, or watched at this reading of the clock, is past both bounds only if it is over. */
  lemma BoundsAreKept(life: Life, w: Tracked, clockNs: int, gap: int, options: Options)
    requires Tells(life, w, clockNs, options) && Prompt(life, gap) && 0 <= gap && Sane(options)
    requires w.reaped || WatchedAt(life.moments, 0, clockNs)
    ensures StopIsKept(life, w, clockNs, gap, options) && HangIsKept(life, w, clockNs, gap, options)
  {
    hide Prompt, SilentSince;
    if !w.reaped {
      var k :| 0 <= k < |life.moments| && life.moments[k].Watch? && life.moments[k].atNs == clockNs;
      forall s | 0 <= s < |life.moments| && life.moments[s].AskStop?
                 && clockNs > life.moments[s].atNs + options.grace.stopNs + options.grace.killNs + 2 * gap
        ensures Over(life, w, options)
      {
        var met := StopIsBounded(life, s, k, gap, options);
        OverOnceMet(life, w, met, clockNs, options);
      }
      forall t0 | SilentSince(life, t0)
                  && clockNs > t0 + options.staleAfterNs + options.replacementAllowanceNs
                               + options.grace.killNs + 2 * gap
        ensures Over(life, w, options)
      {
        var met := HangIsBounded(life, k, t0, gap, options);
        OverOnceMet(life, w, met, clockNs, options);
      }
    }
  }

  /** The earliest of a time and some others. */
  function Earliest(atNs: int, others: seq<int>): (e: int)
    ensures e <= atNs && forall i :: 0 <= i < |others| ==> e <= others[i]
  {
    if others == [] then atNs
    else
      var before, last := Earliest(atNs, others[..|others| - 1]), others[|others| - 1];
      if last < before then last else before
  }

  /** A watch at this time is among the moments from `n` on. */
  ghost predicate WatchedAt(moments: seq<Moment>, n: nat, atNs: int) {
    exists k :: n <= k < |moments| && moments[k].Watch? && moments[k].atNs == atNs
  }

  /** How often the worker was watched. */
  function Watches(moments: seq<Moment>): nat {
    if moments == [] then 0
    else Watches(moments[..|moments| - 1]) + if moments[|moments| - 1].Watch? then 1 else 0
  }

  lemma {:induction false} WatchesGrow(before: seq<Moment>, after: seq<Moment>)
    requires before <= after
    ensures Watches(before) <= Watches(after)
    ensures (exists k :: |before| <= k < |after| && after[k].Watch?) ==> Watches(before) < Watches(after)
    decreases |after|
  {
    if before != after {
      WatchesGrow(before, after[..|after| - 1]);
    }
  }

  lemma WatchedOnce(before: seq<Moment>, decided: seq<Moment>, after: seq<Moment>, atNs: int)
    requires before <= decided <= after && WatchedAt(after, |decided|, atNs)
    ensures Watches(before) < Watches(after)
  {
    WatchesGrow(before, decided);
    WatchesGrow(decided, after);
  }

  /** Slots are cleared, and never filled again. */
  ghost predicate StillHeld(pids: seq<int>, before: seq<int>) {
    |pids| == |before| && forall i :: 0 <= i < |pids| ==> pids[i] == 0 || pids[i] == before[i]
  }

  lemma SameHeld(pids: seq<int>)
    ensures StillHeld(pids, pids)
  {
  }

  lemma OneLessHeld(pids: seq<int>, before: seq<int>, slot: nat)
    requires StillHeld(pids, before) && slot < |pids|
    ensures StillHeld(pids[slot := 0], before)
  {
  }

  class Run {
    const options: Options
    const durationNs: int
    const schedule: seq<Step>
    const pool: WorkerPool
    var workers: seq<Tracked>
    var live: nat
    var stopRequested: bool
    var nextStep: nat
    var temperatureStop: bool
    var stopSignal: bool
    var stopForced: bool
    /** The clock as the current tick read it; every operation of the tick uses this reading. */
    var clockNs: int

    /** Each worker's life so far. */
    ghost var lives: seq<Life>
    /**
     When every worker not yet reaped had been watched last, or launched, and the
     longest wait between two such times.
     */
    ghost var tickNs: int
    ghost var gap: int

    /** The workers, their lives and the pool agree. */
    ghost predicate Agrees()
      reads this, pool, pool.kernel
    {
      && pool.Valid()
      && |workers| == |lives| == |pool.pids|
      && live == pool.live
      && (forall i :: 0 <= i < |workers| ==> (workers[i].reaped <==> pool.pids[i] == 0))
      && Fits(schedule, |workers|)
      && nextStep <= |schedule|
    }

    ghost predicate Valid()
      reads this, pool, pool.kernel
    {
      && Agrees()
      && tickNs <= clockNs && 0 <= gap
      && (forall i :: 0 <= i < |workers| ==> Kept(lives[i], workers[i], stopRequested, stopForced, clockNs, options))
      && (forall i :: 0 <= i < |workers| ==> AtPace(lives[i], workers[i], tickNs, gap))
    }

    /** The run as spawn leaves it: every worker forked, none reaped. */
    constructor (options: Options, durationNs: int, schedule: seq<Step>, pool: WorkerPool,
                 launchedNs: seq<int>, clockNs: int)
      requires pool.Valid() && |launchedNs| == |pool.pids|
      requires forall i :: 0 <= i < |pool.pids| ==> pool.pids[i] != 0
      requires Fits(schedule, |launchedNs|)
      ensures Valid()
      ensures this.options == options && this.schedule == schedule && this.pool == pool
      ensures live == |workers| == |launchedNs| && !stopRequested
      ensures forall i :: 0 <= i < |workers| ==> workers[i] == Launched(launchedNs[i])
    {
      this.options := options;
      this.durationNs := durationNs;
      this.schedule := schedule;
      this.pool := pool;
      this.workers := LaunchAll(launchedNs);
      this.live := |launchedNs|;
      this.stopRequested := false;
      this.nextStep := 0;
      this.temperatureStop := false;
      this.stopSignal := false;
      this.stopForced := false;
      this.clockNs := clockNs;
      this.lives := BeginAll(launchedNs);
      this.tickNs := Earliest(clockNs, launchedNs);
      this.gap := 0;
      new;
      hide Kept, AtPace, Handed, Fits, LaunchAll, BeginAll, Earliest;
      NoneLive(pool.pids);
      NewLives(launchedNs, clockNs, options);
    }

    /** Adds a moment to a worker's life. */
    ghost method Note(slot: nat, was: Tracked, m: Moment)
      requires slot < |lives|
      requires Tells(lives[slot], was, clockNs, options) && Admits(lives[slot], was, m, clockNs, options)
      requires AtPace(lives[slot], was, tickNs, gap)
      requires tickNs <= clockNs && (m.Watch? ==> clockNs - tickNs <= gap)
      modifies this`lives
      ensures lives == old(lives)[slot := old(lives)[slot].Then(m, options)]
      ensures GrewBy(old(lives)[slot], lives[slot], m, options)
      ensures Kept(lives[slot], After(was, m, options), Asked(old(lives)[slot]) || m.AskStop?,
                   Pressed(old(lives)[slot]) || m.Insist?, clockNs, options)
      ensures AtPace(lives[slot], After(was, m, options), if m.Watch? then clockNs else tickNs, gap)
      ensures Handed(lives[slot]) == Handed(old(lives)[slot]) + if m.Schedule? then [m.command] else []
    {
      PostsAppend(lives[slot], m, options);
      TellsOn(lives[slot], was, m, clockNs, options);
      if was.reaped {
        PromptOn(lives[slot], m, gap, options);
      } else {
        PacedOn(lives[slot], m, tickNs, gap, options);
      }
      assert was.reaped ==> After(was, m, options).reaped;
      lives := lives[slot := lives[slot].Then(m, options)];
    }

    /** Sends one message. A worker already reaped, or whose pipe has no reader, is not an error. */
    method SendCommand(slot: nat, what: Command, answer: WriteAnswer) returns (ok: bool)
      requires slot < |workers|
      modifies this`workers
      ensures workers == old(workers)[slot := Commanded(old(workers)[slot], what, answer, clockNs)]
      ensures ok <==> old(workers)[slot].reaped || answer != WriteRefused
    {
      var worker := workers[slot];
      if worker.reaped || answer == NoReader {
        return true;
      }
      if answer == WriteRefused {
        return false;
      }
      var mail := worker.mail;
      var message := Message(mail.nextSequence, what);
      mail := mail.(nextSequence := (mail.nextSequence + 1) % SEQUENCES);
      mail := mail.(sent := mail.sent + 1);
      mail := mail.(unanswered := mail.unanswered + [Unanswered(message.sequence, message.command, clockNs)]);
      workers := workers[slot := worker.(mail := mail)];
      return true;
    }

    /** Only this slot's worker and life have changed. */
    twostate predicate OnlySlot(slot: nat)
      reads this
    {
      && |workers| == |old(workers)| && |lives| == |old(lives)|
      && (forall j :: 0 <= j < |workers| && j != slot ==> workers[j] == old(workers)[j])
      && (forall j :: 0 <= j < |lives| && j != slot ==> lives[j] == old(lives)[j])
    }

    /** Nothing is taken back: every life is the one it was, and perhaps more. */
    twostate predicate LivesGrow()
      reads this
    {
      |lives| == |old(lives)| && forall i :: 0 <= i < |lives| ==> old(lives)[i].moments <= lives[i].moments
    }

    /** No worker was handed anything of the schedule. */
    twostate predicate HandsOutNothing()
      reads this
    {
      |lives| == |old(lives)| && forall i :: 0 <= i < |lives| ==> Handed(lives[i]) == Handed(old(lives)[i])
    }

    /** Asks one worker to stop, if it runs and was not asked. */
    method AskOne(slot: nat) returns (ok: bool, ghost m: Moment)
      requires slot < |workers| == |lives| && stopRequested && tickNs <= clockNs
      requires Kept(lives[slot], workers[slot], false, stopForced, clockNs, options)
      requires AtPace(lives[slot], workers[slot], tickNs, gap)
      modifies this`workers, this`lives
      ensures OnlySlot(slot)
      ensures workers[slot].reaped == old(workers)[slot].reaped
      ensures ok ==> Kept(lives[slot], workers[slot], true, stopForced, clockNs, options)
      ensures ok ==> AtPace(lives[slot], workers[slot], tickNs, gap)
      ensures ok ==> m.AskStop? && GrewBy(old(lives)[slot], lives[slot], m, options)
      ensures LivesGrow() && HandsOutNothing()
    {
      hide Tells, AtPace, Handed, Asked, Pressed;
      ghost var was := workers[slot];
      var answer: WriteAnswer := *;
      ok, m := true, AskStop(clockNs, answer);
      if !workers[slot].reaped && workers[slot].rung.step == Unasked {
        ok := SendCommand(slot, Stop, answer);
        if !ok {
          return;
        }
        var rung := workers[slot].rung;
        rung := rung.(step := Requested, sinceNs := clockNs);
        workers := workers[slot := workers[slot].(rung := rung)];
      }
      assert workers[slot] == After(was, m, options);
      Note(slot, was, m);
    }

    /** Asks every worker that runs to stop. */
    method RequestStop() returns (ok: bool)
      requires Valid() && !stopRequested
      modifies this`workers, this`lives, this`stopRequested
      ensures Agrees() && stopRequested && LivesGrow() && HandsOutNothing()
      ensures ok ==> Valid()
      ensures ok ==> forall i :: 0 <= i < |lives| ==> Added(old(lives)[i], lives[i]) && LastOf(lives[i]).AskStop?
    {
      hide Kept, AtPace, Handed, Fits, WorkerPool.Valid;
      stopRequested := true;
      var i := 0;
      while i < |workers|
        invariant 0 <= i <= |workers| && Agrees() && stopRequested
        invariant |workers| == |old(workers)| && LivesGrow() && HandsOutNothing()
        invariant forall j :: 0 <= j < |workers| ==> Kept(lives[j], workers[j], j < i, stopForced, clockNs, options)
        invariant forall j :: i <= j < |lives| ==> lives[j] == old(lives)[j]
        invariant forall j :: 0 <= j < i ==> Added(old(lives)[j], lives[j]) && LastOf(lives[j]).AskStop?
        invariant forall j :: 0 <= j < |workers| ==> AtPace(lives[j], workers[j], tickNs, gap)
      {
        ghost var m;
        ok, m := AskOne(i);
        if !ok {
          return false;
        }
        i := i + 1;
      }
      return true;
    }

    // ---- The schedule ---------------------------------------------------------------

    /** One command of the schedule to one worker, dropped if too many are unanswered. */
    method SendScheduled(slot: nat, what: Command) returns (ok: bool, ghost m: Moment)
      requires slot < |workers| == |lives| && tickNs <= clockNs
      requires Kept(lives[slot], workers[slot], false, stopForced, clockNs, options)
      requires AtPace(lives[slot], workers[slot], tickNs, gap)
      modifies this`workers, this`lives
      ensures OnlySlot(slot)
      ensures workers[slot].reaped == old(workers)[slot].reaped
      ensures ok ==> Kept(lives[slot], workers[slot], false, stopForced, clockNs, options)
      ensures ok ==> AtPace(lives[slot], workers[slot], tickNs, gap)
      ensures ok ==> m.Schedule? && m.command == what && GrewBy(old(lives)[slot], lives[slot], m, options)
      ensures ok ==> Handed(lives[slot]) == Handed(old(lives)[slot]) + [what]
      ensures LivesGrow()
    {
      hide Tells, AtPace, Handed, Asked, Pressed;
      ghost var was := workers[slot];
      var answer: WriteAnswer := *;
      ok, m := true, Schedule(clockNs, what, answer);
      if |workers[slot].mail.unanswered| >= MAX_UNANSWERED {
        var mail := workers[slot].mail;
        workers := workers[slot := workers[slot].(mail := mail.(dropped := mail.dropped + 1))];
      } else {
        ok := SendCommand(slot, what, answer);
        if !ok {
          return;
        }
      }
      assert workers[slot] == After(was, m, options);
      Note(slot, was, m);
    }

    /** Every command of one order, in order, to its worker. */
    method SendOrder(order: Order) returns (ok: bool)
      requires Valid() && !stopRequested && order.slot < |workers|
      modifies this`workers, this`lives
      ensures Agrees() && |workers| == |old(workers)| && LivesGrow()
      ensures ok ==> Valid()
      ensures ok ==> Handed(lives[order.slot]) == Handed(old(lives)[order.slot]) + order.commands
      ensures OnlySlot(order.slot)
    {
      hide Kept, AtPace, Handed, Fits, WorkerPool.Valid;
      assert order.commands[..0] == [];
      var i := 0;
      while i < |order.commands|
        invariant 0 <= i <= |order.commands|
        invariant Valid() && |workers| == |old(workers)| && LivesGrow()
        invariant OnlySlot(order.slot)
        invariant Handed(lives[order.slot]) == Handed(old(lives)[order.slot]) + order.commands[..i]
      {
        ghost var m;
        ok, m := SendScheduled(order.slot, order.commands[i]);
        if !ok {
          return false;
        }
        assert order.commands[..i + 1] == order.commands[..i] + [order.commands[i]];
        i := i + 1;
      }
      assert order.commands[..i] == order.commands;
      return true;
    }

    /** Every order of one step. */
    method SendStep(step: Step) returns (ok: bool)
      requires Valid() && !stopRequested
      requires forall o :: 0 <= o < |step.orders| ==> step.orders[o].slot < |workers|
      modifies this`workers, this`lives
      ensures Agrees() && |workers| == |old(workers)| && LivesGrow()
      ensures ok ==> Valid()
      ensures ok ==> forall i :: 0 <= i < |lives| ==>
                       Handed(lives[i]) == Handed(old(lives)[i]) + OrdersFor(step.orders, i)
    {
      hide Kept, AtPace, Handed, Fits, WorkerPool.Valid;
      assert step.orders[..0] == [];
      var o := 0;
      while o < |step.orders|
        invariant 0 <= o <= |step.orders|
        invariant Valid() && |workers| == |old(workers)| && LivesGrow()
        invariant forall i :: 0 <= i < |lives| ==>
                    Handed(lives[i]) == Handed(old(lives)[i]) + OrdersFor(step.orders[..o], i)
      {
        assert step.orders[..o + 1][..o] == step.orders[..o];
        ok := SendOrder(step.orders[o]);
        if !ok {
          return false;
        }
        o := o + 1;
      }
      assert step.orders[..o] == step.orders;
      return true;
    }

    /** Carries out every step that is due, in order, once. */
    method RunSchedule(elapsedNs: int) returns (ok: bool)
      requires Valid() && OnSchedule()
      modifies this`workers, this`lives, this`nextStep
      ensures Agrees() && |workers| == |old(workers)| && LivesGrow()
      ensures ok ==> Valid() && OnSchedule()
      ensures old(nextStep) <= nextStep
      ensures stopRequested ==> nextStep == old(nextStep) && workers == old(workers) && lives == old(lives)
      ensures ok && !stopRequested ==> nextStep == |schedule| || schedule[nextStep].atNs > elapsedNs
      ensures forall k :: old(nextStep) <= k < nextStep ==> schedule[k].atNs <= elapsedNs
    {
      hide Kept, AtPace, Handed, WorkerPool.Valid;
      if stopRequested {
        return true;
      }
      while nextStep < |schedule| && schedule[nextStep].atNs <= elapsedNs
        invariant Valid() && OnSchedule() && |workers| == |old(workers)| && LivesGrow()
        invariant old(nextStep) <= nextStep
        invariant forall k :: old(nextStep) <= k < nextStep ==> schedule[k].atNs <= elapsedNs
        decreases |schedule| - nextStep
      {
        var step := schedule[nextStep];
        nextStep := nextStep + 1;
        assert schedule[..nextStep][..nextStep - 1] == schedule[..nextStep - 1];
        ok := SendStep(step);
        if !ok {
          return false;
        }
      }
      return true;
    }

    // ---- The watch --------------------------------------------------------------------

    /** What both allowances grow by: found by a scan of the unanswered messages. */
    method ReplacementExtra(slot: nat) returns (extraNs: int)
      requires slot < |workers|
      ensures extraNs == ReplacementExtraNs(workers[slot].mail, clockNs, options)
    {
      var unanswered := workers[slot].mail.unanswered;
      var i := 0;
      while i < |unanswered|
        invariant 0 <= i <= |unanswered|
        invariant forall j :: 0 <= j < i ==>
                    !(Replaces(unanswered[j].command)
                      && clockNs - unanswered[j].sentNs <= options.replacementAllowanceNs)
      {
        if Replaces(unanswered[i].command) && clockNs - unanswered[i].sentNs <= options.replacementAllowanceNs {
          return options.replacementAllowanceNs;
        }
        i := i + 1;
      }
      return 0;
    }

    /** Signals a worker that has not exited; the step is taken only if the kernel took the signal. */
    method Send(slot: nat, signal: Signal, stale: bool, look: LookAnswer, kill: KillAnswer) returns (ok: bool)
      requires slot < |workers|
      modifies this`workers
      ensures workers == old(workers)[slot := old(workers)[slot].(
                           rung := Signalled(old(workers)[slot].rung, signal, clockNs, stale, look, kill))]
      ensures ok <==> !(look == LookRefused || (look == StillRuns && kill == KillRefused))
    {
      if look == LookRefused {
        return false;
      }
      if look == HasExited {
        return true;
      }
      if kill != Queued {
        return kill == NoProcess;
      }
      var rung := workers[slot].rung;
      rung := rung.(step := StepAfter(signal));
      rung := rung.(sinceNs := clockNs);
      rung := rung.(staleWhenSignalled := stale);
      rung := rung.(signals := rung.signals + [signal]);
      workers := workers[slot := workers[slot].(rung := rung)];
      return true;
    }

    /** Whether the slot shows the worker stale now; the readings it gave are kept. */
    method Judge(slot: nat, seen: Observation) returns (stale: bool)
      requires slot < |workers|
      modifies this`workers
      ensures workers == old(workers)[slot := old(workers)[slot].(
                           pulse := Judged(old(workers)[slot].pulse, old(workers)[slot].mail, seen, clockNs, options))]
      ensures stale == workers[slot].pulse.staleNow
    {
      var extraNs := ReplacementExtra(slot);
      var staleAfterNs := options.staleAfterNs + extraNs;
      var mail := workers[slot].mail;
      var pulse := workers[slot].pulse;
      if seen.Torn? {
        stale := clockNs - pulse.lastReadNs > staleAfterNs;
      } else {
        pulse := pulse.(lastReadNs := clockNs);
        if seen.Beat? && seen.progress > pulse.progress {
          pulse := pulse.(progress := seen.progress);
          pulse := pulse.(progressChangedNs := clockNs);
        }
        if mail.paused {
          pulse := pulse.(progressChangedNs := clockNs);
        }
        var stalled := clockNs - pulse.progressChangedNs > staleAfterNs + mail.idleAllowanceNs;
        if seen.NeverBeat? {
          stale := clockNs - pulse.launchedNs > options.staleAfterNs;
        } else if clockNs - seen.timestampNs > staleAfterNs {
          stale := true;
        } else {
          stale := stalled;
        }
      }
      pulse := pulse.(staleNow := stale);
      workers := workers[slot := workers[slot].(pulse := pulse)];
    }

    /** Judges one worker and signals it if that is due. */
    method WatchWorker(slot: nat, seen: Observation, look: LookAnswer, kill: KillAnswer) returns (ok: bool)
      requires slot < |workers|
      modifies this`workers
      ensures workers == old(workers)[slot := Watched(old(workers)[slot], clockNs, seen, look, kill, options)]
      ensures ok <==> !Faults(old(workers)[slot], Watch(clockNs, seen, look, kill), options)
    {
      hide Judged, Signalled, EscalationDue;
      var stale := Judge(slot, seen);
      var rung := workers[slot].rung;
      if stale && (rung.step == Unasked || rung.step == Requested) {
        ok := Send(slot, SigTerm, true, look, kill);
        return ok;
      }
      var due := EscalationDue(rung.step, rung.sinceNs, clockNs, options.grace);
      if due.Some? {
        ok := Send(slot, due.value, rung.staleWhenSignalled, look, kill);
        return ok;
      }
      return true;
    }

    method WatchAndNote(slot: nat) returns (ok: bool)
      requires slot < |workers| == |lives| && tickNs <= clockNs && clockNs - tickNs <= gap
      requires !workers[slot].reaped
      requires Kept(lives[slot], workers[slot], stopRequested, stopForced, clockNs, options)
      requires AtPace(lives[slot], workers[slot], tickNs, gap)
      modifies this`workers, this`lives
      ensures OnlySlot(slot)
      ensures !workers[slot].reaped
      ensures ok ==> Kept(lives[slot], workers[slot], stopRequested, stopForced, clockNs, options)
      ensures ok ==> AtPace(lives[slot], workers[slot], clockNs, gap)
      ensures ok ==> WatchedAt(lives[slot].moments, |old(lives)[slot].moments|, clockNs)
      ensures LivesGrow() && HandsOutNothing()
    {
      hide Tells, AtPace, Handed, Asked, Pressed;
      ghost var was := workers[slot];
      var seen: Observation := *;
      var look: LookAnswer := *;
      var kill: KillAnswer := *;
      ok := WatchWorker(slot, seen, look, kill);
      if ok {
        Note(slot, was, Watch(clockNs, seen, look, kill));
        assert lives[slot].moments[|old(lives)[slot].moments|] == Watch(clockNs, seen, look, kill);
      }
    }

    /** Watches every worker that is not reaped. */
    method WatchAll() returns (ok: bool)
      requires Valid() && clockNs - tickNs <= gap
      modifies this`workers, this`lives, this`tickNs
      ensures Agrees() && |workers| == |old(workers)| && LivesGrow() && HandsOutNothing()
      ensures ok ==> Valid() && tickNs == clockNs
      ensures ok ==> forall i :: 0 <= i < |workers| && !workers[i].reaped ==>
                       WatchedAt(lives[i].moments, |old(lives)[i].moments|, clockNs)
    {
      hide Kept, AtPace, Handed, Fits, WatchedAt, WorkerPool.Valid;
      var i := 0;
      while i < |workers|
        invariant 0 <= i <= |workers| && Agrees()
        invariant |workers| == |old(workers)| && LivesGrow() && HandsOutNothing()
        invariant tickNs <= clockNs && clockNs - tickNs <= gap
        invariant forall j :: 0 <= j < |workers| ==>
                    Kept(lives[j], workers[j], stopRequested, stopForced, clockNs, options)
        invariant forall j :: 0 <= j < |workers| ==>
                    AtPace(lives[j], workers[j], if j < i && !workers[j].reaped then clockNs else tickNs, gap)
        invariant forall j :: i <= j < |workers| ==> lives[j] == old(lives)[j]
        invariant forall j :: 0 <= j < i && !workers[j].reaped ==>
                    WatchedAt(lives[j].moments, |old(lives)[j].moments|, clockNs)
      {
        if !workers[i].reaped {
          ok := WatchAndNote(i);
          if !ok {
            return false;
          }
        }
        i := i + 1;
      }
      forall j | 0 <= j < |workers| ensures AtPace(lives[j], workers[j], clockNs, gap) {
        if workers[j].reaped {
          ReapedPace(lives[j], workers[j], tickNs, clockNs, gap);
        }
      }
      tickNs := clockNs;
      return true;
    }

    // ---- What the workers sent -----------------------------------------------------

    /** One acknowledgement: for the message at the front, or the channel is not believed. */
    method TakeAck(slot: nat, ack: Ack) returns (refused: bool)
      requires slot < |workers|
      modifies this`workers
      ensures refused <==> !Expected(old(workers)[slot].mail, ack)
      ensures refused ==> workers == old(workers)
      ensures !refused ==>
                workers == old(workers)[slot := old(workers)[slot].(mail := Acknowledged(old(workers)[slot].mail, ack))]
    {
      var mail := workers[slot].mail;
      if mail.unanswered == [] {
        return true;
      }
      if ack.sequence != mail.unanswered[0].sequence {
        return true;
      }
      var asked := mail.unanswered[0].command;
      mail := mail.(unanswered := mail.unanswered[1..]);
      if ack.status == Refused {
        mail := mail.(refused := mail.refused + 1);
      } else {
        mail := mail.(done := mail.done + 1);
        match asked {
          case Pause => mail := mail.(paused := true);
          case Resume => mail := mail.(paused := false);
          case SetDuty(busy, period) => mail := mail.(idleAllowanceNs := IdleNs(busy, period));
          case _ =>
        }
      }
      workers := workers[slot := workers[slot].(mail := mail)];
      return false;
    }

    /** One record of an open channel. */
    method Ingest(slot: nat, record: Record)
      requires slot < |workers| && workers[slot].channel == Open
      modifies this`workers
      ensures workers == old(workers)[slot := Received(old(workers)[slot], record)]
    {
      var refused := false;
      if record.BadRecord? {
        refused := true;
      } else if record.AckRecord? {
        refused := TakeAck(slot, record.ack);
      }
      if refused {
        workers := workers[slot := workers[slot].(channel := Corrupt)];
      }
    }

    /** The records of one read of a channel, up to the first that is refused. */
    method IngestAll(slot: nat, records: seq<Record>)
      requires Valid() && slot < |workers|
      modifies this`workers, this`lives
      ensures Valid() && |workers| == |old(workers)| && LivesGrow() && HandsOutNothing()
      ensures workers == old(workers)[slot := TakenIn(old(workers)[slot], records)]
    {
      hide Kept, AtPace, Handed, Fits, WorkerPool.Valid, Received;
      var i := 0;
      assert records[..0] == [];
      while i < |records| && workers[slot].channel == Open
        invariant 0 <= i <= |records|
        invariant Valid() && |workers| == |old(workers)| && LivesGrow() && HandsOutNothing()
        invariant workers == old(workers)[slot := TakenIn(old(workers)[slot], records[..i])]
      {
        assert records[..i + 1][..i] == records[..i];
        IngestAndNote(slot, records[i]);
        i := i + 1;
      }
      RestIsIgnored(old(workers)[slot], records, i);
    }

    /** The records of one read of a channel, and then how the read ended, if it did and the channel is still open. */
    method Drain(slot: nat, records: seq<Record>, end: Option<ChannelEnd>)
      requires Valid() && slot < |workers|
      modifies this`workers, this`lives
      ensures Valid() && |workers| == |old(workers)| && LivesGrow() && HandsOutNothing()
      ensures workers == old(workers)[slot := Drained(old(workers)[slot], records, end)]
    {
      hide Kept, AtPace, Handed, Fits, WorkerPool.Valid, TakenIn;
      if workers[slot].channel != Open {
        ClosedTakesNothing(workers[slot], records);
        return;
      }
      IngestAll(slot, records);
      if end.Some? && workers[slot].channel == Open {
        EndChannel(slot, end.value);
      }
    }

    method IngestAndNote(slot: nat, record: Record)
      requires slot < |workers| == |lives| && tickNs <= clockNs && workers[slot].channel == Open
      requires Kept(lives[slot], workers[slot], stopRequested, stopForced, clockNs, options)
      requires AtPace(lives[slot], workers[slot], tickNs, gap)
      modifies this`workers, this`lives
      ensures OnlySlot(slot) && LivesGrow() && HandsOutNothing()
      ensures workers == old(workers)[slot := Received(old(workers)[slot], record)]
      ensures workers[slot].reaped == old(workers)[slot].reaped
      ensures Kept(lives[slot], workers[slot], stopRequested, stopForced, clockNs, options)
      ensures AtPace(lives[slot], workers[slot], tickNs, gap)
    {
      hide Tells, AtPace, Handed, Asked, Pressed;
      ghost var was := workers[slot];
      Ingest(slot, record);
      Note(slot, was, Receive(clockNs, record));
    }

    method EndChannel(slot: nat, how: ChannelEnd)
      requires slot < |workers| == |lives| && tickNs <= clockNs && workers[slot].channel == Open
      requires Kept(lives[slot], workers[slot], stopRequested, stopForced, clockNs, options)
      requires AtPace(lives[slot], workers[slot], tickNs, gap)
      modifies this`workers, this`lives
      ensures OnlySlot(slot) && LivesGrow() && HandsOutNothing()
      ensures workers == old(workers)[slot := Ended(old(workers)[slot], how)]
      ensures Kept(lives[slot], workers[slot], stopRequested, stopForced, clockNs, options)
      ensures AtPace(lives[slot], workers[slot], tickNs, gap)
    {
      hide Tells, AtPace, Handed, Asked, Pressed;
      ghost var was := workers[slot];
      var channel :=
        match how { case CleanEnd => Closed case TruncatedFrame => Truncated case CorruptFrame => Corrupt };
      workers := workers[slot := workers[slot].(channel := channel)];
      Note(slot, was, End(clockNs, how));
    }

    // ---- Stop signals ---------------------------------------------------------------

    /** SIGKILL to one worker that was not reaped and has not had it. */
    method InsistOn(slot: nat, ghost pressed: bool) returns (ok: bool, ghost m: Moment)
      requires slot < |workers| == |lives| && tickNs <= clockNs
      requires Kept(lives[slot], workers[slot], stopRequested, pressed, clockNs, options)
      requires AtPace(lives[slot], workers[slot], tickNs, gap)
      modifies this`workers, this`lives
      ensures OnlySlot(slot) && LivesGrow() && HandsOutNothing()
      ensures workers[slot].reaped == old(workers)[slot].reaped
      ensures ok ==> Kept(lives[slot], workers[slot], stopRequested, true, clockNs, options)
      ensures ok ==> AtPace(lives[slot], workers[slot], tickNs, gap)
      ensures ok ==> m.Insist? && GrewBy(old(lives)[slot], lives[slot], m, options)
    {
      hide Tells, AtPace, Handed, Asked, Pressed;
      ghost var was := workers[slot];
      var look: LookAnswer := *;
      var kill: KillAnswer := *;
      ok, m := true, Insist(clockNs, look, kill);
      if !workers[slot].reaped && workers[slot].rung.step != Killed {
        ok := Send(slot, SigKill, false, look, kill);
        if !ok {
          return;
        }
      }
      assert workers[slot] == After(was, m, options);
      Note(slot, was, m);
    }

    /** Every worker is insisted on, once. */
    method KillForSignal() returns (ok: bool)
      requires Valid()
      modifies this`workers, this`lives, this`stopForced
      ensures Agrees() && |workers| == |old(workers)| && LivesGrow() && HandsOutNothing()
      ensures stopForced
      ensures ok ==> Valid()
      ensures ok ==> forall i :: 0 <= i < |lives| ==> Added(old(lives)[i], lives[i]) && LastOf(lives[i]).Insist?
    {
      hide Kept, AtPace, Handed, Fits, WorkerPool.Valid;
      stopForced := true;
      var i := 0;
      while i < |workers|
        invariant 0 <= i <= |workers| && Agrees() && stopForced
        invariant |workers| == |old(workers)| && LivesGrow() && HandsOutNothing()
        invariant forall j :: 0 <= j < |workers| ==>
                    Kept(lives[j], workers[j], stopRequested, old(stopForced) || j < i, clockNs, options)
        invariant forall j :: 0 <= j < |workers| ==> AtPace(lives[j], workers[j], tickNs, gap)
        invariant forall j :: i <= j < |lives| ==> lives[j] == old(lives)[j]
        invariant forall j :: 0 <= j < i ==> Added(old(lives)[j], lives[j]) && LastOf(lives[j]).Insist?
      {
        ghost var m;
        ok, m := InsistOn(i, old(stopForced));
        if !ok {
          return false;
        }
        i := i + 1;
      }
      return true;
    }

    /** The first signal stops the run as the deadline does; any later one kills the workers. */
    method TakeStopSignal() returns (ok: bool)
      requires Valid()
      modifies this`workers, this`lives, this`stopRequested, this`stopSignal, this`stopForced
      ensures Agrees() && |workers| == |old(workers)| && LivesGrow() && HandsOutNothing()
      ensures ok ==> Valid()
      ensures stopSignal
      ensures stopRequested == (old(stopRequested) || !old(stopSignal))
      ensures stopForced == (old(stopForced) || old(stopSignal))
    {
      hide Kept, AtPace, Handed, Fits, WorkerPool.Valid;
      if stopSignal {
        ok := KillForSignal();
      } else {
        stopSignal := true;
        ok := true;
        if !stopRequested {
          ok := RequestStop();
        }
      }
    }

    method TakeStopSignals(received: nat) returns (ok: bool)
      requires Valid() && (stopSignal ==> stopRequested)
      modifies this`workers, this`lives, this`stopRequested, this`stopSignal, this`stopForced
      ensures Agrees() && |workers| == |old(workers)| && LivesGrow() && HandsOutNothing()
      ensures ok ==> Valid() && (stopSignal ==> stopRequested)
      ensures ok ==> (stopRequested <==> old(stopRequested) || received > 0)
      ensures ok ==> (stopSignal <==> old(stopSignal) || received > 0)
      ensures ok ==> (stopForced <==> old(stopForced) || received > if old(stopSignal) then 0 else 1)
      ensures old(stopRequested) ==> stopRequested
    {
      hide Kept, AtPace, Handed, Fits, WorkerPool.Valid;
      var i := 0;
      while i < received
        invariant 0 <= i <= received
        invariant Valid() && |workers| == |old(workers)| && LivesGrow() && HandsOutNothing()
        invariant stopRequested <==> old(stopRequested) || i > 0
        invariant stopSignal <==> old(stopSignal) || i > 0
        invariant stopForced <==> old(stopForced) || i > if old(stopSignal) then 0 else 1
      {
        ok := TakeStopSignal();
        if !ok {
          return false;
        }
        i := i + 1;
      }
      return true;
    }

    // ---- Reaping ------------------------------------------------------------------------

    /** Marks the worker of a reported death. */
    method MarkReaped(slot: nat)
      requires slot < |workers| == |lives| && tickNs <= clockNs && !workers[slot].reaped
      requires Kept(lives[slot], workers[slot], stopRequested, stopForced, clockNs, options)
      requires AtPace(lives[slot], workers[slot], tickNs, gap)
      modifies this`workers, this`lives
      ensures OnlySlot(slot) && LivesGrow() && HandsOutNothing()
      ensures workers[slot] == old(workers)[slot].(reaped := true)
      ensures Kept(lives[slot], workers[slot], stopRequested, stopForced, clockNs, options)
      ensures AtPace(lives[slot], workers[slot], tickNs, gap)
    {
      hide Tells, AtPace, Handed, Asked, Pressed;
      ghost var was := workers[slot];
      workers := workers[slot := workers[slot].(reaped := true)];
      Note(slot, was, Reap(clockNs));
    }

    /** Takes every death there is now: each is of a worker not yet reaped, under its own slot. */
    method ReapWorkers() returns (ok: bool)
      requires Valid()
      modifies this`workers, this`lives, this`live, pool`pids, pool`live, pool.kernel`children, pool.kernel`exited
      ensures Valid() && |workers| == |old(workers)| && LivesGrow() && HandsOutNothing()
      ensures live <= old(live)
      ensures forall i :: 0 <= i < |workers| && old(workers)[i].reaped ==> workers[i] == old(workers)[i]
      ensures StillHeld(pool.pids, old(pool.pids))
      ensures ok ==> forall i :: 0 <= i < |workers| && old(pool.pids)[i] in old(pool.kernel.exited) ==>
                       workers[i].reaped
    {
      hide Kept, AtPace, Handed, Fits, WorkerPool.Valid, StillHeld;
      SameHeld(pool.pids);
      while live > 0
        invariant Valid() && |workers| == |old(workers)| && LivesGrow() && HandsOutNothing()
        invariant live <= old(live)
        invariant forall i :: 0 <= i < |workers| && old(workers)[i].reaped ==> workers[i] == old(workers)[i]
        invariant StillHeld(pool.pids, old(pool.pids))
        invariant forall pid :: pid in old(pool.kernel.exited) && pid in pool.kernel.children ==>
                    pid in pool.kernel.exited
        decreases live
      {
        ghost var pids := pool.pids;
        var death := pool.ReapNextNonblocking();
        if death.Err? {
          return false;
        }
        if death.value.None? {
          ExitedAreReaped(old(pool.pids), old(pool.kernel.exited));
          return true;
        }
        var slot := death.value.value.slot;
        OneLessHeld(pids, old(pool.pids), slot);
        MarkReaped(slot);
        live := live - 1;
      }
      ExitedAreReaped(old(pool.pids), old(pool.kernel.exited));
      return true;
    }

    /** With nobody left, or nobody exited left, every worker that had exited is marked. */
    lemma ExitedAreReaped(before: seq<int>, exited: set<int>)
      requires Agrees() && StillHeld(pool.pids, before)
      requires forall pid :: pid in exited && pid in pool.kernel.children ==> pid in pool.kernel.exited
      requires live == 0 || pool.kernel.exited == {}
      ensures forall i :: 0 <= i < |workers| && before[i] in exited ==> workers[i].reaped
    {
      NoneLive(pool.pids);
    }

    // ---- The tick -------------------------------------------------------------------------

    /** Every worker has been handed exactly the steps of the schedule that are behind. */
    ghost predicate OnSchedule()
      reads this
    {
      && nextStep <= |schedule|
      && (forall i :: 0 <= i < |lives| ==> Handed(lives[i]) == CommandsFor(schedule[..nextStep], i))
    }

    /** A run between two ticks: a stop that was found due was requested. */
    ghost predicate Settled()
      reads this, pool, pool.kernel
    {
      Valid() && OnSchedule() && (stopSignal ==> stopRequested) && (temperatureStop ==> stopRequested)
    }

    /** The tick's reading of the clock, which never goes back. */
    method ReadClock() returns (ok: bool)
      requires Settled()
      modifies this`clockNs, this`gap
      ensures Settled() && old(clockNs) <= clockNs
      ensures ok ==> clockNs - tickNs <= gap
    {
      var now: int := *;
      if now < clockNs {
        return false;
      }
      ghost var wider := if now - tickNs > gap then now - tickNs else gap;
      forall i | 0 <= i < |workers|
        ensures Kept(lives[i], workers[i], stopRequested, stopForced, now, options)
        ensures AtPace(lives[i], workers[i], tickNs, wider)
      {
        LaterOn(lives[i], workers[i], stopRequested, stopForced, clockNs, now, tickNs, gap, wider, options);
      }
      hide Kept, AtPace, Handed, Fits, WorkerPool.Valid;
      clockNs := now;
      gap := wider;
      return true;
    }

    /**
     The deadline, the temperature ceiling and the schedule, in that order: a
     stop is requested for one of the first two and for nothing else, and only a
     run that is not stopping carries out its due steps, none of them early.
     */
    method Decide(elapsedNs: int, hot: bool) returns (ok: bool)
      requires Settled()
      modifies this`workers, this`lives, this`stopRequested, this`temperatureStop, this`nextStep
      ensures Agrees() && |workers| == |old(workers)| && LivesGrow()
      ensures ok ==> Settled()
      ensures ok ==> (stopRequested <==> old(stopRequested) || elapsedNs >= durationNs || hot)
      ensures ok ==> (temperatureStop <==> old(temperatureStop) || hot)
      ensures ok && !stopRequested ==> nextStep == |schedule| || schedule[nextStep].atNs > elapsedNs
      ensures ok && stopRequested ==> nextStep == old(nextStep)
      ensures old(nextStep) <= nextStep
      ensures forall k :: old(nextStep) <= k < nextStep ==> schedule[k].atNs <= elapsedNs
      ensures old(stopRequested) ==> stopRequested
    {
      hide Kept, AtPace, Handed, Fits, WorkerPool.Valid;
      if !stopRequested && elapsedNs >= durationNs {
        ok := RequestStop();
        if !ok {
          return false;
        }
      }
      if hot && !temperatureStop {
        temperatureStop := true;
        if !stopRequested {
          ok := RequestStop();
          if !ok {
            return false;
          }
        }
      }
      ok := RunSchedule(elapsedNs);
    }

    /** Takes in what every worker sent: anything at all, or nothing. */
    method DrainAll()
      requires Valid()
      modifies this`workers, this`lives
      ensures Valid() && |workers| == |old(workers)| && LivesGrow() && HandsOutNothing()
    {
      hide Kept, AtPace, Handed, Fits, WorkerPool.Valid;
      var i := 0;
      while i < |workers|
        invariant 0 <= i <= |workers|
        invariant Valid() && |workers| == |old(workers)| && LivesGrow() && HandsOutNothing()
      {
        var records: seq<Record> := *;
        var end: Option<ChannelEnd> := *;
        Drain(i, records, end);
        i := i + 1;
      }
    }

    /** What came in while the tick waited: records, as many stop signals as were received, deaths. */
    method Collect() returns (ok: bool, received: nat)
      requires Settled()
      modifies this`workers, this`lives, this`stopRequested, this`stopSignal, this`stopForced, this`live
      modifies pool`pids, pool`live, pool.kernel`children, pool.kernel`exited
      ensures Agrees() && |workers| == |old(workers)| && LivesGrow() && HandsOutNothing()
      ensures ok ==> Settled()
      ensures forall i :: 0 <= i < |workers| && old(workers)[i].reaped ==> workers[i].reaped
      ensures ok ==> (stopRequested <==> old(stopRequested) || received > 0)
      ensures ok ==> (stopSignal <==> old(stopSignal) || received > 0)
      ensures ok ==> (stopForced <==> old(stopForced) || received > if old(stopSignal) then 0 else 1)
      ensures old(stopRequested) ==> stopRequested
    {
      hide Kept, AtPace, Handed, Fits, WorkerPool.Valid;
      DrainAll();
      received := *;
      ok := TakeStopSignals(received);
      if ok {
        ok := ReapWorkers();
      }
    }

    /** No worker is past the bound of a stop that was asked, or of a silence, unless it is over. */
    ghost predicate InTime()
      reads this
    {
      forall i :: 0 <= i < |workers| && i < |lives| ==>
        && |lives[i].states| == |lives[i].moments| + 1
        && StopIsKept(lives[i], workers[i], clockNs, gap, options)
        && HangIsKept(lives[i], workers[i], clockNs, gap, options)
    }

    lemma Punctual()
      requires Valid() && Sane(options)
      requires forall i :: 0 <= i < |workers| && !workers[i].reaped ==>
                 WatchedAt(lives[i].moments, 0, clockNs)
      ensures InTime()
    {
      hide Prompt, WorkerPool.Valid, Fits, StopIsKept, HangIsKept, Sane;
      forall i | 0 <= i < |workers|
        ensures |lives[i].states| == |lives[i].moments| + 1
        ensures StopIsKept(lives[i], workers[i], clockNs, gap, options)
        ensures HangIsKept(lives[i], workers[i], clockNs, gap, options)
      {
        assert Kept(lives[i], workers[i], stopRequested, stopForced, clockNs, options);
        assert AtPace(lives[i], workers[i], tickNs, gap);
        BoundsAreKept(lives[i], workers[i], clockNs, gap, options);
      }
    }

    /** Watches every worker, and then takes in what came: whoever is still unreaped has been watched. */
    method Attend() returns (ok: bool, received: nat)
      requires Settled() && clockNs - tickNs <= gap
      modifies this`workers, this`lives, this`tickNs, this`stopRequested, this`stopSignal, this`stopForced, this`live
      modifies pool`pids, pool`live, pool.kernel`children, pool.kernel`exited
      ensures Agrees() && |workers| == |old(workers)| && LivesGrow() && HandsOutNothing()
      ensures ok ==> Settled() && tickNs == clockNs
      ensures ok ==> forall i :: 0 <= i < |workers| && !workers[i].reaped ==>
                       WatchedAt(lives[i].moments, |old(lives)[i].moments|, clockNs)
      ensures forall i :: 0 <= i < |workers| && old(workers)[i].reaped ==> workers[i].reaped
      ensures ok ==> (stopRequested <==> old(stopRequested) || received > 0)
      ensures ok ==> (stopSignal <==> old(stopSignal) || received > 0)
      ensures ok ==> (stopForced <==> old(stopForced) || received > if old(stopSignal) then 0 else 1)
      ensures ok && Sane(options) ==> InTime()
    {
      hide Kept, AtPace, Handed, Fits, WatchedAt, WorkerPool.Valid, StopIsKept, HangIsKept, Sane;
      received := 0;
      ok := WatchAll();
      if !ok {
        return;
      }
      ghost var watched := lives;
      ok, received := Collect();
      forall i | ok && 0 <= i < |workers| && !workers[i].reaped
        ensures WatchedAt(lives[i].moments, |old(lives)[i].moments|, clockNs)
        ensures WatchedAt(lives[i].moments, 0, clockNs)
      {
        WatchedStays(watched[i].moments, lives[i].moments, |old(lives)[i].moments|, |old(lives)[i].moments|, clockNs);
        WatchedStays(watched[i].moments, lives[i].moments, |old(lives)[i].moments|, 0, clockNs);
      }
      if ok && Sane(options) {
        Punctual();
      }
    }

    /**
     One tick. Whatever the kernel and the workers do, every life goes on in
     the order the controller keeps: first what was decided, the stop and the
     schedule, then, for every worker still unreaped, the watch at this reading
     of the clock, and then what came in. The run is stopping after
     it exactly if it was, or the deadline or the temperature ceiling was met, or
     a signal came; it is forced exactly by a signal after the first.
     */
    method Tick() returns (ok: bool, elapsedNs: int, hot: bool, received: nat, ghost decided: seq<Life>)
      requires Settled()
      modifies this, pool`pids, pool`live, pool.kernel`children, pool.kernel`exited
      ensures Agrees() && |workers| == |old(workers)| && LivesGrow()
      ensures old(clockNs) <= clockNs
      ensures ok ==> Settled() && tickNs == clockNs
      ensures ok ==> |decided| == |lives| && forall i :: 0 <= i < |lives| ==>
                       && old(lives)[i].moments <= decided[i].moments <= lives[i].moments
                       && (Asked(decided[i]) <==> old(stopRequested) || elapsedNs >= durationNs || hot)
                       && Handed(lives[i]) == Handed(decided[i])
                       && (!workers[i].reaped ==> WatchedAt(lives[i].moments, |decided[i].moments|, clockNs))
      ensures ok ==> (stopRequested <==> old(stopRequested) || elapsedNs >= durationNs || hot || received > 0)
      ensures ok ==> (temperatureStop <==> old(temperatureStop) || hot)
      ensures ok ==> (stopSignal <==> old(stopSignal) || received > 0)
      ensures ok ==> (stopForced <==> old(stopForced) || received > if old(stopSignal) then 0 else 1)
      ensures ok && !(old(stopRequested) || elapsedNs >= durationNs || hot) ==>
                nextStep == |schedule| || schedule[nextStep].atNs > elapsedNs
      ensures ok && (old(stopRequested) || elapsedNs >= durationNs || hot) ==> nextStep == old(nextStep)
      ensures forall k :: old(nextStep) <= k < nextStep ==> schedule[k].atNs <= elapsedNs
      ensures forall i :: 0 <= i < |workers| && old(workers)[i].reaped ==> workers[i].reaped
      ensures ok && Sane(options) ==> InTime()
    {
      hide Kept, AtPace, Handed, Asked, Fits, WatchedAt, WorkerPool.Valid, StopIsKept, HangIsKept, Sane;
      elapsedNs, hot, received, decided := *, *, 0, lives;
      ok := ReadClock();
      if !ok {
        return;
      }
      ok := Decide(elapsedNs, hot);
      if !ok {
        return;
      }
      decided := lives;
      forall i | 0 <= i < |lives| ensures Asked(lives[i]) <==> stopRequested {
        AskedIsKept(lives[i], workers[i], stopRequested, stopForced, clockNs, options);
      }
      ok, received := Attend();
    }

    /**
     The loop of ticks, for as many as the run takes: it ends well exactly when
     every worker is reaped, and whoever is not has been watched at every tick.
     */
    method Execute(ticks: nat) returns (ok: bool)
      requires Settled()
      modifies this, pool`pids, pool`live, pool.kernel`children, pool.kernel`exited
      ensures ok ==> Settled()
      ensures |workers| == |old(workers)| && LivesGrow()
      ensures ok && live == 0 ==> forall i :: 0 <= i < |workers| ==> workers[i].reaped
      ensures ok && live > 0 ==> exists i :: 0 <= i < |workers| && !workers[i].reaped
      ensures ok && old(live) > 0 && ticks > 0 && Sane(options) ==> InTime()
      ensures ok ==> forall i :: 0 <= i < |workers| && !workers[i].reaped ==> Watches(lives[i].moments) >= ticks
    {
      hide Kept, AtPace, Handed, Fits, WatchedAt, Sane, StopIsKept, HangIsKept, Watches;
      ok := true;
      var n := 0;
      while live > 0 && n < ticks
        invariant Settled() && n <= ticks
        invariant n > 0 && Sane(options) ==> InTime()
        invariant n == 0 ==> live == old(live)
        invariant |workers| == |old(workers)| && LivesGrow()
        invariant forall i :: 0 <= i < |workers| && !workers[i].reaped ==> Watches(lives[i].moments) >= n
        decreases ticks - n
      {
        ghost var before := lives;
        var elapsedNs, hot, received;
        ghost var decided;
        ok, elapsedNs, hot, received, decided := Tick();
        if !ok {
          return;
        }
        forall i | 0 <= i < |workers| && !workers[i].reaped ensures Watches(lives[i].moments) > n {
          WatchedOnce(before[i].moments, decided[i].moments, lives[i].moments, clockNs);
        }
        n := n + 1;
      }
      NoneLive(pool.pids);
    }

    /** In every run, a stop asked at any time has ended in SIGKILL, or a process found gone, by its bound. */
    lemma EveryStopIsBounded(i: nat, s: nat, k: nat) returns (met: nat)
      requires Valid() && i < |workers|
      requires 0 <= options.grace.stopNs && 0 <= options.grace.killNs
      requires s < k < |lives[i].moments| && lives[i].moments[s].AskStop? && lives[i].moments[k].Watch?
      requires lives[i].moments[k].atNs >
               lives[i].moments[s].atNs + options.grace.stopNs + options.grace.killNs + 2 * gap
      ensures s < met <= k && |lives[i].states| == |lives[i].moments| + 1
      ensures lives[i].moments[met].atNs <=
              lives[i].moments[s].atNs + options.grace.stopNs + options.grace.killNs + 2 * gap
      ensures lives[i].states[met + 1].rung.step == Killed || lives[i].GoneBefore(met + 1, options)
    {
      assert Kept(lives[i], workers[i], stopRequested, stopForced, clockNs, options);
      assert AtPace(lives[i], workers[i], tickNs, gap);
      met := StopIsBounded(lives[i], s, k, gap, options);
    }

    /** In every run, a worker silent since some time has been killed, or found gone, by its bound. */
    lemma EveryHangIsBounded(i: nat, k: nat, t0: int) returns (met: nat)
      requires Valid() && i < |workers| && |lives[i].states| == |lives[i].moments| + 1 && SilentSince(lives[i], t0)
      requires 0 <= options.replacementAllowanceNs && 0 <= options.staleAfterNs && 0 <= options.grace.killNs
      requires k < |lives[i].moments| && lives[i].moments[k].Watch?
      requires lives[i].moments[k].atNs >
               t0 + options.staleAfterNs + options.replacementAllowanceNs + options.grace.killNs + 2 * gap
      ensures met <= k
      ensures lives[i].moments[met].atNs <=
              t0 + options.staleAfterNs + options.replacementAllowanceNs + options.grace.killNs + 2 * gap
      ensures lives[i].states[met + 1].rung.step == Killed || lives[i].GoneBefore(met + 1, options)
    {
      assert Kept(lives[i], workers[i], stopRequested, stopForced, clockNs, options);
      assert AtPace(lives[i], workers[i], tickNs, gap);
      met := HangIsBounded(lives[i], k, t0, gap, options);
    }
  }
}
