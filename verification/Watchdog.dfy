/**
 The heartbeat watchdog, in both directions: a worker that beats and makes
 progress is sent no signal before a requested stop's grace is over, and one
 whose beats stop is sent SIGTERM, then SIGKILL, within a bounded time, however
 many replacements it has been told to make. Every signal has its cause.
 */
module Watchdog {
  import opened Wrappers
  import opened Safety
  import opened Tracking
  import opened Ladder

  // ---- What the watches have shown, from the observations alone ---------------

  /** The most progress any beat among the first n moments showed. */
  function BestProgress(moments: seq<Moment>, n: nat): nat
    requires n <= |moments|
  {
    if n == 0 then 0
    else
      var before := BestProgress(moments, n - 1);
      match moments[n - 1]
      case Watch(_, Beat(_, progress), _, _) => if progress > before then progress else before
      case _ => before
  }

  /** Whether the k-th moment is a readable watch that showed more progress than any before it. */
  predicate Rises(moments: seq<Moment>, k: nat)
    requires k < |moments|
  {
    moments[k].Watch? && moments[k].seen.Beat? && moments[k].seen.progress > BestProgress(moments, k)
  }

  /** When the worker last progressed, or was last seen paused, among the first n moments; its launch before that. */
  ghost function LastRiseNs(life: Life, n: nat): int
    requires n <= |life.moments| && |life.states| == |life.moments| + 1
  {
    if n == 0 then life.states[0].pulse.launchedNs
    else
      var m := life.moments[n - 1];
      if m.Watch? && !m.seen.Torn? && (Rises(life.moments, n - 1) || life.states[n - 1].mail.paused)
      then m.atNs
      else LastRiseNs(life, n - 1)
  }

  /** The progress the controller keeps is the history's. */
  lemma {:induction false} ProgressIsHistory(life: Life, n: nat, options: Options)
    requires life.Valid(options) && n <= |life.moments|
    ensures life.states[n].pulse.progress == BestProgress(life.moments, n)
    ensures life.states[n].pulse.progressChangedNs == LastRiseNs(life, n)
    ensures life.states[n].pulse.launchedNs == life.states[0].pulse.launchedNs
  {
    if n > 0 {
      assert life.Follows(n - 1, options);
      ProgressIsHistory(life, n - 1, options);
    }
  }

  /** When the slot last gave a whole sample, among the first n moments; the launch before that. */
  ghost function LastReadableNs(life: Life, n: nat): int
    requires n <= |life.moments| && |life.states| == |life.moments| + 1
  {
    if n == 0 then life.states[0].pulse.launchedNs
    else
      var m := life.moments[n - 1];
      if m.Watch? && !m.seen.Torn? then m.atNs else LastReadableNs(life, n - 1)
  }

  lemma {:induction false} ReadingIsHistory(life: Life, n: nat, options: Options)
    requires life.Valid(options) && n <= |life.moments|
    ensures life.states[n].pulse.lastReadNs == LastReadableNs(life, n)
  {
    if n > 0 {
      assert life.Follows(n - 1, options);
      ReadingIsHistory(life, n - 1, options);
    }
  }

  // ---- A healthy worker ---------------------------------------------------------

  /** How old a beat may be at this watch: longer while a replacement is pending. */
  ghost function AllowanceAt(life: Life, k: nat, options: Options): int
    requires k < |life.moments| && |life.states| == |life.moments| + 1
  {
    options.staleAfterNs + ReplacementExtraNs(life.states[k].mail, life.moments[k].atNs, options)
  }

  /**
   What the watch may see of a worker that is well: a slot torn for no longer
   than a beat may be old, no beat yet from one launched recently, or a fresh
   beat with a rise recent enough, idle time allowed for.
   */
  ghost predicate HealthyAt(life: Life, k: nat, options: Options)
    requires k < |life.moments| && |life.states| == |life.moments| + 1 && life.moments[k].Watch?
  {
    var m, allowance := life.moments[k], AllowanceAt(life, k, options);
    match m.seen
    case Torn => m.atNs - LastReadableNs(life, k) <= allowance
    case NeverBeat => m.atNs - life.states[0].pulse.launchedNs <= options.staleAfterNs
    case Beat(timestampNs, _) =>
      && m.atNs - timestampNs <= allowance
      && m.atNs - LastRiseNs(life, k + 1) <= allowance + life.states[k].mail.idleAllowanceNs
  }

  /** A watch judges a worker stale exactly when the history of its slot shows it unwell. */
  lemma StaleIffUnhealthy(life: Life, k: nat, options: Options)
    requires life.Valid(options) && k < |life.moments| && life.moments[k].Watch?
    ensures life.states[k + 1].pulse.staleNow <==> !HealthyAt(life, k, options)
  {
    assert life.Follows(k, options);
    ProgressIsHistory(life, k, options);
    ProgressIsHistory(life, k + 1, options);
    ReadingIsHistory(life, k, options);
  }

  /** And then SIGTERM has been sent, or the process was found gone. */
  lemma UnhealthyEndsInTerm(life: Life, k: nat, options: Options)
    requires life.Valid(options) && life.Faultless(options)
    requires k < |life.moments| && life.moments[k].Watch? && !HealthyAt(life, k, options)
    ensures Rank(life.states[k + 1].rung.step) >= 2 || life.GoneAt(k, options)
  {
    hide HealthyAt;
    StaleIffUnhealthy(life, k, options);
    assert life.Follows(k, options) && !life.FaultsAt(k, options);
    MomentClimbs(life.states[k], life.moments[k], options);
  }

  /** Nobody insists, and every watch comes before the grace of a stop asked earlier is over. */
  ghost predicate WithinGrace(moments: seq<Moment>, options: Options) {
    && (forall k :: 0 <= k < |moments| ==> !moments[k].Insist?)
    && (forall s, k :: 0 <= s < k < |moments| && moments[s].AskStop? && moments[k].Watch?
                       ==> moments[k].atNs < moments[s].atNs + options.grace.stopNs)
  }

  /** The rung of a worker nothing has been sent to: unasked, or asked at a moment of its life. */
  ghost predicate OnlyAsked(life: Life, n: nat)
    requires n <= |life.moments| < |life.states|
  {
    var rung := life.states[n].rung;
    && rung.signals == []
    && (rung.step == Unasked
        || (rung.step == Requested
            && exists s :: 0 <= s < n && life.moments[s].AskStop? && rung.sinceNs == life.moments[s].atNs))
  }

  /** A worker healthy at every watch is sent no signal before a requested stop's grace is over. */
  lemma {:induction false} HealthyIsNeverSignalled(life: Life, n: nat, options: Options)
    requires life.Valid(options) && n <= |life.moments|
    requires WithinGrace(life.moments, options)
    requires forall k :: 0 <= k < n && life.moments[k].Watch? ==> HealthyAt(life, k, options)
    ensures life.states[n].rung.signals == []
    ensures OnlyAsked(life, n)
  {
    hide HealthyAt;
    if n > 0 {
      HealthyIsNeverSignalled(life, n - 1, options);
      assert life.Follows(n - 1, options);
      MomentClimbs(life.states[n - 1], life.moments[n - 1], options);
      if life.moments[n - 1].Watch? {
        StaleIffUnhealthy(life, n - 1, options);
        assert life.states[n].rung == life.states[n - 1].rung;
      }
    }
  }

  // ---- A worker that stopped beating ----------------------------------------------

  /**
   The slot shows nothing newer than t0: every beat seen later is that old, a
   slot torn once stays torn, and a worker never seen to beat was launched by then.
   */
  ghost predicate SilentSince(life: Life, t0: int)
    requires |life.states| == |life.moments| + 1
  {
    && life.states[0].pulse.launchedNs <= t0
    && (forall k :: 0 <= k < |life.moments| && life.moments[k].Watch? && life.moments[k].atNs > t0 ==>
          && (life.moments[k].seen.Beat? ==> life.moments[k].seen.timestampNs <= t0)
          && (life.moments[k].seen.Torn? ==>
                forall i :: 0 <= i < k && life.moments[i].Watch? && life.moments[i].atNs > t0
                            ==> life.moments[i].seen.Torn?))
  }

  /** While every later watch finds the slot torn, the last whole sample stays at or before t0. */
  lemma {:induction false} LastReadBefore(life: Life, n: nat, t0: int)
    requires n <= |life.moments| && |life.states| == |life.moments| + 1
    requires life.states[0].pulse.launchedNs <= t0
    requires forall i :: 0 <= i < n && life.moments[i].Watch? && life.moments[i].atNs > t0 ==>
               life.moments[i].seen.Torn?
    ensures LastReadableNs(life, n) <= t0
  {
    if n > 0 {
      LastReadBefore(life, n - 1, t0);
    }
  }

  /** Every watch past the allowances judges a silent worker stale, whatever is queued for it. */
  lemma SilenceIsStale(life: Life, k: nat, t0: int, options: Options)
    requires life.Valid(options) && SilentSince(life, t0)
    requires 0 <= options.replacementAllowanceNs
    requires k < |life.moments| && life.moments[k].Watch?
    requires life.moments[k].atNs > t0 + options.staleAfterNs + options.replacementAllowanceNs
    requires 0 <= options.staleAfterNs
    ensures !HealthyAt(life, k, options) && life.states[k + 1].pulse.staleNow
  {
    if life.moments[k].seen.Torn? {
      LastReadBefore(life, k, t0);
    }
    StaleIffUnhealthy(life, k, options);
  }

  /** So at that watch SIGTERM has been sent, or the process was found gone. */
  lemma SilenceEndsInTerm(life: Life, k: nat, t0: int, options: Options)
    requires life.Valid(options) && life.Faultless(options) && SilentSince(life, t0)
    requires 0 <= options.replacementAllowanceNs && 0 <= options.staleAfterNs
    requires k < |life.moments| && life.moments[k].Watch?
    requires life.moments[k].atNs > t0 + options.staleAfterNs + options.replacementAllowanceNs
    ensures Rank(life.states[k + 1].rung.step) >= 2 || life.GoneAt(k, options)
  {
    SilenceIsStale(life, k, t0, options);
    UnhealthyEndsInTerm(life, k, options);
  }

  /**
   The bound on a hang: with ticks at most delta apart, a worker silent since t0
   is killed or found gone within both allowances, SIGTERM's grace and two deltas.
   */
  lemma HangIsBounded(life: Life, k: nat, t0: int, delta: int, options: Options) returns (met: nat)
    requires life.Valid(options) && life.Faultless(options) && Prompt(life, delta)
    requires SilentSince(life, t0)
    requires 0 <= options.replacementAllowanceNs && 0 <= options.staleAfterNs && 0 <= options.grace.killNs && 0 <= delta
    requires k < |life.moments| && life.moments[k].Watch?
    requires life.moments[k].atNs >
             t0 + options.staleAfterNs + options.replacementAllowanceNs + options.grace.killNs + 2 * delta
    ensures met <= k
    ensures life.moments[met].atNs <=
            t0 + options.staleAfterNs + options.replacementAllowanceNs + options.grace.killNs + 2 * delta
    ensures life.states[met + 1].rung.step == Killed || life.GoneBefore(met + 1, options)
  {
    hide Prompt;
    var dueNs := t0 + options.staleAfterNs + options.replacementAllowanceNs;
    var j := FirstWatchPast(life, -1, k, dueNs, delta);
    SilenceEndsInTerm(life, j, t0, options);
    if life.GoneAt(j, options) {
      met := j;
    } else {
      met := FirstWatchPast(life, j, k, life.moments[j].atNs + options.grace.killNs, delta);
      TermEndsInKill(life, j, met, options);
    }
  }

  /** A worker that beats and makes no progress is terminated as a hung one is, once its idle time is allowed for. */
  lemma SpinEndsInTerm(life: Life, k: nat, options: Options)
    requires life.Valid(options) && life.Faultless(options)
    requires k < |life.moments| && life.moments[k].Watch? && life.moments[k].seen.Beat?
    requires life.moments[k].atNs > LastRiseNs(life, k + 1) + AllowanceAt(life, k, options)
                                    + life.states[k].mail.idleAllowanceNs
    ensures Rank(life.states[k + 1].rung.step) >= 2 || life.GoneAt(k, options)
  {
    UnhealthyEndsInTerm(life, k, options);
  }

  // ---- What a signal was sent for --------------------------------------------------

  /** The kernel took this signal for the worker at the k-th moment. */
  ghost predicate SentAt(life: Life, k: nat, signal: Signal)
    requires k < |life.moments| < |life.states|
  {
    life.states[k + 1].rung.signals == life.states[k].rung.signals + [signal]
  }

  /** One operation sends SIGTERM only at a watch, for staleness or the request's grace, and SIGKILL only when due. */
  lemma MomentSends(w: Tracked, m: Moment, signal: Signal, options: Options)
    requires After(w, m, options).rung.signals == w.rung.signals + [signal]
    ensures (m.Watch? || m.Insist?) && m.look == StillRuns && m.kill == Queued
    ensures signal == SigTerm ==>
              && m.Watch?
              && (|| After(w, m, options).pulse.staleNow
                  || (w.rung.step == Requested && m.atNs - w.rung.sinceNs >= options.grace.stopNs))
    ensures signal == SigKill ==>
              || m.Insist?
              || (m.Watch? && w.rung.step == Terminated && m.atNs - w.rung.sinceNs >= options.grace.killNs)
    ensures var was, now := w.rung.staleWhenSignalled, After(w, m, options).rung.staleWhenSignalled;
            now == if m.Insist? then false else was || (signal == SigTerm && After(w, m, options).pulse.staleNow)
  {
    hide Judged;
    assert (w.rung.signals + [signal])[|w.rung.signals|] == signal;
    if m.Watch? {
      var stale := Judged(w.pulse, w.mail, m.seen, m.atNs, options).staleNow;
      assert SignalDue(w.rung, stale, m.atNs, options) == Some(signal);
    }
  }

  lemma MomentKeepsMark(w: Tracked, m: Moment, options: Options)
    requires After(w, m, options).rung.signals == w.rung.signals
    ensures After(w, m, options).rung.staleWhenSignalled == w.rung.staleWhenSignalled
  {
    hide Judged;
  }

  /** The moment that took the step a worker is on. */
  lemma {:induction false} StepTakenAt(life: Life, n: nat, options: Options) returns (j: nat)
    requires life.Valid(options) && n <= |life.moments| && life.states[n].rung.step != Unasked
    ensures j < n && life.states[j].rung.step != life.states[n].rung.step
    ensures life.states[j + 1].rung == life.states[n].rung && life.states[n].rung.sinceNs == life.moments[j].atNs
  {
    assert life.Follows(n - 1, options);
    MomentClimbs(life.states[n - 1], life.moments[n - 1], options);
    if life.states[n - 1].rung.step == life.states[n].rung.step {
      j := StepTakenAt(life, n - 1, options);
    } else {
      j := n - 1;
    }
  }

  /** A step's own moment: the request's is an AskStop, SIGTERM's sent it. */
  lemma StepHasMoment(life: Life, j: nat, options: Options)
    requires life.Valid(options) && j < |life.moments|
    requires life.states[j].rung.step != life.states[j + 1].rung.step
    ensures life.states[j + 1].rung.step == Requested ==> life.moments[j].AskStop?
    ensures life.states[j + 1].rung.step == Terminated ==> SentAt(life, j, SigTerm)
  {
    assert life.Follows(j, options);
    LadderOnlyClimbs(life, j, j + 1, options);
  }

  /**
   Over every life, SIGTERM never comes early or for nothing: a watch sends it,
   to a worker unwell there, or asked to stop at least the request's grace before.
   */
  lemma TermHasCause(life: Life, k: nat, options: Options) returns (s: int)
    requires life.Valid(options) && k < |life.moments| && SentAt(life, k, SigTerm)
    ensures life.moments[k].Watch? && life.moments[k].look == StillRuns && life.moments[k].kill == Queued
    ensures || !HealthyAt(life, k, options)
            || (&& 0 <= s < k && life.moments[s].AskStop?
                && life.moments[k].atNs >= life.moments[s].atNs + options.grace.stopNs)
  {
    hide HealthyAt, After;
    assert life.Follows(k, options);
    MomentSends(life.states[k], life.moments[k], SigTerm, options);
    StaleIffUnhealthy(life, k, options);
    s := -1;
    if !life.states[k + 1].pulse.staleNow {
      s := StepTakenAt(life, k, options);
      StepHasMoment(life, s, options);
    }
  }

  /**
   Nor does SIGKILL: a second stop signal sends it, or a watch at least SIGTERM's
   grace after the moment that sent SIGTERM.
   */
  lemma KillHasCause(life: Life, k: nat, options: Options) returns (j: int)
    requires life.Valid(options) && k < |life.moments| && SentAt(life, k, SigKill)
    ensures life.moments[k].Watch? || life.moments[k].Insist?
    ensures life.moments[k].look == StillRuns && life.moments[k].kill == Queued
    ensures || life.moments[k].Insist?
            || (&& life.moments[k].Watch? && 0 <= j < k && SentAt(life, j, SigTerm)
                && life.moments[k].atNs >= life.moments[j].atNs + options.grace.killNs)
  {
    hide After;
    assert life.Follows(k, options);
    MomentSends(life.states[k], life.moments[k], SigKill, options);
    j := -1;
    if !life.moments[k].Insist? {
      j := StepTakenAt(life, k, options);
      StepHasMoment(life, j, options);
    }
  }

  /** A second stop signal leaves every worker not reaped killed, or found gone. */
  lemma InsistKills(life: Life, k: nat, options: Options)
    requires life.Valid(options) && life.Faultless(options)
    requires k < |life.moments| && life.moments[k].Insist? && !life.states[k].reaped
    ensures life.states[k + 1].rung.step == Killed || life.GoneAt(k, options)
  {
    assert life.Follows(k, options) && !life.FaultsAt(k, options);
  }

  lemma {:induction false} UnsignalledIsUnmarked(life: Life, n: nat, options: Options)
    requires life.Valid(options) && n <= |life.moments|
    ensures life.states[n].rung.signals == [] ==> !life.states[n].rung.staleWhenSignalled
  {
    if n > 0 {
      assert life.Follows(n - 1, options);
      MomentClimbs(life.states[n - 1], life.moments[n - 1], options);
      UnsignalledIsUnmarked(life, n - 1, options);
    }
  }

  /**
   A worker is marked as signalled for staleness by the SIGTERM of a watch that
   found it unwell; a SIGKILL for SIGTERM's grace keeps the mark, and a second
   stop signal clears it.
   */
  lemma MarkIsOfTerm(life: Life, k: nat, options: Options)
    requires life.Valid(options) && k < |life.moments|
    ensures var was, now := life.states[k].rung.staleWhenSignalled, life.states[k + 1].rung.staleWhenSignalled;
            && (SentAt(life, k, SigTerm) ==> life.moments[k].Watch? && (now <==> !HealthyAt(life, k, options)))
            && (SentAt(life, k, SigKill) ==> (now <==> was && !life.moments[k].Insist?))
            && (life.states[k + 1].rung.signals == life.states[k].rung.signals ==> now == was)
  {
    hide HealthyAt, After;
    assert life.Follows(k, options);
    MomentClimbs(life.states[k], life.moments[k], options);
    LadderOnlyClimbs(life, k, k + 1, options);
    var before := life.states[k].rung.signals;
    assert forall signal :: (before + [signal])[|before|] == signal;
    if SentAt(life, k, SigTerm) {
      assert before == [];
      UnsignalledIsUnmarked(life, k, options);
      MomentSends(life.states[k], life.moments[k], SigTerm, options);
      StaleIffUnhealthy(life, k, options);
    } else if SentAt(life, k, SigKill) {
      MomentSends(life.states[k], life.moments[k], SigKill, options);
    } else if life.states[k + 1].rung.signals == before {
      MomentKeepsMark(life.states[k], life.moments[k], options);
    }
  }
}
