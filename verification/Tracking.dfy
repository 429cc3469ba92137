/**
 What the controller holds about one worker, and what each of its operations
 makes of it. A worker's life, as the controller sees it, is the list of those
 operations in order, each with the kernel's answers to it; `After` is one
 operation and `Live` a whole life. The methods of `Runs.Run` are proved
 against these functions, and the modules about the protocol, the ladder and the
 watchdog reason about every life.
 */
module Tracking {
  import opened Wrappers
  import opened Safety
  import opened Control

  /** How many messages may be unanswered before the schedule sends no more. */
  const MAX_UNANSWERED := 64

  /** Sequence numbers are 32 bits wide and wrap. */
  const SEQUENCES := 0x1_0000_0000

  datatype Options = Options(staleAfterNs: int, grace: Grace, replacementAllowanceNs: int)

  /** A write on the control pipe: taken, EPIPE, or any other error (which ends the run). */
  datatype WriteAnswer = Written | NoReader | WriteRefused

  /** A look at whether the process has exited (waitid with WNOWAIT). */
  datatype LookAnswer = StillRuns | HasExited | LookRefused

  /** What the heartbeat slot gave: no consistent sample, no beat yet, or a beat. */
  datatype Observation = Torn | NeverBeat | Beat(timestampNs: int, progress: nat)

  /** A record on the worker's record pipe: an acknowledgement, one that does not decode, or any other. */
  datatype Record = AckRecord(ack: Ack) | BadRecord | OtherRecord

  /** How a record stream ended: cleanly, inside a frame, or at bytes that are no frame. */
  datatype ChannelEnd = CleanEnd | TruncatedFrame | CorruptFrame

  // The fields of the source's Tracked, grouped by the operations that write them.

  datatype Unanswered = Unanswered(sequence: nat, command: Command, sentNs: int)

  /** The messages sent and what their answers changed. */
  datatype Mail = Mail(
    nextSequence: nat,
    unanswered: seq<Unanswered>,
    sent: nat,
    done: nat,
    refused: nat,
    dropped: nat,
    paused: bool,
    idleAllowanceNs: int)

  datatype Channel = Open | Closed | Corrupt | Truncated

  /** What the heartbeat slot has shown. */
  datatype Pulse = Pulse(
    launchedNs: int,
    lastReadNs: int,
    progress: nat,
    progressChangedNs: int,
    staleNow: bool)

  /** The rung of the stop ladder; `signals` lists the signals the kernel took for this pid, oldest first. */
  datatype Rung = Rung(step: StopStep, sinceNs: int, staleWhenSignalled: bool, signals: seq<Signal>)

  datatype Tracked = Tracked(mail: Mail, channel: Channel, pulse: Pulse, rung: Rung, reaped: bool)

  /** A worker as spawn leaves it. */
  function Launched(atNs: int): Tracked {
    Tracked(Mail(1, [], 0, 0, 0, 0, false, 0),
            Open,
            Pulse(atNs, atNs, 0, atNs, false),
            Rung(Unasked, 0, false, []),
            false)
  }

  // ---- Messages ------------------------------------------------------------

  /** A message the pipe took. */
  function Posted(mail: Mail, what: Command, nowNs: int): Mail {
    mail.(nextSequence := (mail.nextSequence + 1) % SEQUENCES,
          sent := mail.sent + 1,
          unanswered := mail.unanswered + [Unanswered(mail.nextSequence, what, nowNs)])
  }

  function Commanded(w: Tracked, what: Command, answer: WriteAnswer, nowNs: int): Tracked {
    if w.reaped || answer != Written then w else w.(mail := Posted(w.mail, what, nowNs))
  }

  /** A scheduled command: dropped, not sent, when too many are unanswered. */
  function Scheduled(w: Tracked, what: Command, answer: WriteAnswer, nowNs: int): Tracked {
    if |w.mail.unanswered| >= MAX_UNANSWERED then w.(mail := w.mail.(dropped := w.mail.dropped + 1))
    else Commanded(w, what, answer, nowNs)
  }

  /** request_stop's part for one worker. */
  function StopAsked(w: Tracked, answer: WriteAnswer, nowNs: int): Tracked {
    if w.reaped || w.rung.step != Unasked || answer == WriteRefused then w
    else Commanded(w, Stop, answer, nowNs).(rung := w.rung.(step := Requested, sinceNs := nowNs))
  }

  /** Whether an acknowledgement is for the message at the front. */
  predicate Expected(mail: Mail, ack: Ack) {
    mail.unanswered != [] && ack.sequence == mail.unanswered[0].sequence
  }

  function Acknowledged(mail: Mail, ack: Ack): Mail
    requires Expected(mail, ack)
  {
    var asked := mail.unanswered[0].command;
    var popped := mail.(unanswered := mail.unanswered[1..]);
    if ack.status == Refused then popped.(refused := mail.refused + 1)
    else
      var counted := popped.(done := mail.done + 1);
      match asked
      case Pause => counted.(paused := true)
      case Resume => counted.(paused := false)
      case SetDuty(busy, period) => counted.(idleAllowanceNs := IdleNs(busy, period))
      case _ => counted
  }

  /** One record of an open channel: taken in, or the channel is closed as corrupt. */
  function Received(w: Tracked, record: Record): Tracked {
    if w.channel != Open then w
    else
      match record
      case OtherRecord => w
      case BadRecord => w.(channel := Corrupt)
      case AckRecord(ack) =>
        if Expected(w.mail, ack) then w.(mail := Acknowledged(w.mail, ack))
        else w.(channel := Corrupt)
  }

  function Ended(w: Tracked, how: ChannelEnd): Tracked {
    if w.channel != Open then w
    else
      match how
      case CleanEnd => w.(channel := Closed)
      case TruncatedFrame => w.(channel := Truncated)
      case CorruptFrame => w.(channel := Corrupt)
  }

  // ---- The watchdog and the ladder -------------------------------------------

  /** What the allowances grow by while a Switch or Rebind written recently is unanswered. */
  function ReplacementExtraNs(mail: Mail, nowNs: int, options: Options): int {
    if exists i :: 0 <= i < |mail.unanswered| && Replaces(mail.unanswered[i].command)
                   && nowNs - mail.unanswered[i].sentNs <= options.replacementAllowanceNs
    then options.replacementAllowanceNs
    else 0
  }

  /** The allowance is there exactly for an unanswered Switch or Rebind no older than the allowance. */
  lemma ReplacementIsAllowedFor(mail: Mail, nowNs: int, options: Options)
    ensures var recent := exists i :: && 0 <= i < |mail.unanswered|
                                      && (mail.unanswered[i].command.Switch? || mail.unanswered[i].command.Rebind?)
                                      && nowNs <= mail.unanswered[i].sentNs + options.replacementAllowanceNs;
            ReplacementExtraNs(mail, nowNs, options) == if recent then options.replacementAllowanceNs else 0
  {
  }

  /** What the look at the heartbeat slot leaves: the readings kept and the judgement. */
  function Judged(pulse: Pulse, mail: Mail, seen: Observation, nowNs: int, options: Options): Pulse {
    var allowance := options.staleAfterNs + ReplacementExtraNs(mail, nowNs, options);
    if seen.Torn? then
      pulse.(staleNow := nowNs - pulse.lastReadNs > allowance)
    else
      var rose := seen.Beat? && seen.progress > pulse.progress;
      var changed := if rose || mail.paused then nowNs else pulse.progressChangedNs;
      var stalled := nowNs - changed > allowance + mail.idleAllowanceNs;
      var stale :=
        if seen.NeverBeat? then nowNs - pulse.launchedNs > options.staleAfterNs
        else nowNs - seen.timestampNs > allowance || stalled;
      Pulse(pulse.launchedNs, nowNs, if rose then seen.progress else pulse.progress, changed, stale)
  }

  /** A signal is sent only to a worker that has not exited; a step is taken only if the kernel took it. */
  function Signalled(rung: Rung, signal: Signal, nowNs: int, stale: bool,
                     look: LookAnswer, kill: KillAnswer): Rung {
    if look == StillRuns && kill == Queued then
      Rung(StepAfter(signal), nowNs, stale, rung.signals + [signal])
    else rung
  }

  /** Whether staleness alone calls for SIGTERM. */
  predicate Hung(rung: Rung, stale: bool) {
    stale && (rung.step == Unasked || rung.step == Requested)
  }

  /** The signal the watch sends, if any, once the worker has been judged. */
  function SignalDue(rung: Rung, stale: bool, nowNs: int, options: Options): Option<Signal> {
    if Hung(rung, stale) then Some(SigTerm)
    else EscalationDue(rung.step, rung.sinceNs, nowNs, options.grace)
  }

  function Escalated(rung: Rung, stale: bool, nowNs: int,
                     look: LookAnswer, kill: KillAnswer, options: Options): Rung {
    match SignalDue(rung, stale, nowNs, options)
    case None => rung
    case Some(signal) =>
      Signalled(rung, signal, nowNs, Hung(rung, stale) || rung.staleWhenSignalled, look, kill)
  }

  function Watched(w: Tracked, nowNs: int, seen: Observation,
                   look: LookAnswer, kill: KillAnswer, options: Options): Tracked {
    var pulse := Judged(w.pulse, w.mail, seen, nowNs, options);
    w.(pulse := pulse, rung := Escalated(w.rung, pulse.staleNow, nowNs, look, kill, options))
  }

  /** A second stop signal: SIGKILL to whoever has not had it. */
  function Insisted(w: Tracked, nowNs: int, look: LookAnswer, kill: KillAnswer): Tracked {
    if w.reaped || w.rung.step == Killed then w
    else w.(rung := Signalled(w.rung, SigKill, nowNs, false, look, kill))
  }

  // ---- A life ----------------------------------------------------------------

  datatype Moment =
    | Schedule(atNs: int, command: Command, write: WriteAnswer)
    | AskStop(atNs: int, write: WriteAnswer)
    | Watch(atNs: int, seen: Observation, look: LookAnswer, kill: KillAnswer)
    | Insist(atNs: int, look: LookAnswer, kill: KillAnswer)
    | Receive(atNs: int, record: Record)
    | End(atNs: int, how: ChannelEnd)
    | Reap(atNs: int)

  function After(w: Tracked, m: Moment, options: Options): Tracked {
    match m
    case Schedule(at, what, write) => Scheduled(w, what, write, at)
    case AskStop(at, write) => StopAsked(w, write, at)
    case Watch(at, seen, look, kill) => Watched(w, at, seen, look, kill, options)
    case Insist(at, look, kill) => Insisted(w, at, look, kill)
    case Receive(at, record) => Received(w, record)
    case End(at, how) => Ended(w, how)
    case Reap(_) => w.(reaped := true)
  }

  /** Whether the moment goes to signal the worker at all. */
  predicate Signals(w: Tracked, m: Moment, options: Options) {
    match m
    case Watch(at, seen, _, _) =>
      SignalDue(w.rung, Judged(w.pulse, w.mail, seen, at, options).staleNow, at, options).Some?
    case Insist(_, _, _) => !w.reaped && w.rung.step != Killed
    case _ => false
  }

  /** Whether the moment meets a kernel error, which ends the run there. */
  predicate Faults(w: Tracked, m: Moment, options: Options) {
    match m
    case Schedule(_, _, write) => write == WriteRefused && !w.reaped && |w.mail.unanswered| < MAX_UNANSWERED
    case AskStop(_, write) => write == WriteRefused && !w.reaped && w.rung.step == Unasked
    case Watch(_, _, look, kill) =>
      Signals(w, m, options) && (look == LookRefused || (look == StillRuns && kill == KillRefused))
    case Insist(_, look, kill) =>
      Signals(w, m, options) && (look == LookRefused || (look == StillRuns && kill == KillRefused))
    case _ => false
  }

  /** Whether the moment went to signal the worker and found the process gone. */
  predicate FindsGone(w: Tracked, m: Moment, options: Options) {
    && Signals(w, m, options)
    && (m.look == HasExited || (m.look == StillRuns && m.kill == NoProcess))
  }

  /** Only a kernel call the moment makes, and the kernel refuses, is a fault. */
  lemma FaultIsRefusal(w: Tracked, m: Moment, options: Options)
    requires Faults(w, m, options)
    ensures match m
            case Schedule(_, _, write) => write == WriteRefused && !w.reaped
            case AskStop(_, write) => write == WriteRefused && !w.reaped
            case Watch(_, _, look, kill) => look == LookRefused || (look == StillRuns && kill == KillRefused)
            case Insist(_, look, kill) =>
              !w.reaped && (look == LookRefused || (look == StillRuns && kill == KillRefused))
            case _ => false
  {
  }

  /** A process is found gone only where the look saw its exit or the kernel knew no such process; nothing is sent. */
  lemma GoneIsSeen(w: Tracked, m: Moment, options: Options)
    requires FindsGone(w, m, options)
    ensures m.Watch? || (m.Insist? && !w.reaped)
    ensures m.look == HasExited || (m.look == StillRuns && m.kill == NoProcess)
    ensures After(w, m, options).rung == w.rung
  {
  }

  /**
   A worker's life: its moments, and its state before each and after the last.
   Every statement about whole runs is one about all of these.
   */
  datatype Life = Life(moments: seq<Moment>, states: seq<Tracked>) {

    ghost predicate Follows(k: int, options: Options)
      requires 0 <= k < |moments| && |states| == |moments| + 1
    {
      states[k + 1] == After(states[k], moments[k], options)
    }

    ghost predicate FaultsAt(k: int, options: Options)
      requires 0 <= k < |moments| && |states| == |moments| + 1
    {
      Faults(states[k], moments[k], options)
    }

    ghost predicate GoneAt(k: int, options: Options)
      requires 0 <= k < |moments| && |states| == |moments| + 1
    {
      FindsGone(states[k], moments[k], options)
    }

    /** The moments make the states, from a launch, in the order the controller keeps. */
    ghost predicate Valid(options: Options) {
      && |states| == |moments| + 1
      && (exists atNs :: states[0] == Launched(atNs))
      && (forall k {:trigger Follows(k, options)} :: 0 <= k < |moments| ==> Follows(k, options))
      && Legal(moments)
    }

    /** The run met no kernel error. */
    ghost predicate Faultless(options: Options)
      requires |states| == |moments| + 1
    {
      forall k {:trigger FaultsAt(k, options)} :: 0 <= k < |moments| ==> !FaultsAt(k, options)
    }

    /** Some moment before the k-th found the process gone. */
    ghost predicate GoneBefore(k: int, options: Options)
      requires 0 <= k <= |moments| && |states| == |moments| + 1
    {
      exists j :: 0 <= j < k && GoneAt(j, options)
    }

    ghost function Now(): Tracked
      requires states != []
    {
      states[|states| - 1]
    }

    ghost function Then(m: Moment, options: Options): (l: Life)
      requires states != []
    {
      Life(moments + [m], states + [After(Now(), m, options)])
    }
  }

  /** The order the controller keeps for every worker. */
  ghost predicate Legal(moments: seq<Moment>) {
    && (forall i, j :: 0 <= i < j < |moments| ==> moments[i].atNs <= moments[j].atNs)
    && (forall i, j :: 0 <= i < j < |moments| ==> MayFollow(moments[i], moments[j]))
  }

  /** No message after the stop request, which comes once; no watch after the reap. */
  predicate MayFollow(earlier: Moment, later: Moment) {
    && (earlier.AskStop? ==> !later.AskStop? && !later.Schedule?)
    && (earlier.Reap? ==> !later.Watch? && !later.Reap?)
  }

  /** A life goes on by one moment that keeps the order. */
  lemma LifeGoesOn(life: Life, m: Moment, options: Options)
    requires life.Valid(options)
    requires forall i :: 0 <= i < |life.moments| ==> life.moments[i].atNs <= m.atNs && MayFollow(life.moments[i], m)
    ensures life.Then(m, options).Valid(options)
    ensures life.Then(m, options).Now() == After(life.Now(), m, options)
  {
    var next := life.Then(m, options);
    forall k | 0 <= k < |next.moments| ensures next.Follows(k, options) {
      if k < |life.moments| {
        assert life.Follows(k, options);
      }
    }
    assert exists atNs :: next.states[0] == Launched(atNs);
  }
}
