/**
 The controller and an honest worker joined by two FIFO pipes, in every
 interleaving: the controller's moments, the worker reading a message, the worker
 answering the oldest message it holds, the controller taking an answer.
 */
module Link {
  import opened Control
  import opened Tracking
  import opened Protocol

  /** An answer on its way, with the message it answers. */
  datatype Reply = Reply(to: Message, status: AckStatus)

  /** How a worker is running, by the commands it has carried out. */
  datatype Mode = Mode(paused: bool, idleNs: int)

  /**
   `down` is the control pipe, `held` what the worker has read and not answered,
   `up` the record pipe, each oldest first; `mode` is the worker's own.
   */
  datatype Pair = Pair(life: Life, down: seq<Message>, held: seq<Message>, up: seq<Reply>, mode: Mode)

  datatype Event =
    | Controller(moment: Moment)
    | WorkerReads
    | WorkerAnswers(status: AckStatus)
    | ControllerTakes(atNs: int)

  function Apply(mode: Mode, what: Command, status: AckStatus): Mode {
    if status == Refused then mode
    else
      match what
      case Pause => mode.(paused := true)
      case Resume => mode.(paused := false)
      case SetDuty(busy, period) => mode.(idleNs := IdleNs(busy, period))
      case _ => mode
  }

  function ApplyAll(mode: Mode, replies: seq<Reply>): Mode
    decreases replies
  {
    if replies == [] then mode
    else ApplyAll(Apply(mode, replies[0].to.command, replies[0].status), replies[1..])
  }

  /** What the controller believes of the worker's mode. */
  function Believed(mail: Mail): Mode {
    Mode(mail.paused, mail.idleAllowanceNs)
  }

  /** The moment an event is for the controller. */
  ghost function MomentOf(p: Pair, e: Event): Moment
    requires e.Controller? || (e.ControllerTakes? && p.up != [])
  {
    if e.Controller? then e.moment
    else Receive(e.atNs, AckRecord(Ack(p.up[0].to.sequence, p.up[0].status)))
  }

  ghost predicate KeepsOrder(moments: seq<Moment>, m: Moment) {
    forall i :: 0 <= i < |moments| ==> moments[i].atNs <= m.atNs && MayFollow(moments[i], m)
  }

  /** A controller's own moment is any but one that takes a record or ends the channel. */
  ghost predicate Enabled(p: Pair, e: Event) {
    match e
    case Controller(m) => !m.Receive? && !m.End? && KeepsOrder(p.life.moments, m)
    case WorkerReads => p.down != []
    case WorkerAnswers(_) => p.held != []
    case ControllerTakes(_) => p.up != [] && KeepsOrder(p.life.moments, MomentOf(p, e))
  }

  ghost function Next(p: Pair, e: Event, options: Options): Pair
    requires p.life.Valid(options) && Enabled(p, e)
  {
    match e
    case Controller(m) =>
      var w := p.life.Now();
      var posted := PostedBy(w, m);
      p.(life := p.life.Then(m, options),
         down := if posted == [] then p.down else p.down + [Message(w.mail.nextSequence, posted[0])])
    case WorkerReads =>
      p.(down := p.down[1..], held := p.held + [p.down[0]])
    case WorkerAnswers(status) =>
      p.(held := p.held[1..],
         up := p.up + [Reply(p.held[0], status)],
         mode := Apply(p.mode, p.held[0].command, status))
    case ControllerTakes(_) =>
      p.(life := p.life.Then(MomentOf(p, e), options), up := p.up[1..])
  }

  function MessageOf(each: Unanswered): Message {
    Message(each.sequence, each.command)
  }

  /** Everything between the two: the answers on their way, what the worker holds, the messages on their way. */
  function InFlight(p: Pair): seq<Message> {
    seq(|p.up|, i requires 0 <= i < |p.up| => p.up[i].to) + p.held + p.down
  }

  /** The controller's list of unanswered messages is exactly what is in flight, in order. */
  ghost predicate Synchronised(p: Pair, options: Options) {
    && p.life.Valid(options)
    && p.life.Now().channel == Open
    && |p.life.Now().mail.unanswered| == |InFlight(p)|
    && (forall i :: 0 <= i < |InFlight(p)| ==> MessageOf(p.life.Now().mail.unanswered[i]) == InFlight(p)[i])
    && p.mode == ApplyAll(Believed(p.life.Now().mail), p.up)
  }

  lemma {:induction false} ApplyAppend(mode: Mode, replies: seq<Reply>, reply: Reply)
    ensures ApplyAll(mode, replies + [reply]) == Apply(ApplyAll(mode, replies), reply.to.command, reply.status)
    decreases replies
  {
    if replies != [] {
      assert (replies + [reply])[1..] == replies[1..] + [reply];
      ApplyAppend(Apply(mode, replies[0].to.command, replies[0].status), replies[1..], reply);
    }
  }

  /** A controller's moment that takes no record leaves the channel, and posts what it says it posts. */
  lemma MomentPosts(w: Tracked, m: Moment, options: Options)
    requires !m.Receive? && !m.End?
    ensures After(w, m, options).channel == w.channel
    ensures Believed(After(w, m, options).mail) == Believed(w.mail)
    ensures After(w, m, options).mail.unanswered ==
            if PostedBy(w, m) == [] then w.mail.unanswered
            else w.mail.unanswered + [Unanswered(w.mail.nextSequence, PostedBy(w, m)[0], m.atNs)]
  {
  }

  lemma ControllerKeeps(p: Pair, e: Event, options: Options)
    requires Synchronised(p, options) && Enabled(p, e) && e.Controller?
    ensures Synchronised(Next(p, e, options), options)
  {
    LifeGoesOn(p.life, e.moment, options);
    MomentPosts(p.life.Now(), e.moment, options);
    var q := Next(p, e, options);
    if PostedBy(p.life.Now(), e.moment) != [] {
      assert InFlight(q) == InFlight(p) + [q.down[|q.down| - 1]];
    } else {
      assert InFlight(q) == InFlight(p);
    }
  }

  lemma WorkerKeeps(p: Pair, e: Event, options: Options)
    requires Synchronised(p, options) && Enabled(p, e) && (e.WorkerReads? || e.WorkerAnswers?)
    ensures Synchronised(Next(p, e, options), options)
  {
    var q := Next(p, e, options);
    assert InFlight(q) == InFlight(p);
    if e.WorkerAnswers? {
      ApplyAppend(Believed(p.life.Now().mail), p.up, Reply(p.held[0], e.status));
    }
  }

  lemma TakingKeeps(p: Pair, e: Event, options: Options)
    requires Synchronised(p, options) && Enabled(p, e) && e.ControllerTakes?
    ensures Synchronised(Next(p, e, options), options)
  {
    var m := MomentOf(p, e);
    LifeGoesOn(p.life, m, options);
    var q := Next(p, e, options);
    assert InFlight(p)[0] == p.up[0].to;
    assert InFlight(q) == InFlight(p)[1..];
    var w := p.life.Now();
    assert Expected(w.mail, m.record.ack);
    assert q.life.Now().mail == Acknowledged(w.mail, m.record.ack);
    assert w.mail.unanswered[0].command == p.up[0].to.command;
    assert Believed(q.life.Now().mail) == Apply(Believed(w.mail), p.up[0].to.command, p.up[0].status);
  }

  ghost predicate Starts(p: Pair) {
    && (exists atNs :: p.life == Life([], [Launched(atNs)]))
    && p.down == [] && p.held == [] && p.up == [] && p.mode == Mode(false, 0)
  }

  /** A behaviour: one enabled event after another. */
  ghost predicate Behaviour(pairs: seq<Pair>, events: seq<Event>, options: Options) {
    && |pairs| == |events| + 1
    && Starts(pairs[0])
    && (forall k :: 0 <= k < |events| ==>
          && pairs[k].life.Valid(options)
          && Enabled(pairs[k], events[k])
          && pairs[k + 1] == Next(pairs[k], events[k], options))
  }

  /**
   In every interleaving the controller's list is what is in flight, so a worker
   that answers once and in order is never judged corrupt; and the mode the
   controller holds is the worker's own, less the answers still on their way.
   */
  lemma {:induction false} HonestWorkerStaysSynchronised(pairs: seq<Pair>, events: seq<Event>, k: nat, options: Options)
    requires Behaviour(pairs, events, options) && k <= |events|
    ensures Synchronised(pairs[k], options)
    ensures pairs[k].life.Now().channel == Open
    ensures pairs[k].up == [] ==> Believed(pairs[k].life.Now().mail) == pairs[k].mode
  {
    if k == 0 {
      assert InFlight(pairs[0]) == [];
    } else {
      HonestWorkerStaysSynchronised(pairs, events, k - 1, options);
      if events[k - 1].Controller? {
        ControllerKeeps(pairs[k - 1], events[k - 1], options);
      } else if events[k - 1].ControllerTakes? {
        TakingKeeps(pairs[k - 1], events[k - 1], options);
      } else {
        WorkerKeeps(pairs[k - 1], events[k - 1], options);
      }
    }
  }

  /** What is in flight is numbered consecutively, and with nothing in flight everything sent was done or refused. */
  ghost predicate Consecutive(p: Pair)
    requires p.life.states != []
  {
    var mail := p.life.Now().mail;
    && mail.sent == mail.done + mail.refused + |InFlight(p)|
    && (forall i :: 0 <= i < |InFlight(p)| ==>
          InFlight(p)[i].sequence == SequenceOf(mail.done + mail.refused + i))
  }

  lemma SynchronisedIsConsecutive(p: Pair, options: Options)
    requires Synchronised(p, options)
    ensures p.life.states != [] && Consecutive(p)
  {
    hide InFlight, ApplyAll, CountDone, PausedAfter, IdleAfter, Posts, Answers, SequenceOf;
    var life := p.life;
    MailIsTheReplay(life, |life.moments|, options);
    forall i | 0 <= i < |InFlight(p)|
      ensures InFlight(p)[i].sequence == SequenceOf(life.Now().mail.done + life.Now().mail.refused + i)
    {
      assert MessageOf(life.Now().mail.unanswered[i]) == InFlight(p)[i];
    }
  }

  /** Over every run of an honest worker. */
  lemma InFlightIsConsecutive(pairs: seq<Pair>, events: seq<Event>, k: nat, options: Options)
    requires Behaviour(pairs, events, options) && k <= |events|
    ensures Synchronised(pairs[k], options)
    ensures pairs[k].life.states != [] && Consecutive(pairs[k])
  {
    hide Synchronised, Consecutive;
    HonestWorkerStaysSynchronised(pairs, events, k, options);
    SynchronisedIsConsecutive(pairs[k], options);
  }
}
