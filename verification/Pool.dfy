/**
 The worker pool over a nondeterministic process table: which slot a death
 belongs to, how many workers are left, and what a spawn that fails leaves behind.
 */
module Pool {
  import opened Wrappers
  import opened Safety

  datatype Death = Death(slot: nat, pid: int, status: int)

  datatype WaitAnswer = Child(pid: int, status: int) | NoneYet | Interrupted | WaitFailed

  datatype ForkAnswer = Parent(pid: int) | ChildSide | ForkFailed

  datatype SpawnOutcome = Supervisor(pids: seq<int>) | Worker(slot: nat) | SpawnFailed

  /** EINTRs tolerated in a row while waiting. */
  const MAX_CONSECUTIVE_INTERRUPTS := 128

  /**
   The process table as one process sees it: the children it has not reaped,
   the pool's and strangers alike. Every answer the kernel may give is possible.
   */
  class Kernel {
    var children: set<int>
    /** Those of the children that have exited and wait to be reaped. */
    var exited: set<int>
    /** Every signal a process was sent, oldest first. */
    ghost var signalled: seq<(int, Signal)>
    /** What each of those sends was answered. */
    ghost var answers: seq<KillAnswer>

    method SendSignal(pid: int, signal: Signal) returns (answer: KillAnswer)
      modifies this`signalled, this`answers
      ensures signalled == old(signalled) + [(pid, signal)]
      ensures answers == old(answers) + [answer]
    {
      answer := *;
      signalled := signalled + [(pid, signal)];
      answers := answers + [answer];
    }

    /** A new child has a pid that no unreaped child has. */
    method Fork() returns (answer: ForkAnswer)
      modifies this`children
      ensures answer.Parent? ==>
                0 < answer.pid && answer.pid !in old(children) && children == old(children) + {answer.pid}
      ensures !answer.Parent? ==> children == old(children)
    {
      var pid: int := *;
      var child: bool := *;
      if child {
        return ChildSide;
      }
      if pid <= 0 || pid in children {
        return ForkFailed;
      }
      children := children + {pid};
      return Parent(pid);
    }

    /**
     waitpid for any child, with or without WNOHANG: a child it reports is reaped,
     and none is said only if none has exited.
     */
    method WaitAny() returns (answer: WaitAnswer)
      modifies this`children, this`exited
      ensures answer.Child? ==> answer.pid in old(children) && children == old(children) - {answer.pid}
      ensures !answer.Child? ==> children == old(children)
      ensures answer.NoneYet? ==> exited == {}
      ensures forall pid :: pid in old(exited) && pid in children ==> pid in exited
    {
      var died: set<int> := *;
      exited := (exited + died) * children;
      answer := *;
      if answer.Child? && answer.pid in exited {
        children := children - {answer.pid};
        exited := exited - {answer.pid};
      } else if answer.Child? || (answer.NoneYet? && exited != {}) {
        answer := WaitFailed;
      }
    }
  }

  /** The signal to every pid a slot holds, in slot order. */
  function Addressed(pids: seq<int>, signal: Signal): seq<(int, Signal)> {
    if pids == [] then []
    else
      var last := pids[|pids| - 1];
      Addressed(pids[..|pids| - 1], signal) + if last != 0 then [(last, signal)] else []
  }

  /** Slots that still hold a worker. */
  function CountLive(pids: seq<int>): nat {
    if pids == [] then 0
    else CountLive(pids[..|pids| - 1]) + (if pids[|pids| - 1] != 0 then 1 else 0)
  }

  /** Whoever is addressed is held, whoever is held is addressed, each slot once and with this signal. */
  lemma {:induction false} AddressedAreHeld(pids: seq<int>, signal: Signal)
    ensures |Addressed(pids, signal)| == CountLive(pids)
    ensures forall call :: call in Addressed(pids, signal) <==> call.1 == signal && call.0 != 0 && call.0 in pids
  {
    if pids != [] {
      var n := |pids| - 1;
      AddressedAreHeld(pids[..n], signal);
      assert pids == pids[..n] + [pids[n]];
    }
  }

  lemma OneMoreAnswer(answers: seq<KillAnswer>, answer: KillAnswer, from: nat)
    requires from <= |answers|
    ensures forall a :: a in (answers + [answer])[from..] <==> a in answers[from..] || a == answer
  {
    assert (answers + [answer])[from..] == answers[from..] + [answer];
  }

  /** Every slot holds what it held, or was cleared when its worker was reaped. */
  ghost predicate Taken(pids: seq<int>, held: seq<int>, children: set<int>) {
    |pids| == |held|
    && forall i :: 0 <= i < |held| ==> pids[i] == held[i] || (pids[i] == 0 && held[i] !in children)
  }

  lemma {:induction false} CountLiveUpdate(pids: seq<int>, slot: nat, pid: int)
    requires slot < |pids|
    ensures CountLive(pids[slot := pid]) ==
            CountLive(pids) - (if pids[slot] != 0 then 1 else 0) + (if pid != 0 then 1 else 0)
  {
    var n := |pids| - 1;
    if slot == n {
      assert pids[slot := pid][..n] == pids[..n];
    } else {
      assert pids[slot := pid][..n] == pids[..n][slot := pid];
      CountLiveUpdate(pids[..n], slot, pid);
    }
  }

  lemma {:induction false} NoneLive(pids: seq<int>)
    ensures CountLive(pids) == 0 <==> forall i :: 0 <= i < |pids| ==> pids[i] == 0
    ensures CountLive(pids) <= |pids|
    ensures (forall i :: 0 <= i < |pids| ==> pids[i] != 0) ==> CountLive(pids) == |pids|
  {
    if pids != [] {
      var n := |pids| - 1;
      NoneLive(pids[..n]);
      assert forall i :: 0 <= i < n ==> pids[..n][i] == pids[i];
    }
  }

  class WorkerPool {
    const kernel: Kernel
    var pids: seq<int>
    var live: nat
    /** The pid each slot was given; 0 where no worker was forked. */
    ghost var forked: seq<int>

    /**
     `live` counts the slots that hold a worker; a slot holds the pid it was
     given or 0; the pids held are distinct unreaped children.
     */
    ghost predicate Valid()
      reads this, kernel
    {
      && |forked| == |pids|
      && live == CountLive(pids)
      && (forall i :: 0 <= i < |pids| ==> 0 <= pids[i] && (pids[i] == 0 || pids[i] == forked[i]))
      && (forall i :: 0 <= i < |pids| && pids[i] != 0 ==> pids[i] in kernel.children)
      && (forall i, j :: 0 <= i < j < |pids| && pids[i] != 0 ==> pids[i] != pids[j])
    }

    constructor (kernel: Kernel)
      ensures Valid() && this.kernel == kernel && pids == [] && live == 0
    {
      this.kernel := kernel;
      pids := [];
      live := 0;
      forked := [];
    }

    /**
     The death of a child that was just reaped, if it is one of the pool's: the
     slot that was given its pid is cleared. A stranger changes nothing.
     */
    method Claim(pid: int, status: int, ghost before: set<int>) returns (death: Option<Death>)
      requires pid in before && kernel.children == before - {pid}
      requires |forked| == |pids| && live == CountLive(pids)
      requires forall i :: 0 <= i < |pids| ==> 0 <= pids[i] && (pids[i] == 0 || pids[i] == forked[i])
      requires forall i :: 0 <= i < |pids| && pids[i] != 0 ==> pids[i] in before
      requires forall i, j :: 0 <= i < j < |pids| && pids[i] != 0 ==> pids[i] != pids[j]
      modifies this`pids, this`live
      ensures Valid()
      ensures death.Some? ==>
                && death.value.slot < |pids|
                && death.value == Death(death.value.slot, pid, status)
                && pid == forked[death.value.slot] == old(pids)[death.value.slot]
                && pid != 0
                && pids == old(pids)[death.value.slot := 0]
                && live + 1 == old(live)
      ensures death.None? ==> (pid == 0 || pid !in old(pids)) && pids == old(pids) && live == old(live)
    {
      var slot := 0;
      while slot < |pids| && !(pids[slot] != 0 && pids[slot] == pid)
        invariant slot <= |pids|
        invariant forall i :: 0 <= i < slot ==> !(pids[i] != 0 && pids[i] == pid)
      {
        slot := slot + 1;
      }
      if slot == |pids| {
        return None;
      }
      CountLiveUpdate(pids, slot, 0);
      pids := pids[slot := 0];
      live := live - 1;
      return Some(Death(slot, pid, status));
    }

    /** The next worker that stopped running: strangers are reaped and never reported. */
    method WaitForNext() returns (death: Result<Death, WaitAnswer>)
      requires Valid()
      modifies this`pids, this`live, kernel`children, kernel`exited
      ensures Valid()
      ensures kernel.children <= old(kernel.children)
      ensures death.Ok? ==> Reports(death.value, old(pids), old(live)) && death.value.pid !in kernel.children
      ensures death.Err? ==> pids == old(pids) && live == old(live)
    {
      var interrupts := 0;
      while true
        invariant Valid() && 0 <= interrupts < MAX_CONSECUTIVE_INTERRUPTS
        invariant kernel.children <= old(kernel.children)
        invariant pids == old(pids) && live == old(live)
        decreases kernel.children, MAX_CONSECUTIVE_INTERRUPTS - interrupts
      {
        ghost var before := kernel.children;
        var answer := kernel.WaitAny();
        match answer {
          case Interrupted =>
            interrupts := interrupts + 1;
            if interrupts >= MAX_CONSECUTIVE_INTERRUPTS {
              return Err(Interrupted);
            }
          case Child(pid, status) =>
            interrupts := 0;
            var claimed := Claim(pid, status, before);
            if claimed.Some? {
              return Ok(claimed.value);
            }
          case _ =>
            return Err(answer);
        }
      }
    }

    /** The same without waiting: nothing to report is an ordinary answer. */
    method ReapNextNonblocking() returns (death: Result<Option<Death>, WaitAnswer>)
      requires Valid()
      modifies this`pids, this`live, kernel`children, kernel`exited
      ensures Valid()
      ensures kernel.children <= old(kernel.children)
      ensures death.Ok? && death.value.Some? ==> Reports(death.value.value, old(pids), old(live))
      ensures death.Err? || death.value.None? ==> pids == old(pids) && live == old(live)
      ensures death.Ok? && death.value.None? ==> kernel.exited == {}
      ensures forall pid :: pid in old(kernel.exited) && pid in kernel.children ==> pid in kernel.exited
    {
      while true
        invariant Valid()
        invariant kernel.children <= old(kernel.children)
        invariant forall pid :: pid in old(kernel.exited) && pid in kernel.children ==> pid in kernel.exited
        invariant pids == old(pids) && live == old(live)
        decreases kernel.children
      {
        ghost var before := kernel.children;
        var answer := kernel.WaitAny();
        match answer {
          case NoneYet =>
            return Ok(None);
          case Child(pid, status) =>
            var claimed := Claim(pid, status, before);
            if claimed.Some? {
              return Ok(claimed);
            }
          case _ =>
            return Err(answer);
        }
      }
    }

    /** A death reported is of a worker that was held, under the slot given its pid, and takes it off the books. */
    ghost predicate Reports(death: Death, pidsBefore: seq<int>, liveBefore: nat)
      reads this
    {
      && |pidsBefore| == |pids| == |forked|
      && death.slot < |pids|
      && death.pid == pidsBefore[death.slot] == forked[death.slot]
      && death.pid != 0
      && death.pid !in pids
      && pids == pidsBefore[death.slot := 0]
      && live + 1 == liveBefore
    }

    /** Every worker still held is signalled, whatever the earlier ones answered; ESRCH is not an error. */
    method SignalAll(signal: Signal) returns (ok: bool)
      modifies kernel`signalled, kernel`answers
      ensures kernel.signalled == old(kernel.signalled) + Addressed(pids, signal)
      ensures |old(kernel.answers)| <= |kernel.answers|
      ensures ok <==> KillRefused !in kernel.answers[|old(kernel.answers)|..]
    {
      hide CountLive, Taken;
      ok := true;
      var slot := 0;
      while slot < |pids|
        invariant 0 <= slot <= |pids|
        invariant kernel.signalled == old(kernel.signalled) + Addressed(pids[..slot], signal)
        invariant |old(kernel.answers)| <= |kernel.answers|
        invariant ok <==> KillRefused !in kernel.answers[|old(kernel.answers)|..]
      {
        assert pids[..slot + 1][..slot] == pids[..slot];
        if pids[slot] != 0 {
          ghost var answered := kernel.answers;
          var answer := kernel.SendSignal(pids[slot], signal);
          OneMoreAnswer(answered, answer, |old(kernel.answers)|);
          if answer == KillRefused {
            ok := false;
          }
        }
        slot := slot + 1;
      }
      assert pids[..slot] == pids;
    }

    /**
     Signals and reaps whatever a failed spawn had started; ends early only at
     a wait that fails. What is then left is counted and no longer held.
     */
    method UnwindPartialSpawn() returns (drained: bool, ghost left: seq<int>)
      requires Valid()
      modifies this, kernel
      ensures kernel.signalled == old(kernel.signalled) + Addressed(old(pids), SigKill)
      ensures kernel.children <= old(kernel.children)
      ensures pids == [] && live == CountLive(left) && (drained <==> live == 0)
      ensures Taken(left, old(pids), kernel.children)
      ensures drained <==> Valid()
      ensures drained ==> forall i :: 0 <= i < |old(pids)| && old(pids)[i] != 0 ==> old(pids)[i] !in kernel.children
    {
      var sent := SignalAll(SigKill);
      drained := ReapHeld();
      NoneLive(pids);
      left := pids;
      pids := [];
      forked := [];
    }

    /** Waits for every worker still held, or until a wait fails. */
    method ReapHeld() returns (drained: bool)
      requires Valid()
      modifies this`pids, this`live, kernel`children, kernel`exited
      ensures Valid() && (drained <==> live == 0)
      ensures kernel.children <= old(kernel.children)
      ensures Taken(pids, old(pids), kernel.children)
    {
      while live > 0
        invariant Valid()
        invariant kernel.children <= old(kernel.children)
        invariant Taken(pids, old(pids), kernel.children)
        decreases live
      {
        var reaped := WaitForNext();
        if reaped.Err? {
          return false;
        }
      }
      return true;
    }

    /** The first `slot` of the workers are forked; `before` is the children there were. */
    ghost predicate Spawning(slot: nat, workers: nat, before: set<int>)
      reads this, kernel
    {
      && Valid() && |pids| == workers && slot <= workers && pids == forked && live == slot
      && (forall i :: slot <= i < workers ==> pids[i] == 0)
      && (forall i :: 0 <= i < slot ==> 0 < pids[i] && pids[i] !in before)
      && before <= kernel.children
      && (forall pid :: pid in kernel.children ==> pid in before || pid in pids[..slot])
    }

    method Launch(slot: nat, workers: nat, ghost before: set<int>) returns (answer: ForkAnswer)
      requires slot < workers && Spawning(slot, workers, before)
      modifies this, kernel`children
      ensures Spawning(if answer.Parent? then slot + 1 else slot, workers, before)
      ensures !answer.Parent? ==> kernel.children == old(kernel.children)
    {
      ghost var held := pids;
      answer := kernel.Fork();
      if answer.Parent? {
        CountLiveUpdate(pids, slot, answer.pid);
        pids := pids[slot := answer.pid];
        forked := pids;
        live := live + 1;
        assert pids[..slot + 1] == held[..slot] + [answer.pid];
      }
    }

    /** Unwinding a spawn in progress leaves, if its waits succeed, no child it forked. */
    method GiveUp(ghost slot: nat, ghost workers: nat, ghost before: set<int>) returns (drained: bool)
      requires Spawning(slot, workers, before)
      modifies this, kernel
      ensures drained ==> Valid() && live == 0 && kernel.children <= before
    {
      ghost var held := pids;
      ghost var children := kernel.children;
      assert forall pid :: pid in children ==> pid in before || pid in held[..slot];
      ghost var left;
      drained, left := UnwindPartialSpawn();
      if drained {
        forall pid | pid in kernel.children
          ensures pid in before
        {
          assert pid in children;
          assert pid !in held[..slot];
        }
      }
    }

    /**
     One worker per argument list. A spawn that fails unwinds what it started: if
     its waits succeed, no child it forked is left.
     */
    method Spawn(workers: nat, observer: nat -> bool) returns (outcome: SpawnOutcome, drained: bool)
      modifies this, kernel
      ensures outcome.Supervisor? ==> Spawning(workers, workers, old(kernel.children)) && outcome.pids == pids
      ensures outcome.SpawnFailed? && drained ==> Valid() && live == 0 && kernel.children <= old(kernel.children)
      ensures outcome.Worker? ==> outcome.slot < workers
    {
      pids := seq(workers, _ => 0);
      forked := pids;
      live := 0;
      drained := true;
      NoneLive(pids);
      ghost var before := kernel.children;
      var slot := 0;
      while slot < workers
        invariant 0 <= slot <= workers
        invariant Spawning(slot, workers, before)
      {
        var answer := Launch(slot, workers, before);
        if answer.ChildSide? {
          return Worker(slot), drained;
        }
        if answer.ForkFailed? {
          drained := GiveUp(slot, workers, before);
          return SpawnFailed, drained;
        }
        if !observer(slot) {
          drained := GiveUp(slot + 1, workers, before);
          return SpawnFailed, drained;
        }
        slot := slot + 1;
      }
      return Supervisor(pids), drained;
    }
  }
}
