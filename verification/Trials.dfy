/**
 The log of a worst-case search: every trial it ran, every elimination and the
 choice of the survivor, in order; which event may follow which log; and what
 holds of every log built so.
 */
module Trials {
  import opened Integers
  import opened Sums
  import opened Drift
  import opened Estimate

  datatype Verdict = Clean | CorrectedErrors | Incomplete | Findings

  predicate Unscored(verdict: Verdict) {
    verdict.Findings? || verdict.Incomplete?
  }

  datatype Direction = HigherIsWorse | LowerIsWorse

  function SignOf(direction: Direction): real {
    if direction.HigherIsWorse? then 1.0 else -1.0
  }

  /** What became of a candidate. */
  datatype Fate = Survivor | Eliminated | HadFindings | Unfinished | StoppedWithSearch

  datatype TrialNote = TrialNote(correctedErrors: bool, unsettled: bool)

  datatype Observation = Observation(atNs: int, raw: real, note: TrialNote)

  datatype Candidate = Candidate(id: string, settles: bool)

  datatype Config = Config(
    direction: Direction, reference: Candidate, candidates: seq<Candidate>,
    baseReplicates: nat, eliminationFactor: nat, finalReplicates: nat,
    interleaveEvery: nat, referenceReplicates: nat)
  {
    predicate Valid() {
      && candidates != []
      && baseReplicates >= 1
      && eliminationFactor >= 2
      && finalReplicates >= 2
      && interleaveEvery >= 1
      && referenceReplicates >= 1
    }
  }

  // ---- Events ------------------------------------------------------------------------

  /**
   Read and Bad are reference trials, scored and not; Score and Leave a
   candidate's; Abandon a trial that gave nothing; Halve an elimination and the
   candidates it put out; Choose the survivor.
   */
  datatype Event =
    | Read(point: ReferencePoint, note: TrialNote)
    | Bad(verdict: Verdict)
    | Score(which: nat, seen: Observation)
    | Leave(which: nat, verdict: Verdict)
    | Abandon
    | Halve(out: set<nat>)
    | Choose(which: nat)

  predicate Ends(e: Event) {
    e.Bad? || e.Abandon?
  }

  predicate IsTrial(e: Event) {
    !e.Halve? && !e.Choose?
  }

  predicate IsTrialOf(e: Event, which: nat) {
    (e.Score? || e.Leave?) && e.which == which
  }

  type Log = seq<Event>

  function References(log: Log): seq<ReferencePoint> {
    if log == [] then []
    else
      var last := log[|log| - 1];
      References(log[..|log| - 1]) + if last.Read? then [last.point] else []
  }

  function ReferenceNotes(log: Log): seq<TrialNote> {
    if log == [] then []
    else
      var last := log[|log| - 1];
      ReferenceNotes(log[..|log| - 1]) + if last.Read? then [last.note] else []
  }

  function Observations(log: Log, which: nat): seq<Observation> {
    if log == [] then []
    else
      var last := log[|log| - 1];
      Observations(log[..|log| - 1], which) + if last.Score? && last.which == which then [last.seen] else []
  }

  /** The scored candidate trials since the last reference reading. */
  function Since(log: Log): nat {
    if log == [] then 0
    else
      var last := log[|log| - 1];
      if last.Read? then 0 else Since(log[..|log| - 1]) + if last.Score? then 1 else 0
  }

  function TrialsIn(log: Log): nat {
    if log == [] then 0
    else TrialsIn(log[..|log| - 1]) + if IsTrial(log[|log| - 1]) then 1 else 0
  }

  function Eliminations(log: Log): nat {
    if log == [] then 0
    else Eliminations(log[..|log| - 1]) + if log[|log| - 1].Halve? then 1 else 0
  }

  function FateIn(log: Log, which: nat): Fate {
    if log == [] then Survivor
    else
      var last := log[|log| - 1];
      if last.Leave? && last.which == which then if last.verdict.Findings? then HadFindings else Unfinished
      else if last.Halve? && which in last.out then Eliminated
      else FateIn(log[..|log| - 1], which)
  }

  predicate Live(log: Log, which: nat) {
    FateIn(log, which).Survivor?
  }

  /** The eliminations a candidate was ranked in. */
  function RankedIn(log: Log, which: nat): nat {
    if log == [] then 0
    else
      var before := log[..|log| - 1];
      RankedIn(before, which) + if log[|log| - 1].Halve? && Live(before, which) then 1 else 0
  }

  predicate Chosen(log: Log) {
    log != [] && (log[|log| - 1].Choose? || Chosen(log[..|log| - 1]))
  }

  /** The candidate's observations that chose it: those before the choice. */
  function SelectionCount(log: Log, which: nat): nat {
    if log == [] then 0
    else
      var before, last := log[..|log| - 1], log[|log| - 1];
      if last.Choose? && last.which == which then |Observations(before, which)| else SelectionCount(before, which)
  }

  /** One event more: what each account of the log becomes. */
  lemma Grown(log: Log, e: Event)
    ensures References(log + [e]) == References(log) + (if e.Read? then [e.point] else [])
    ensures ReferenceNotes(log + [e]) == ReferenceNotes(log) + (if e.Read? then [e.note] else [])
    ensures Since(log + [e]) == if e.Read? then 0 else Since(log) + if e.Score? then 1 else 0
    ensures TrialsIn(log + [e]) == TrialsIn(log) + if IsTrial(e) then 1 else 0
    ensures Eliminations(log + [e]) == Eliminations(log) + if e.Halve? then 1 else 0
    ensures Chosen(log + [e]) == (e.Choose? || Chosen(log))
  {
    assert (log + [e])[..|log|] == log;
  }

  lemma GrownFor(log: Log, e: Event, which: nat)
    ensures Observations(log + [e], which) ==
            Observations(log, which) + (if e.Score? && e.which == which then [e.seen] else [])
    ensures FateIn(log + [e], which) ==
            if e.Leave? && e.which == which then (if e.verdict.Findings? then HadFindings else Unfinished)
            else if e.Halve? && which in e.out then Eliminated
            else FateIn(log, which)
    ensures RankedIn(log + [e], which) == RankedIn(log, which) + if e.Halve? && Live(log, which) then 1 else 0
    ensures SelectionCount(log + [e], which) ==
            if e.Choose? && e.which == which then |Observations(log, which)| else SelectionCount(log, which)
  {
    assert (log + [e])[..|log|] == log;
  }

  // ---- Scores --------------------------------------------------------------------------

  function Raws(seen: seq<Observation>): (s: seq<real>)
    ensures |s| == |seen| && forall i :: 0 <= i < |s| ==> s[i] == seen[i].raw
  {
    seq(|seen|, i requires 0 <= i < |seen| => seen[i].raw)
  }

  function InstantsOf(seen: seq<Observation>): (s: seq<int>)
    ensures |s| == |seen| && forall i :: 0 <= i < |s| ==> s[i] == seen[i].atNs
  {
    seq(|seen|, i requires 0 <= i < |seen| => seen[i].atNs)
  }

  /** The mean of the first readings; 0 until they have all been taken. */
  function AnchorOf(config: Config, references: seq<ReferencePoint>): real {
    if |references| < config.referenceReplicates then 0.0
    else Mean(Values(references)[..config.referenceReplicates])
  }

  /** Observations with the drift taken out. */
  function CorrectedOf(config: Config, references: seq<ReferencePoint>, seen: seq<Observation>): (s: seq<real>)
    ensures |s| == |seen|
  {
    CorrectedScores(references, Raws(seen), InstantsOf(seen), AnchorOf(config, references))
  }

  /** A candidate's mean corrected score, signed so that more is worse. */
  function SignedMean(config: Config, references: seq<ReferencePoint>, seen: seq<Observation>): real {
    Times(SignOf(config.direction), Mean(CorrectedOf(config, references, seen)))
  }

  /** Worse by signed mean; on a tie the candidate configured earlier. */
  predicate Outranks(x: real, i: nat, y: real, j: nat) {
    x > y || (x == y && i < j)
  }

  predicate Worse(config: Config, log: Log, i: nat, j: nat) {
    Outranks(SignedMean(config, References(log), Observations(log, i)), i,
             SignedMean(config, References(log), Observations(log, j)), j)
  }

  // ---- Which event may come next ----------------------------------------------------------

  function Power(f: nat, r: nat): nat {
    if r == 0 then 1 else Power(f, r - 1) * f
  }

  /** The quotient rounded up. */
  function Ceil(n: nat, f: nat): nat
    requires f > 0
  {
    n / f + if n % f != 0 then 1 else 0
  }

  function LiveSet(config: Config, log: Log): (s: set<nat>)
    ensures forall w: nat :: w in s <==> w < |config.candidates| && Live(log, w)
  {
    set w: nat | w < |config.candidates| && Live(log, w)
  }

  function ReplicatesOf(log: Log, which: nat): nat {
    |Observations(log, which)|
  }

  /** The candidate whose turn it is: earlier ones are one replicate ahead, later ones level. */
  ghost predicate Turn(config: Config, log: Log, which: nat) {
    forall u: nat :: u < |config.candidates| && Live(log, u) ==>
      ReplicatesOf(log, u) == ReplicatesOf(log, which) + if u < which then 1 else 0
  }

  ghost predicate MayRun(config: Config, log: Log, which: nat) {
    && config.referenceReplicates <= |log|
    && which < |config.candidates| && Live(log, which)
    && Since(log) < config.interleaveEvery
    && if Chosen(log) then ReplicatesOf(log, which) < SelectionCount(log, which) + config.finalReplicates
       else
         && Turn(config, log, which)
         && ReplicatesOf(log, which) < config.baseReplicates * Power(config.eliminationFactor, Eliminations(log))
  }

  /** All live candidates have the round's replicates. */
  ghost predicate Level(config: Config, log: Log) {
    forall w :: w in LiveSet(config, log) ==>
      ReplicatesOf(log, w) == config.baseReplicates * Power(config.eliminationFactor, Eliminations(log))
  }

  /** The share that is kept is the worse one, and is the share rounded up. */
  ghost predicate KeepsWorse(config: Config, log: Log, out: set<nat>)
    requires config.eliminationFactor > 0
  {
    var live := LiveSet(config, log);
    && out <= live
    && |live - out| == Ceil(|live|, config.eliminationFactor)
    && forall i, j :: i in live - out && j in out ==> Worse(config, log, i, j)
  }

  ghost predicate MayHalve(config: Config, log: Log, out: set<nat>)
    requires config.eliminationFactor > 0
  {
    && config.referenceReplicates <= |log|
    && Since(log) == 0 && !Chosen(log)
    && Level(config, log) && KeepsWorse(config, log, out)
  }

  ghost predicate Admits(config: Config, log: Log, e: Event)
    requires config.Valid()
  {
    && (log == [] || !Ends(log[|log| - 1]))
    && match e
       case Read(_, _) => |log| < config.referenceReplicates || Since(log) > 0
       case Bad(verdict) => Unscored(verdict) && (|log| < config.referenceReplicates || Since(log) > 0)
       case Score(which, _) => MayRun(config, log, which)
       case Leave(which, verdict) => Unscored(verdict) && MayRun(config, log, which)
       case Abandon => true
       case Halve(out) => MayHalve(config, log, out)
       case Choose(which) =>
         && config.referenceReplicates <= |log|
         && Since(log) == 0 && !Chosen(log) && LiveSet(config, log) == {which}
  }

  ghost predicate AdmittedAt(config: Config, log: Log, i: nat)
    requires config.Valid() && i < |log|
  {
    Admits(config, log[..i], log[i])
  }

  /** A log built one admitted event at a time. */
  ghost predicate Lawful(config: Config, log: Log)
    requires config.Valid()
  {
    forall i :: 0 <= i < |log| ==> AdmittedAt(config, log, i)
  }

  lemma LawfulGrows(config: Config, log: Log, e: Event)
    requires config.Valid() && Lawful(config, log) && Admits(config, log, e)
    ensures Lawful(config, log + [e])
  {
    hide Admits;
    var next := log + [e];
    forall i | 0 <= i < |next| ensures AdmittedAt(config, next, i) {
      if i < |log| {
        assert AdmittedAt(config, log, i);
        assert next[..i] == log[..i];
      } else {
        assert next[..i] == log;
      }
    }
  }

  lemma LawfulBefore(config: Config, log: Log, k: nat)
    requires config.Valid() && Lawful(config, log) && k <= |log|
    ensures Lawful(config, log[..k])
  {
    hide Admits;
    var part := log[..k];
    forall i | 0 <= i < |part| ensures AdmittedAt(config, part, i) {
      assert AdmittedAt(config, log, i);
      assert part[..i] == log[..i];
    }
  }

  // ---- What holds of every lawful log -----------------------------------------------------

  /** The log opens with exactly the anchor's reference trials. */
  lemma OpensWithReferences(config: Config, log: Log, i: nat)
    requires config.Valid() && Lawful(config, log) && i < |log|
    ensures i < config.referenceReplicates ==> log[i].Read? || Ends(log[i])
    ensures i < |log| - 1 && i < config.referenceReplicates ==> log[i].Read?
    ensures i == config.referenceReplicates ==> !log[i].Read? && !log[i].Bad?
  {
    assert AdmittedAt(config, log, i);
    if i < |log| - 1 {
      assert AdmittedAt(config, log, i + 1);
      assert log[..i + 1][i] == log[i];
    }
    if i == config.referenceReplicates {
      assert log[..i][i - 1] == log[i - 1];
      assert AdmittedAt(config, log, i - 1);
      assert log[i - 1].Read?;
    }
  }

  function ScoresIn(log: Log): nat {
    if log == [] then 0 else ScoresIn(log[..|log| - 1]) + if log[|log| - 1].Score? then 1 else 0
  }

  lemma {:induction false} SinceIsBounded(config: Config, log: Log)
    requires config.Valid() && Lawful(config, log)
    ensures Since(log) <= config.interleaveEvery
  {
    if log != [] {
      var n := |log| - 1;
      LawfulBefore(config, log, n);
      SinceIsBounded(config, log[..n]);
      assert AdmittedAt(config, log, n);
    }
  }

  lemma {:induction false} SinceCountsWindow(log: Log, i: nat)
    requires i <= |log| && forall k :: i <= k < |log| ==> !log[k].Read?
    ensures ScoresIn(log[i..]) <= Since(log)
  {
    if i < |log| {
      var n := |log| - 1;
      assert log[i..][..n - i] == log[..n][i..];
      SinceCountsWindow(log[..n], i);
    }
  }

  /** At most interleaveEvery scored trials lie in any stretch without a reference reading. */
  lemma ReferencesAreInterleaved(config: Config, log: Log, i: nat, j: nat)
    requires config.Valid() && Lawful(config, log) && i <= j <= |log|
    requires forall k :: i <= k < j ==> !log[k].Read?
    ensures ScoresIn(log[i..j]) <= config.interleaveEvery
  {
    LawfulBefore(config, log, j);
    SinceIsBounded(config, log[..j]);
    SinceCountsWindow(log[..j], i);
    assert log[..j][i..] == log[i..j];
  }

  lemma {:induction false} GoneStaysGone(log: Log, which: nat, k: nat)
    requires k <= |log| && !Live(log[..k], which)
    ensures !Live(log, which)
  {
    if k < |log| {
      var n := |log| - 1;
      assert log[..n][..k] == log[..k];
      GoneStaysGone(log[..n], which, k);
    } else {
      assert log[..k] == log;
    }
  }

  lemma OutStaysOut(log: Log, which: nat, i: nat, n: nat)
    requires i < n <= |log|
    requires (log[i].Leave? && log[i].which == which) || (log[i].Halve? && which in log[i].out)
    ensures !Live(log[..n], which)
  {
    assert log[..i + 1][..i] == log[..i];
    assert !Live(log[..i + 1], which);
    assert log[..n][..i + 1] == log[..i + 1];
    GoneStaysGone(log[..n], which, i + 1);
  }

  /** A candidate that has left the search, by a finding or by rank, is never run again. */
  lemma NeverRunAgain(config: Config, log: Log, which: nat, i: nat, j: nat)
    requires config.Valid() && Lawful(config, log) && i < j < |log|
    requires (log[i].Leave? && log[i].which == which) || (log[i].Halve? && which in log[i].out)
    ensures !IsTrialOf(log[j], which)
  {
    OutStaysOut(log, which, i, j);
    assert AdmittedAt(config, log, j);
  }

  /** An event that puts a candidate out finds it in the search. */
  lemma OutOnlyOnce(config: Config, log: Log, which: nat)
    requires config.Valid() && Lawful(config, log) && log != []
    requires var last := log[|log| - 1];
             (last.Leave? && last.which == which) || (last.Halve? && which in last.out)
    ensures Live(log[..|log| - 1], which)
  {
    assert AdmittedAt(config, log, |log| - 1);
  }

  /**
   What became of a candidate is what the log shows: it had findings, or did not
   finish, or was ranked out, exactly if some event says so, and at most one does.
   */
  lemma {:induction false} FateIsHistory(config: Config, log: Log, which: nat)
    requires config.Valid() && Lawful(config, log)
    ensures FateIn(log, which).HadFindings? <==> Leave(which, Findings) in log
    ensures FateIn(log, which).Unfinished? <==> Leave(which, Incomplete) in log
    ensures !FateIn(log, which).StoppedWithSearch?
    ensures FateIn(log, which).Eliminated? <==> exists i :: 0 <= i < |log| && log[i].Halve? && which in log[i].out
  {
    if log != [] {
      var n := |log| - 1;
      LawfulBefore(config, log, n);
      FateIsHistory(config, log[..n], which);
      assert log == log[..n] + [log[n]];
      assert AdmittedAt(config, log, n);
      if (log[n].Leave? && log[n].which == which) || (log[n].Halve? && which in log[n].out) {
        OutOnlyOnce(config, log, which);
      }
    }
  }

  /** Every elimination follows a closing reference and ranks replicates in equal numbers. */
  lemma EliminationsAreFair(config: Config, log: Log, i: nat, w: nat)
    requires config.Valid() && Lawful(config, log) && i < |log| && log[i].Halve?
    requires w < |config.candidates| && Live(log[..i], w)
    ensures Since(log[..i]) == 0
    ensures ReplicatesOf(log[..i], w) ==
            config.baseReplicates * Power(config.eliminationFactor, Eliminations(log[..i]))
  {
    assert AdmittedAt(config, log, i);
    assert w in LiveSet(config, log[..i]);
  }

  /** Whoever an elimination keeps is worse than, or level with and earlier than, whoever it puts out. */
  lemma EliminationsRank(config: Config, log: Log, i: nat, a: nat, b: nat)
    requires config.Valid() && Lawful(config, log) && i < |log| && log[i].Halve?
    requires a < |config.candidates| && Live(log[..i + 1], a) && b in log[i].out
    ensures Live(log[..i], b) && !Live(log[..i + 1], b)
    ensures Worse(config, log[..i], a, b)
  {
    hide Worse;
    var before := log[..i];
    assert AdmittedAt(config, log, i);
    assert log[..i + 1] == before + [log[i]];
    GrownFor(before, log[i], a);
    GrownFor(before, log[i], b);
    assert a in LiveSet(config, before) - log[i].out;
  }

  // ---- Every baseline is between two readings ------------------------------------------------

  function InstantOf(e: Event): int
    requires e.Read? || e.Score?
  {
    if e.Read? then e.point.atNs else e.seen.atNs
  }

  /** Trials, run one after another, read at later and later instants. */
  predicate InTime(log: Log) {
    forall i, j :: 0 <= i < j < |log| && (log[i].Read? || log[i].Score?) && (log[j].Read? || log[j].Score?) ==>
      InstantOf(log[i]) < InstantOf(log[j])
  }

  lemma {:induction false} ReadingIsThere(log: Log, j: nat) returns (k: nat)
    requires j < |log| && log[j].Read?
    ensures k < |References(log)| && References(log)[k] == log[j].point
  {
    var n := |log| - 1;
    if j == n {
      k := |References(log[..n])|;
    } else {
      k := ReadingIsThere(log[..n], j);
    }
  }

  lemma {:induction false} FirstReading(log: Log)
    requires log != [] && log[0].Read?
    ensures References(log) != [] && References(log)[0] == log[0].point
  {
    if |log| > 1 {
      FirstReading(log[..|log| - 1]);
    }
  }

  lemma {:induction false} ClosedBy(log: Log, i: nat) returns (j: nat)
    requires i < |log| && log[i].Score? && Since(log) == 0
    ensures i < j < |log| && log[j].Read?
  {
    var n := |log| - 1;
    if log[n].Read? {
      j := n;
    } else {
      j := ClosedBy(log[..n], i);
    }
  }

  /** With the last reference closed, the reading just before a trial and the one just after bracket it. */
  lemma NoHeldEnds(config: Config, log: Log, i: nat)
    requires config.Valid() && Lawful(config, log) && InTime(log) && Since(log) == 0
    requires i < |log| && log[i].Score?
    ensures var points, atNs := References(log), log[i].seen.atNs;
            points != []
            && var b := BracketAt(points, atNs);
               b.upper == b.lower + 1 && points[b.lower].atNs < atNs <= points[b.upper].atNs
  {
    hide AdmittedAt, Lawful;
    OpensWithReferences(config, log, i);
    assert 0 < i;
    OpensWithReferences(config, log, 0);
    FirstReading(log);
    var j := ClosedBy(log, i);
    var k := ReadingIsThere(log, j);
    var points, atNs := References(log), log[i].seen.atNs;
    assert InstantOf(log[0]) < InstantOf(log[i]) < InstantOf(log[j]);
    var first := FirstNotBefore(points, atNs);
    assert 0 < first <= k;
  }

  /** So a reference that drifts along a line is taken out of every score exactly. */
  lemma DriftIsTakenOut(config: Config, log: Log, origin: real, slope: real, i: nat)
    requires config.Valid() && Lawful(config, log) && InTime(log) && Since(log) == 0
    requires i < |log| && log[i].Score? && OnLine(References(log), origin, slope)
    requires config.referenceReplicates <= |References(log)|
    ensures Corrected(log[i].seen.raw, BaselineAt(References(log), log[i].seen.atNs), AnchorOf(config,
         References(log))) ==
            log[i].seen.raw
            - Times(slope, log[i].seen.atNs as real - Mean(TimesOf(References(log))[..config.referenceReplicates]))
  {
    hide Lawful, InTime, OnLine, BaselineAt, Times, References, Since;
    NoHeldEnds(config, log, i);
    var points, atNs := References(log), log[i].seen.atNs;
    var b := BracketAt(points, atNs);
    FirstBefore(points, atNs);
    LineIsFollowed(points, origin, slope, atNs, b.upper);
    AnchorOnLine(points, origin, slope, config.referenceReplicates);
    Distribute(atNs as real, Mean(TimesOf(points)[..config.referenceReplicates]), slope);
  }

  lemma FirstBefore(points: seq<ReferencePoint>, atNs: int)
    requires points != [] && BracketAt(points, atNs).lower < BracketAt(points, atNs).upper
    ensures points[0].atNs < atNs
  {
  }

  // ---- The field shrinks ---------------------------------------------------------------------

  /** The least quotient whose multiple is not below. */
  lemma CeilIs(n: nat, f: nat, k: nat)
    requires f > 0
    ensures Ceil(n, f) <= k <==> n <= k * f
  {
    var q, r := n / f, n % f;
    assert n == q * f + r && r < f;
    if k > q {
      MultiplesGrow(q + 1, k, f);
      assert (q + 1) * f == q * f + f;
    } else if k < q {
      MultiplesGrow(k + 1, q, f);
      assert (k + 1) * f == k * f + f;
    }
  }

  lemma CeilOfCeil(m: nat, n: nat, p: nat, f: nat)
    requires p > 0 && f > 0 && m <= Ceil(n, p)
    ensures p * f > 0 && Ceil(m, f) <= Ceil(n, p * f)
  {
    var k := Ceil(n, p * f);
    CeilIs(n, p * f, k);
    assert k * (p * f) == (k * f) * p;
    CeilIs(n, p, k * f);
    CeilIs(m, f, k);
  }

  lemma FieldAfter(config: Config, log: Log, e: Event)
    requires config.Valid() && Admits(config, log, e)
    ensures LiveSet(config, log + [e]) <= LiveSet(config, log)
    ensures e.Halve? ==> LiveSet(config, log + [e]) == LiveSet(config, log) - e.out
    ensures !e.Halve? && !e.Leave? ==> LiveSet(config, log + [e]) == LiveSet(config, log)
    ensures e.Leave? ==> LiveSet(config, log + [e]) == LiveSet(config, log) - {e.which}
  {
    forall w: nat ensures Live(log + [e], w) ==
        (Live(log, w) && !(e.Leave? && e.which == w) && !(e.Halve? && w in e.out))
    {
      GrownFor(log, e, w);
    }
  }

  lemma Subset<T>(a: set<T>, b: set<T>)
    requires a <= b
    ensures |a| <= |b|
  {
    assert b == a + (b - a);
  }

  function Indices(n: nat): (s: set<nat>)
    ensures |s| == n && forall w: nat :: w in s <==> w < n
  {
    if n == 0 then {} else Indices(n - 1) + {n - 1}
  }

  ghost predicate FieldWithin(config: Config, log: Log)
    requires config.Valid()
  {
    var share := Power(config.eliminationFactor, Eliminations(log));
    share > 0 && |LiveSet(config, log)| <= Ceil(|config.candidates|, share)
  }

  lemma FieldStaysWithin(config: Config, log: Log, e: Event)
    requires config.Valid() && FieldWithin(config, log) && Admits(config, log, e)
    ensures FieldWithin(config, log + [e])
  {
    hide MayRun, Worse, FateIn, Ceil, Since;
    var f := config.eliminationFactor;
    Grown(log, e);
    FieldAfter(config, log, e);
    Subset(LiveSet(config, log + [e]), LiveSet(config, log));
    if e.Halve? {
      CeilOfCeil(|LiveSet(config, log)|, |config.candidates|, Power(f, Eliminations(log)), f);
    }
  }

  /** After r eliminations at most the candidates over factor^r, rounded up, are left. */
  lemma {:induction false} FieldIsBounded(config: Config, log: Log)
    requires config.Valid() && Lawful(config, log)
    ensures Power(config.eliminationFactor, Eliminations(log)) > 0
    ensures |LiveSet(config, log)| <=
            Ceil(|config.candidates|, Power(config.eliminationFactor, Eliminations(log)))
  {
    hide Admits;
    if log == [] {
      assert LiveSet(config, log) == Indices(|config.candidates|);
      assert Power(config.eliminationFactor, 0) == 1;
    } else {
      var n := |log| - 1;
      LawfulBefore(config, log, n);
      FieldIsBounded(config, log[..n]);
      assert AdmittedAt(config, log, n);
      FieldStaysWithin(config, log[..n], log[n]);
      assert log[..n] + [log[n]] == log;
      assert FieldWithin(config, log);
    }
  }

  /** An elimination never empties a field that had someone in it. */
  lemma FieldIsNeverEmptied(config: Config, log: Log, out: set<nat>)
    requires config.Valid() && MayHalve(config, log, out) && LiveSet(config, log) != {}
    ensures LiveSet(config, log + [Halve(out)]) != {}
  {
    var live := LiveSet(config, log);
    CeilIs(|live|, config.eliminationFactor, 0);
    assert live - out != {};
    forall w: nat ensures Live(log + [Halve(out)], w) == (Live(log, w) && w !in out) {
      GrownFor(log, Halve(out), w);
    }
    var w :| w in live - out;
    assert w in LiveSet(config, log + [Halve(out)]);
  }

  // ---- Nothing that chose the survivor is in its claim -------------------------------------------

  /** The observations of a candidate after an index of the log. */
  lemma {:induction false} ObservationsSplit(log: Log, which: nat, k: nat)
    requires k <= |log|
    ensures Observations(log, which) == Observations(log[..k], which) + Observations(log[k..], which)
  {
    if k == |log| {
      assert log[..k] == log && log[k..] == [];
    } else {
      var n := |log| - 1;
      ObservationsSplit(log[..n], which, k);
      assert log[..n][..k] == log[..k] && log[..n][k..] == log[k..][..n - k];
    }
  }

  lemma {:induction false} SelectionIsAtChoice(config: Config, log: Log, k: nat)
    requires config.Valid() && Lawful(config, log) && k < |log| && log[k].Choose?
    ensures Chosen(log)
    ensures SelectionCount(log, log[k].which) == |Observations(log[..k], log[k].which)|
  {
    var n := |log| - 1;
    if k < n {
      LawfulBefore(config, log, n);
      assert log[..n][..k] == log[..k];
      SelectionIsAtChoice(config, log[..n], k);
      assert AdmittedAt(config, log, n);
    }
  }

  /** The observations past the selection are exactly the trials run after the choice. */
  lemma FreshObservations(config: Config, log: Log, k: nat)
    requires config.Valid() && Lawful(config, log) && k < |log| && log[k].Choose?
    ensures var w := log[k].which;
            SelectionCount(log, w) <= |Observations(log, w)|
            && Observations(log, w)[SelectionCount(log, w)..] == Observations(log[k..], w)
  {
    SelectionIsAtChoice(config, log, k);
    ObservationsSplit(log, log[k].which, k);
  }

  lemma {:induction false} ReadingsCounted(log: Log, k: nat)
    requires k <= |log| && forall j :: 0 <= j < k ==> log[j].Read?
    ensures |References(log)| >= k
  {
    if k > 0 {
      var n := |log| - 1;
      ReadingsCounted(log[..n], if k <= n then k else n);
    }
  }

  lemma {:induction false} ObservedAt(log: Log, which: nat) returns (i: nat)
    requires Observations(log, which) != []
    ensures i < |log| && log[i].Score? && log[i].which == which
  {
    var n := |log| - 1;
    if log[n].Score? && log[n].which == which {
      i := n;
    } else {
      i := ObservedAt(log[..n], which);
    }
  }

  /** No candidate is observed before the anchor is known. */
  lemma ObservedMeansAnchored(config: Config, log: Log, which: nat)
    requires config.Valid() && Lawful(config, log) && Observations(log, which) != []
    ensures config.referenceReplicates <= |References(log)|
  {
    var i := ObservedAt(log, which);
    assert AdmittedAt(config, log, i);
    forall j | 0 <= j < config.referenceReplicates ensures log[j].Read? {
      OpensWithReferences(config, log, j);
    }
    ReadingsCounted(log, config.referenceReplicates);
  }

  lemma {:induction false} SelectionIsWithin(log: Log, which: nat)
    ensures SelectionCount(log, which) <= |Observations(log, which)|
  {
    if log != [] {
      SelectionIsWithin(log[..|log| - 1], which);
    }
  }

  /**
   Which way worse is: whoever an elimination keeps has a corrected mean at
   least that of whoever it puts out where higher is worse, and at most it
   where lower is; on a tie the candidate configured earlier is kept.
   */
  lemma EliminationsKeepWorse(config: Config, log: Log, i: nat, a: nat, b: nat)
    requires config.Valid() && Lawful(config, log) && i < |log| && log[i].Halve?
    requires a < |config.candidates| && Live(log[..i + 1], a) && b in log[i].out
    ensures var points := References(log[..i]);
            var kept, gone := Mean(CorrectedOf(config, points, Observations(log[..i], a))),
                              Mean(CorrectedOf(config, points, Observations(log[..i], b)));
            && (config.direction.HigherIsWorse? ==> kept >= gone)
            && (config.direction.LowerIsWorse? ==> kept <= gone)
            && (kept == gone ==> a < b)
  {
    hide Lawful, CorrectedOf, References, Observations, Mean;
    EliminationsRank(config, log, i, a, b);
  }

  // ---- Counts of a log -----------------------------------------------------------------

  /** The eliminations counted are the log's. */
  lemma {:induction false} EliminationsAreCounted(log: Log)
    ensures Eliminations(log) == |set i | 0 <= i < |log| && log[i].Halve?|
  {
    if log != [] {
      var n := |log| - 1;
      EliminationsAreCounted(log[..n]);
      var before := set i | 0 <= i < |log[..n]| && log[..n][i].Halve?;
      var all := set i | 0 <= i < |log| && log[i].Halve?;
      assert all == before + if log[n].Halve? then {n} else {};
    }
  }

  /** Every event is a trial, an elimination or the one choice. */
  lemma {:induction false} EventsAreConserved(config: Config, log: Log)
    requires config.Valid() && Lawful(config, log)
    ensures |log| == TrialsIn(log) + Eliminations(log) + if Chosen(log) then 1 else 0
  {
    if log != [] {
      LawfulBefore(config, log, |log| - 1);
      EventsAreConserved(config, log[..|log| - 1]);
      assert AdmittedAt(config, log, |log| - 1);
    }
  }

  /** A candidate is ranked in every elimination until it leaves, the one that puts it out included. */
  lemma {:induction false} RankedUntilOut(config: Config, log: Log, which: nat, i: nat)
    requires config.Valid() && Lawful(config, log)
    ensures Live(log, which) ==> RankedIn(log, which) == Eliminations(log)
    ensures i < |log| && log[i].Halve? && which in log[i].out ==> RankedIn(log, which) == Eliminations(log[..i + 1])
    ensures i < |log| && log[i].Leave? && log[i].which == which ==> RankedIn(log, which) == Eliminations(log[..i])
  {
    hide Admits;
    if log != [] {
      var n := |log| - 1;
      LawfulBefore(config, log, n);
      RankedUntilOut(config, log[..n], which, i);
      if i < n {
        assert log[..n][..i + 1] == log[..i + 1] && log[..n][..i] == log[..i];
        if (log[i].Halve? && which in log[i].out) || (log[i].Leave? && log[i].which == which) {
          OutStaysOut(log, which, i, n);
        }
      } else if i == n {
        assert log[..i + 1] == log;
        if (log[i].Halve? && which in log[i].out) || (log[i].Leave? && log[i].which == which) {
          OutOnlyOnce(config, log, which);
        }
      }
    }
  }

  /**
   The passes meet every candidate alike: until the survivor is chosen no live
   candidate is more than one trial ahead of another, and none ahead of an earlier one.
   */
  lemma {:induction false} PassesAreFair(config: Config, log: Log, u: nat, w: nat)
    requires config.Valid() && Lawful(config, log) && !Chosen(log)
    requires u < w < |config.candidates| && Live(log, u) && Live(log, w)
    ensures ReplicatesOf(log, w) <= ReplicatesOf(log, u) <= ReplicatesOf(log, w) + 1
  {
    if log != [] {
      var n := |log| - 1;
      LawfulBefore(config, log, n);
      PassesAreFair(config, log[..n], u, w);
      assert AdmittedAt(config, log, n);
    }
  }

  lemma TargetsGrow(base: nat, f: nat, r: nat)
    requires f >= 1
    ensures base * Power(f, r) <= base * Power(f, r + 1)
  {
    var target := base * Power(f, r);
    assert base * (Power(f, r) * f) == target * f;
    assert target <= target * f;
  }

  /** How often a candidate may have been run: its round's replicates, or the fresh ones after the choice. */
  predicate WithinTarget(config: Config, log: Log, which: nat) {
    if Chosen(log) then
      Live(log, which) ==> ReplicatesOf(log, which) <= SelectionCount(log, which) + config.finalReplicates
    else
      ReplicatesOf(log, which) <= config.baseReplicates * Power(config.eliminationFactor, Eliminations(log))
  }

  lemma RunsWithinTarget(config: Config, log: Log, e: Event, which: nat)
    requires config.Valid() && Admits(config, log, e) && WithinTarget(config, log, which)
    requires which < |config.candidates|
    ensures WithinTarget(config, log + [e], which)
  {
    hide Power, Observations, FateIn, Eliminations, SelectionCount, Chosen, Since, Turn, Level, KeepsWorse;
    Grown(log, e);
    GrownFor(log, e, which);
    TargetsGrow(config.baseReplicates, config.eliminationFactor, Eliminations(log));
    if e.Choose? {
      assert Live(log, which) ==> which in LiveSet(config, log);
    }
  }

  /** No candidate is run more often than its round asks, nor the survivor more than the fresh replicates after it. */
  lemma {:induction false} ReplicatesAreBounded(config: Config, log: Log, which: nat)
    requires config.Valid() && Lawful(config, log) && which < |config.candidates|
    ensures !Chosen(log) ==>
              ReplicatesOf(log, which) <= config.baseReplicates * Power(config.eliminationFactor, Eliminations(log))
    ensures Chosen(log) && Live(log, which) ==>
              ReplicatesOf(log, which) <= SelectionCount(log, which) + config.finalReplicates
  {
    hide Power, Admits;
    if log != [] {
      var n := |log| - 1;
      LawfulBefore(config, log, n);
      ReplicatesAreBounded(config, log[..n], which);
      assert AdmittedAt(config, log, n);
      RunsWithinTarget(config, log[..n], log[n], which);
      assert log[..n] + [log[n]] == log;
    } else {
      NoTargetIsNegative(config.baseReplicates, Power(config.eliminationFactor, 0));
    }
  }

  lemma NoTargetIsNegative(base: nat, power: nat)
    ensures base * power >= 0
  {
  }
}
