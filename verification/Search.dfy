/**
 The worst-case search: successive halving over candidates, with a reference
 trial interleaved, and the report of what was found.
 */
module Search {
  import opened Wrappers
  import opened Sums
  import opened Drift
  import opened Estimate
  import opened Trials
  import opened Ranks
  import opened Reports

  // ---- Configuration ------------------------------------------------------------------

  function ParameterProblem(config: Config): (problem: Option<string>)
    ensures problem.None? <==> config.Valid()
  {
    if config.candidates == [] then Some("no candidates")
    else if config.baseReplicates < 1 then Some("base_replicates must be at least 1")
    else if config.eliminationFactor < 2 then Some("elimination_factor must be at least 2")
    else if config.finalReplicates < 2 then Some("final_replicates must be at least 2: a worst case needs a variance")
    else if config.interleaveEvery < 1 then Some("interleave_every must be at least 1")
    else if config.referenceReplicates < 1 then Some("reference_replicates must be at least 1")
    else None
  }

  /** No name is empty or given twice, the reference's included. */
  predicate NamesAreSound(config: Config) {
    && config.reference.id != ""
    && (forall i :: 0 <= i < |config.candidates| ==>
          config.candidates[i].id != "" && config.candidates[i].id != config.reference.id)
    && forall i, j :: 0 <= i < j < |config.candidates| ==> config.candidates[i].id != config.candidates[j].id
  }

  method IdentityProblem(config: Config) returns (problem: Option<string>)
    ensures problem.None? <==> NamesAreSound(config)
  {
    if config.reference.id == "" {
      return Some("the reference has no id");
    }
    var seen := {config.reference.id};
    for i := 0 to |config.candidates|
      invariant forall id :: id in seen <==>
        id == config.reference.id || exists j :: 0 <= j < i && config.candidates[j].id == id
      invariant forall j :: 0 <= j < i ==>
                  config.candidates[j].id != "" && config.candidates[j].id != config.reference.id
      invariant forall j, k :: 0 <= j < k < i ==> config.candidates[j].id != config.candidates[k].id
    {
      var id := config.candidates[i].id;
      if id == "" {
        return Some("a candidate has no id");
      }
      if id in seen {
        return Some("candidate id " + id + " is used twice, or is the reference's");
      }
      seen := seen + {id};
    }
    return None;
  }

  // ---- A candidate's state --------------------------------------------------------------

  datatype State = State(alive: bool, fate: Fate, rounds: nat, observations: seq<Observation>, selection: nat)

  predicate Tracks(state: State, log: Log, which: nat) {
    && state.alive == Live(log, which)
    && state.fate == FateIn(log, which)
    && state.rounds == RankedIn(log, which)
    && state.observations == Observations(log, which)
    && state.selection == SelectionCount(log, which)
  }

  predicate AllTrack(states: seq<State>, log: Log) {
    forall w :: 0 <= w < |states| ==> Tracks(states[w], log, w)
  }

  /** What one event does to a candidate's state. */
  function After(state: State, e: Event, which: nat): State {
    match e
    case Score(w, seen) =>
      if w == which then state.(observations := state.observations + [seen]) else state
    case Leave(w, verdict) =>
      if w == which then state.(alive := false, fate := if verdict.Findings? then HadFindings else Unfinished)
      else state
    case Halve(out) =>
      var counted := if state.alive then state.(rounds := state.rounds + 1) else state;
      if which in out then counted.(alive := false, fate := Eliminated) else counted
    case Choose(w) =>
      if w == which then state.(selection := |state.observations|) else state
    case _ => state
  }

  lemma TracksNext(state: State, log: Log, e: Event, which: nat)
    requires Tracks(state, log, which)
    ensures Tracks(After(state, e, which), log + [e], which)
  {
    hide FateIn, Observations, RankedIn, SelectionCount;
    GrownFor(log, e, which);
  }

  lemma AllTrackNext(states: seq<State>, next: seq<State>, log: Log, e: Event)
    requires AllTrack(states, log) && |next| == |states|
    requires forall w :: 0 <= w < |states| ==> next[w] == After(states[w], e, w)
    ensures AllTrack(next, log + [e])
  {
    hide Tracks, After;
    forall w | 0 <= w < |next| ensures Tracks(next[w], log + [e], w) {
      TracksNext(states[w], log, e, w);
    }
  }

  /** One admitted event more, for the log, the states and the counts. */
  lemma LogGrows(config: Config, states: seq<State>, next: seq<State>, log: Log, e: Event)
    requires config.Valid() && Lawful(config, log) && Admits(config, log, e)
    requires AllTrack(states, log) && |next| == |states|
    requires forall w :: 0 <= w < |states| ==> next[w] == After(states[w], e, w)
    ensures Lawful(config, log + [e]) && AllTrack(next, log + [e])
    ensures References(log + [e]) == References(log) + (if e.Read? then [e.point] else [])
    ensures ReferenceNotes(log + [e]) == ReferenceNotes(log) + (if e.Read? then [e.note] else [])
    ensures Since(log + [e]) == if e.Read? then 0 else Since(log) + if e.Score? then 1 else 0
    ensures TrialsIn(log + [e]) == TrialsIn(log) + if IsTrial(e) then 1 else 0
    ensures Eliminations(log + [e]) == Eliminations(log) + if e.Halve? then 1 else 0
    ensures Chosen(log + [e]) == (e.Choose? || Chosen(log))
  {
    hide Admits, After, AllTrack, Lawful;
    LawfulGrows(config, log, e);
    AllTrackNext(states, next, log, e);
    Grown(log, e);
  }

  /** A reference trial, or one that gave nothing, changes no candidate. */
  lemma QuietlyGrows(config: Config, states: seq<State>, log: Log, e: Event)
    requires config.Valid() && Lawful(config, log) && AllTrack(states, log)
    requires e.Read? || e.Bad? || e.Abandon?
    requires Admits(config, log, e)
    ensures Lawful(config, log + [e]) && AllTrack(states, log + [e])
    ensures References(log + [e]) == References(log) + (if e.Read? then [e.point] else [])
    ensures ReferenceNotes(log + [e]) == ReferenceNotes(log) + (if e.Read? then [e.note] else [])
    ensures Since(log + [e]) == if e.Read? then 0 else Since(log)
    ensures TrialsIn(log + [e]) == TrialsIn(log) + 1
    ensures Eliminations(log + [e]) == Eliminations(log) && Chosen(log + [e]) == Chosen(log)
  {
    hide Admits, AllTrack, Lawful, References, ReferenceNotes, Since, TrialsIn, Eliminations, Chosen;
    QuietEvent(states, e);
    LogGrows(config, states, states, log, e);
  }

  lemma QuietEvent(states: seq<State>, e: Event)
    requires e.Read? || e.Bad? || e.Abandon?
    ensures forall w :: 0 <= w < |states| ==> states[w] == After(states[w], e, w)
  {
  }

  // ---- Trials ---------------------------------------------------------------------------

  /** What a runner may answer; the score is absent when the window has no reading of the objective. */
  datatype Outcome =
    | Failure
    | Trial(verdict: Verdict, settled: bool, startNs: int, endNs: int, score: Option<real>)

  datatype Measured = Measured(verdict: Verdict, note: TrialNote, atNs: int, value: real)

  datatype Fault = TrialFault | ReferenceFault | NoReading

  /** Half, towards zero. */
  function Halved(x: int): int {
    if x >= 0 then x / 2 else -(-x / 2)
  }

  /** A trial is placed at the middle of its window. */
  lemma MidpointIsInside(startNs: int, endNs: int)
    ensures var mid := startNs + Halved(endNs - startNs);
            if startNs <= endNs then startNs <= mid <= endNs && -1 <= (mid - startNs) - (endNs - mid) <= 0
            else endNs <= mid <= startNs && -1 <= (startNs - mid) - (mid - endNs) <= 0
  {
  }

  /** What a measurement keeps of a trial: its verdict and notes, the middle of its window and, if scored, its score. */
  predicate Measures(candidate: Candidate, outcome: Outcome, measured: Measured) {
    && outcome.Trial?
    && measured.verdict == outcome.verdict
    && measured.atNs == outcome.startNs + Halved(outcome.endNs - outcome.startNs)
    && (measured.note.correctedErrors <==> outcome.verdict.CorrectedErrors?)
    && (measured.note.unsettled <==> candidate.settles && !outcome.settled)
    && (!Unscored(outcome.verdict) ==> outcome.score == Some(measured.value))
  }

  datatype Settle = Settle(asked: bool, settled: bool)

  function AskedIn(finished: seq<Settle>): nat {
    if finished == [] then 0
    else AskedIn(finished[..|finished| - 1]) + if finished[|finished| - 1].asked then 1 else 0
  }

  function UnsettledIn(finished: seq<Settle>): nat {
    if finished == [] then 0
    else
      var last := finished[|finished| - 1];
      UnsettledIn(finished[..|finished| - 1]) + if last.asked && !last.settled then 1 else 0
  }

  /** The settle phases asked for, and those that ended without settling, are counted. */
  predicate Tallied(asked: nat, unsettled: nat, finished: seq<Settle>) {
    asked == AskedIn(finished) && unsettled == UnsettledIn(finished)
  }

  /** The trials counted are those that asked for a settle phase. */
  lemma {:induction false} AskedAreCounted(finished: seq<Settle>)
    ensures AskedIn(finished) == |set i | 0 <= i < |finished| && finished[i].asked|
  {
    if finished != [] {
      var n := |finished| - 1;
      AskedAreCounted(finished[..n]);
      var before := set i | 0 <= i < |finished[..n]| && finished[..n][i].asked;
      var all := set i | 0 <= i < |finished| && finished[i].asked;
      assert all == before + if finished[n].asked then {n} else {};
    }
  }

  /** And those among them that did not settle. */
  lemma {:induction false} UnsettledAreCounted(finished: seq<Settle>)
    ensures UnsettledIn(finished) == |set i | 0 <= i < |finished| && finished[i].asked && !finished[i].settled|
  {
    if finished != [] {
      var n := |finished| - 1;
      UnsettledAreCounted(finished[..n]);
      var before := set i | 0 <= i < |finished[..n]| && finished[..n][i].asked && !finished[..n][i].settled;
      var all := set i | 0 <= i < |finished| && finished[i].asked && !finished[i].settled;
      assert all == before + if finished[n].asked && !finished[n].settled then {n} else {};
    }
  }

  lemma SettleCounts(finished: seq<Settle>, next: Settle)
    ensures AskedIn(finished + [next]) == AskedIn(finished) + if next.asked then 1 else 0
    ensures UnsettledIn(finished + [next]) == UnsettledIn(finished) + if next.asked && !next.settled then 1 else 0
  {
    assert (finished + [next])[..|finished|] == finished;
  }

  function EventOf(who: Option<nat>, measured: Measured): Event {
    if who.None? then
      if Unscored(measured.verdict) then Bad(measured.verdict)
      else Read(ReferencePoint(measured.atNs, measured.value), measured.note)
    else if Unscored(measured.verdict) then Leave(who.value, measured.verdict)
    else Score(who.value, Observation(measured.atNs, measured.value, measured.note))
  }

  /** A trial with findings, or unfinished, is logged by its verdict; any other by its score at the window's middle. */
  lemma LoggedByVerdict(who: Option<nat>, candidate: Candidate, outcome: Outcome, measured: Measured)
    requires Measures(candidate, outcome, measured) && outcome.startNs <= outcome.endNs
    ensures var e, middle := EventOf(who, measured), outcome.startNs + (outcome.endNs - outcome.startNs) / 2;
            var note := TrialNote(outcome.verdict == CorrectedErrors, candidate.settles && !outcome.settled);
            match outcome.verdict
            case Findings => e == if who.Some? then Leave(who.value, Findings) else Bad(Findings)
            case Incomplete => e == if who.Some? then Leave(who.value, Incomplete) else Bad(Incomplete)
            case _ =>
              && outcome.score.Some?
              && e == if who.Some? then Score(who.value, Observation(middle, outcome.score.value, note))
                      else Read(ReferencePoint(middle, outcome.score.value), note)
  {
  }

  ghost predicate Open(log: Log) {
    log == [] || !Ends(log[|log| - 1])
  }

  /** All the trials there were to run have been run and the last reference is closed. */
  ghost predicate Completed(config: Config, log: Log) {
    && Open(log) && config.referenceReplicates <= |log| && Since(log) == 0
    && |LiveSet(config, log)| <= 1
    && forall w :: w in LiveSet(config, log) ==>
         Chosen(log) && ReplicatesOf(log, w) == SelectionCount(log, w) + config.finalReplicates
  }

  lemma NothingLogged()
    ensures References([]) == [] && Since([]) == 0 && Eliminations([]) == 0 && !Chosen([])
  {
  }

  lemma AnchorIsMean(config: Config, references: seq<ReferencePoint>)
    requires config.referenceReplicates == |references|
    ensures AnchorOf(config, references) == Mean(Values(references))
  {
    assert Values(references)[..|references|] == Values(references);
  }

  lemma NoAnchorYet(config: Config, references: seq<ReferencePoint>)
    requires |references| < config.referenceReplicates
    ensures AnchorOf(config, references) == 0.0
  {
  }

  lemma AnchorStays(config: Config, references: seq<ReferencePoint>, next: ReferencePoint)
    requires config.referenceReplicates <= |references|
    ensures AnchorOf(config, references + [next]) == AnchorOf(config, references)
  {
    var count := config.referenceReplicates;
    assert Values(references + [next])[..count] == Values(references)[..count];
  }

  /** A candidate still to be run: the search has not completed. */
  lemma StillToRun(config: Config, log: Log, which: nat)
    requires MayRun(config, log, which)
    ensures !Completed(config, log)
  {
    assert which in LiveSet(config, log);
  }

  /** What one trial of a candidate may make of its state. */
  predicate RunOnce(was: State, now: State) {
    || (now.alive && now == was.(observations := now.observations)
        && |now.observations| == |was.observations| + 1 && now.observations[..|was.observations|] == was.observations)
    || (!now.alive && now == was.(alive := false, fate := now.fate)
        && (now.fate.HadFindings? || now.fate.Unfinished?))
  }

  lemma RunsOnce(was: State, e: Event, which: nat)
    requires IsTrialOf(e, which) && was.alive
    ensures RunOnce(was, After(was, e, which))
  {
  }

  lemma RoomToRun(config: Config, states: seq<State>, log: Log, which: nat)
    requires MayRun(config, log, which) && AllTrack(states, log) && which < |states|
    ensures Since(log) < config.interleaveEvery && states[which].alive
  {
    assert Tracks(states[which], log, which);
  }

  /** The candidates still in the search. */
  function Alive(states: seq<State>): (s: set<nat>)
    ensures forall w: nat :: w in s <==> w < |states| && states[w].alive
  {
    set w: nat | w < |states| && states[w].alive
  }

  lemma AliveIsLive(config: Config, states: seq<State>, log: Log)
    requires AllTrack(states, log) && |states| == |config.candidates|
    ensures Alive(states) == LiveSet(config, log)
  {
    assert forall w: nat :: w < |states| ==> Tracks(states[w], log, w);
  }

  /** In the middle of a pass: everyone before a place has run once more than everyone from it on. */
  predicate MidPass(states: seq<State>, pass: nat, place: nat) {
    forall u :: 0 <= u < |states| && states[u].alive ==>
      |states[u].observations| == pass + if u < place then 1 else 0
  }

  lemma TurnToRun(config: Config, states: seq<State>, log: Log, pass: nat, which: nat)
    requires AllTrack(states, log) && |states| == |config.candidates| && which < |states| && states[which].alive
    requires MidPass(states, pass, which) && !Chosen(log) && Since(log) < config.interleaveEvery
    requires config.referenceReplicates <= |log|
    requires pass < config.baseReplicates * Power(config.eliminationFactor, Eliminations(log))
    ensures MayRun(config, log, which)
  {
    hide Power, Since, Eliminations;
    assert Tracks(states[which], log, which);
    forall u: nat | u < |config.candidates| && Live(log, u)
      ensures ReplicatesOf(log, u) == ReplicatesOf(log, which) + if u < which then 1 else 0
    {
      assert Tracks(states[u], log, u);
    }
  }

  lemma PassGoesOn(was: seq<State>, now: seq<State>, pass: nat, which: nat)
    requires MidPass(was, pass, which) && which < |was| && |now| == |was|
    requires now == was[which := now[which]]
    requires if was[which].alive then RunOnce(was[which], now[which]) else now[which] == was[which]
    ensures MidPass(now, pass, which + 1) && Alive(now) <= Alive(was)
  {
  }

  lemma {:induction false} ReferencesAreLogged(log: Log)
    ensures |References(log)| <= |log|
  {
    if log != [] {
      ReferencesAreLogged(log[..|log| - 1]);
    }
  }

  lemma PassIsDone(states: seq<State>, pass: nat)
    requires MidPass(states, pass, |states|)
    ensures MidPass(states, pass + 1, 0)
  {
  }

  lemma FreshToRun(config: Config, states: seq<State>, log: Log, which: nat, taken: nat)
    requires AllTrack(states, log) && |states| == |config.candidates| && which < |states| && states[which].alive
    requires Chosen(log) && Since(log) < config.interleaveEvery && config.referenceReplicates <= |log|
    requires |states[which].observations| == states[which].selection + taken && taken < config.finalReplicates
    ensures MayRun(config, log, which)
  {
    assert Tracks(states[which], log, which);
  }

  lemma RanFresh(was: State, now: State)
    requires RunOnce(was, now)
    ensures now.selection == was.selection
    ensures now.alive ==> |now.observations| == |was.observations| + 1
  {
  }

  lemma OnlyOne(s: set<nat>, x: nat)
    requires |s| <= 1 && x in s
    ensures s == {x}
  {
    assert |s - {x}| == 0;
  }

  lemma AtMostOne(states: seq<State>, which: nat)
    requires forall w :: 0 <= w < |states| && states[w].alive ==> w == which
    ensures |Alive(states)| <= 1
  {
    Subset(Alive(states), {which});
  }

  // ---- Elimination ----------------------------------------------------------------------

  /** The live candidates before a place, in the order configured, each with its signed mean. */
  predicate IsRanking(config: Config, references: seq<ReferencePoint>, states: seq<State>, n: nat, ranked: seq<Ranked>)
    requires n <= |states|
  {
    && (forall i, j :: 0 <= i < j < |ranked| ==> ranked[i].which < ranked[j].which)
    && (forall i :: 0 <= i < |ranked| ==> Scores(config, references, states, n, ranked[i]))
    && Names(ranked) == Alive(states[..n])
  }

  predicate Scores(config: Config, references: seq<ReferencePoint>, states: seq<State>, n: nat, entry: Ranked)
    requires n <= |states|
  {
    && entry.which < n
    && entry.score == SignedMean(config, references, states[entry.which].observations)
  }

  lemma RankingGrows(config: Config, references: seq<ReferencePoint>, states: seq<State>, n: nat, ranked: seq<Ranked>)
    requires n < |states| && IsRanking(config, references, states, n, ranked)
    ensures states[n].alive ==>
              IsRanking(config, references, states, n + 1,
                        ranked + [Ranked(SignedMean(config, references, states[n].observations), n)])
    ensures !states[n].alive ==> IsRanking(config, references, states, n + 1, ranked)
  {
    hide SignedMean;
    var next := ranked + [Ranked(SignedMean(config, references, states[n].observations), n)];
    assert states[..n + 1] == states[..n] + [states[n]];
    if states[n].alive {
      assert Alive(states[..n + 1]) == Alive(states[..n]) + {n};
      assert Names(next) == Names(ranked) + {n} by {
        assert next[|ranked|].which == n;
        assert forall i :: 0 <= i < |ranked| ==> next[i] == ranked[i];
      }
    } else {
      assert Alive(states[..n + 1]) == Alive(states[..n]);
    }
  }

  lemma NamesSplit(s: seq<Ranked>, k: nat)
    requires k <= |s|
    ensures Names(s) == Names(s[..k]) + Names(s[k..])
  {
    assert s == s[..k] + s[k..];
  }

  lemma SameNames(r: seq<Ranked>, s: seq<Ranked>)
    requires multiset(r) == multiset(s)
    ensures Names(r) == Names(s)
  {
    forall x ensures x in r <==> x in s {
      InBoth(r, s, x);
    }
  }

  /** The kept and the put out are the ranking cut in two. */
  lemma CutInTwo(ranked: seq<Ranked>, sorted: seq<Ranked>, keep: nat)
    requires forall i, j :: 0 <= i < j < |ranked| ==> ranked[i].which < ranked[j].which
    requires sorted == StableSort(ranked) && keep <= |sorted|
    ensures |Names(ranked)| == |ranked|
    ensures Names(sorted[keep..]) <= Names(ranked)
    ensures Names(ranked) - Names(sorted[keep..]) == Names(sorted[..keep])
    ensures |Names(sorted[..keep])| == keep
  {
    hide StableSort;
    StableSortSorts(ranked);
    SameNames(sorted, ranked);
    NamesSplit(sorted, keep);
    forall i, j | 0 <= i < j < |sorted| ensures sorted[i].which != sorted[j].which {
      SortedAreDistinct(sorted, ranked, i, j);
    }
    NamesAreDistinct(sorted[..keep]);
    NamesAreDistinct(ranked);
    assert Names(sorted[..keep]) !! Names(sorted[keep..]);
  }

  lemma CutByRank(config: Config, states: seq<State>, log: Log, ranked: seq<Ranked>, sorted: seq<Ranked>,
                  keep: nat, a: nat, b: nat)
    requires AllTrack(states, log) && IsRanking(config, References(log), states, |states|, ranked)
    requires sorted == StableSort(ranked) && keep <= |sorted|
    requires a in Names(sorted[..keep]) && b in Names(sorted[keep..])
    ensures Worse(config, log, a, b)
  {
    hide SignedMean, StableSort, References, Tracks, AllTrack;
    StableSortSorts(ranked);
    var i :| 0 <= i < keep && sorted[..keep][i].which == a;
    var j :| 0 <= j < |sorted| - keep && sorted[keep..][j].which == b;
    var x, y := sorted[i], sorted[keep + j];
    assert Before(x, y);
    RankedScore(config, states, log, ranked, sorted, x);
    RankedScore(config, states, log, ranked, sorted, y);
  }

  lemma RankedScore(config: Config, states: seq<State>, log: Log, ranked: seq<Ranked>, sorted: seq<Ranked>,
                    entry: Ranked)
    requires AllTrack(states, log) && IsRanking(config, References(log), states, |states|, ranked)
    requires multiset(sorted) == multiset(ranked) && entry in sorted
    ensures entry.score == SignedMean(config, References(log), Observations(log, entry.which))
  {
    hide SignedMean, References;
    InBoth(sorted, ranked, entry);
    var i :| 0 <= i < |ranked| && ranked[i] == entry;
    assert Scores(config, References(log), states, |states|, ranked[i]);
    assert Tracks(states[entry.which], log, entry.which);
  }

  lemma RankingNames(config: Config, references: seq<ReferencePoint>, states: seq<State>, ranked: seq<Ranked>)
    requires IsRanking(config, references, states, |states|, ranked)
    ensures Names(ranked) == Alive(states)
    ensures forall i, j :: 0 <= i < j < |ranked| ==> ranked[i].which < ranked[j].which
  {
    assert states[..|states|] == states;
  }

  lemma PassesLevel(config: Config, states: seq<State>, log: Log)
    requires AllTrack(states, log) && |states| == |config.candidates|
    requires MidPass(states, config.baseReplicates * Power(config.eliminationFactor, Eliminations(log)), 0)
    ensures Level(config, log)
  {
    hide Power, Eliminations;
    forall w | w in LiveSet(config, log)
      ensures ReplicatesOf(log, w) == config.baseReplicates * Power(config.eliminationFactor, Eliminations(log))
    {
      assert Tracks(states[w], log, w);
    }
  }

  /** Keeping the first of the sorted ranking keeps the worse share, exactly. */
  lemma RankingKeepsWorse(config: Config, states: seq<State>, log: Log, ranked: seq<Ranked>,
                          sorted: seq<Ranked>, keep: nat)
    requires config.Valid() && AllTrack(states, log) && |states| == |config.candidates|
    requires IsRanking(config, References(log), states, |states|, ranked)
    requires sorted == StableSort(ranked) && keep == Ceil(|ranked|, config.eliminationFactor) <= |sorted|
    ensures KeepsWorse(config, log, Names(sorted[keep..]))
  {
    hide StableSort, References, Ceil, FateIn, Worse, AllTrack, IsRanking, LiveSet, Alive, Names;
    var live, out := LiveSet(config, log), Names(sorted[keep..]);
    RankingNames(config, References(log), states, ranked);
    CutInTwo(ranked, sorted, keep);
    AliveIsLive(config, states, log);
    forall a, b | a in live - out && b in out ensures Worse(config, log, a, b) {
      CutByRank(config, states, log, ranked, sorted, keep, a, b);
    }
  }

  function Counted(state: State): State {
    if state.alive then state.(rounds := state.rounds + 1) else state
  }

  function PutOut(state: State): State {
    state.(alive := false, fate := Eliminated)
  }

  lemma DoublesAtLeast(k: nat, f: nat)
    requires f >= 2
    ensures k * f >= 2 * k
  {
    assert k * (f - 2) >= 0;
  }

  lemma CeilShrinks(m: nat, n: nat, f: nat)
    requires f >= 2 && m <= n && n >= 2
    ensures Ceil(m, f) < n && Ceil(m, f) <= m
  {
    hide Ceil;
    CeilIs(m, f, n - 1);
    DoublesAtLeast(n - 1, f);
    CeilIs(m, f, m);
    DoublesAtLeast(m, f);
  }

  lemma StillTooMany(n: nat, share: nat, live: nat)
    requires share > 0 && 1 < live <= Ceil(n, share)
    ensures share < n
  {
    CeilIs(n, share, 1);
  }

  /** The quotient rounded up, so that no sum can wrap; never more than there are. */
  method KeepCount(n: nat, f: nat) returns (keep: nat)
    requires f >= 2
    ensures keep == Ceil(n, f) <= n
  {
    keep := n / f + if n % f != 0 then 1 else 0;
    CeilIs(n, f, n);
    DoublesAtLeast(n, f);
  }

  lemma NothingRanked(config: Config, references: seq<ReferencePoint>, states: seq<State>)
    ensures IsRanking(config, references, states, 0, [])
  {
    assert Alive(states[..0]) == {};
  }

  lemma CountsOnce(state: State)
    ensures Counted(state) == if state.alive then state.(rounds := state.rounds + 1) else state
  {
  }

  lemma SignsMean(config: Config, references: seq<ReferencePoint>, seen: seq<Observation>)
    ensures SignedMean(config, references, seen) ==
            Times(SignOf(config.direction), Mean(CorrectedOf(config, references, seen)))
  {
  }

  lemma RankingIsWithin(config: Config, references: seq<ReferencePoint>, states: seq<State>, n: nat,
                        ranked: seq<Ranked>)
    requires n <= |states| && IsRanking(config, references, states, n, ranked)
    ensures forall i :: 0 <= i < |ranked| ==> ranked[i].which < n
  {
  }

  lemma SortedIsWithin(sorted: seq<Ranked>, ranked: seq<Ranked>, n: nat)
    requires multiset(sorted) == multiset(ranked) && forall i :: 0 <= i < |ranked| ==> ranked[i].which < n
    ensures forall i :: 0 <= i < |sorted| ==> sorted[i].which < n
  {
    forall i | 0 <= i < |sorted| ensures sorted[i].which < n {
      InBoth(sorted, ranked, sorted[i]);
    }
  }

  lemma KeptCount(config: Config, log: Log, out: set<nat>)
    requires config.eliminationFactor > 0 && KeepsWorse(config, log, out)
    ensures out <= LiveSet(config, log)
    ensures |LiveSet(config, log) - out| == Ceil(|LiveSet(config, log)|, config.eliminationFactor)
  {
  }

  lemma HalvedStates(was: seq<State>, now: seq<State>, out: set<nat>)
    requires |now| == |was| && forall w :: 0 <= w < |was| ==> now[w] == After(was[w], Halve(out), w)
    ensures Alive(now) == Alive(was) - out
  {
  }

  lemma StayLevel(was: seq<State>, now: seq<State>, replicates: nat, out: set<nat>)
    requires |now| == |was| && forall w :: 0 <= w < |was| ==> now[w] == After(was[w], Halve(out), w)
    requires MidPass(was, replicates, 0)
    ensures MidPass(now, replicates, 0)
  {
  }

  lemma NobodyRan(states: seq<State>, log: Log)
    requires AllTrack(states, log) && log == []
    ensures MidPass(states, 0, 0)
  {
    forall u | 0 <= u < |states| ensures states[u].observations == [] {
      assert Tracks(states[u], log, u);
    }
  }

  lemma FirstTarget(base: nat, f: nat)
    ensures base * Power(f, 0) == base
  {
  }

  lemma NextTarget(base: nat, f: nat, r: nat)
    requires f >= 1
    ensures base * Power(f, r + 1) == base * Power(f, r) * f
    ensures base * Power(f, r) <= base * Power(f, r + 1)
  {
    var target := base * Power(f, r);
    assert base * (Power(f, r) * f) == target * f;
    TargetsGrow(base, f, r);
  }

  lemma AllRun(config: Config, states: seq<State>, log: Log)
    requires AllTrack(states, log) && |states| == |config.candidates|
    requires Open(log) && config.referenceReplicates <= |References(log)| && Since(log) == 0
    requires |Alive(states)| <= 1
    requires forall w :: 0 <= w < |states| && states[w].alive ==>
               Chosen(log) && |states[w].observations| == states[w].selection + config.finalReplicates
    ensures Completed(config, log)
  {
    ReferencesAreLogged(log);
    AliveIsLive(config, states, log);
    forall w | w in LiveSet(config, log)
      ensures Chosen(log) && ReplicatesOf(log, w) == SelectionCount(log, w) + config.finalReplicates
    {
      assert Tracks(states[w], log, w);
    }
  }

  // ---- Reports --------------------------------------------------------------------------

  /** The survivor is judged by the replicates that did not choose it, everyone else by all. */
  function Judged(state: State): seq<Observation>
    requires state.selection <= |state.observations|
  {
    if state.alive then state.observations[state.selection..] else state.observations
  }

  predicate Reportable(config: Config, references: seq<ReferencePoint>, state: State) {
    && state.selection <= |state.observations|
    && (state.observations != [] ==> 0 < config.referenceReplicates <= |references|)
  }

  function Account(config: Config, references: seq<ReferencePoint>, id: string, state: State,
                   early: bool): CandidateReport
    requires Reportable(config, references, state)
  {
    var seen := Judged(state);
    CandidateReport(
      id, if state.alive && early then StoppedWithSearch else state.fate, state.rounds,
      CorrectedOf(config, references, state.observations), NotesOf(state.observations),
      if state.alive then state.selection else 0,
      EstimateOf(Raws(seen), NO_CORRECTION),
      EstimateOf(CorrectedOf(config, references, seen), CorrectionFor(config, references, seen)))
  }

  lemma AllReportable(config: Config, log: Log, states: seq<State>, w: nat)
    requires config.Valid() && Lawful(config, log) && AllTrack(states, log) && w < |states|
    ensures Reportable(config, References(log), states[w])
  {
    hide Lawful;
    assert Tracks(states[w], log, w);
    SelectionIsWithin(log, w);
    if states[w].observations != [] {
      ObservedMeansAnchored(config, log, w);
    }
  }

  method EstimateSamples(samples: seq<real>, correction: Correction) returns (e: Estimated)
    requires Fair(correction)
    ensures e == EstimateOf(samples, correction)
  {
    hide Times, Critical, CombinedDegrees;
    var mean, variance := Moments(samples);
    if |samples| >= 2 {
      e := Estimated(|samples|, mean, Some(variance), Some(SquaredHalfWidth(variance, |samples|, correction)));
    } else {
      e := Estimated(|samples|, mean, None, None);
    }
  }

  /** The raw scores from a place on, every note, and the corrected errors among them. */
  method Tally(seen: seq<Observation>, from: nat) returns (raw: seq<real>, notes: seq<TrialNote>, errors: nat)
    requires from <= |seen|
    ensures raw == Raws(seen[from..]) && notes == NotesOf(seen) && errors == Errors(notes)
  {
    hide Errors;
    raw, notes, errors := [], [], 0;
    NoNotes();
    for i := 0 to |seen|
      invariant |notes| == i && forall k :: 0 <= k < i ==> notes[k] == seen[k].note
      invariant |raw| == (if i < from then 0 else i - from)
                && forall k :: 0 <= k < |raw| ==> raw[k] == seen[from + k].raw
      invariant errors == Errors(notes)
    {
      if i >= from {
        raw := raw + [seen[i].raw];
      }
      ErrorsGrow(notes, seen[i].note);
      notes := notes + [seen[i].note];
      errors := errors + if seen[i].note.correctedErrors then 1 else 0;
    }
  }

  lemma NoNotes()
    ensures Errors([]) == 0
  {
  }

  lemma OneMoreCandidate(states: seq<State>, log: Log, which: nat)
    requires AllTrack(states, log) && which < |states|
    ensures ErrorsAmong(log, which + 1) == ErrorsAmong(log, which) + Errors(NotesOf(states[which].observations))
  {
    assert Tracks(states[which], log, which);
  }

  lemma NobodyYet(log: Log)
    ensures ErrorsAmong(log, 0) == 0
  {
  }

  /** The report is what the log says: every candidate, every reading, every corrected error. */
  ghost predicate IsAccountOf(config: Config, log: Log, states: seq<State>, early: bool, report: SearchReport) {
    var references := References(log);
    && report.references == references && report.referenceNotes == ReferenceNotes(log)
    && report.anchor == AnchorOf(config, references)
    && report.drift == (if 0 < config.referenceReplicates <= |references|
                        then references[|references| - 1].value - report.anchor else 0.0)
    && report.reference == EstimateOf(Values(references), NO_CORRECTION)
    && report.trials == TrialsIn(log)
    && report.correctedErrorTrials == ErrorsIn(log)
    && report.rounds == Eliminations(log)
    && |report.candidates| == |states| == |config.candidates|
    && forall w :: 0 <= w < |states| ==>
         && Reportable(config, references, states[w])
         && report.candidates[w] == Account(config, references, config.candidates[w].id, states[w], early)
  }

  /** The claim is about the one survivor, from the replicates that did not choose it, and set against its rivals. */
  ghost predicate IsClaimOf(config: Config, log: Log, which: nat, report: SearchReport)
    requires which < |config.candidates| && |report.candidates| == |config.candidates|
    requires SelectionCount(log, which) <= |Observations(log, which)|
    requires Observations(log, which) != [] ==> 0 < config.referenceReplicates <= |References(log)|
  {
    var seen := Observations(log, which)[SelectionCount(log, which)..];
    && report.worstCase == WorstCaseOf(config.candidates[which].id, CorrectedOf(config, References(log), seen),
                                       CorrectionFor(config, References(log), seen))
    && |seen| == config.finalReplicates
    && (exists rival :: StandsAgainst(config, report, which, rival))
    && report.uncompared == Uncompared(report.candidates)
  }

  lemma ClaimIsMade(config: Config, log: Log, states: seq<State>, which: nat, report: SearchReport, rival: Option<nat>)
    requires config.Valid() && AllTrack(states, log) && |states| == |config.candidates| == |report.candidates|
    requires Completed(config, log) && which in LiveSet(config, log)
    requires Reportable(config, References(log), states[which])
    requires var seen := Judged(states[which]);
             report.worstCase == WorstCaseOf(config.candidates[which].id, CorrectedOf(config, References(log), seen),
                                             CorrectionFor(config, References(log), seen))
    requires StandsAgainst(config, report, which, rival)
    requires report.uncompared == Uncompared(report.candidates)
    ensures report.worstCase.Some?
    ensures forall w :: w in LiveSet(config, log) ==> w == which
    ensures Tracks(states[which], log, which) && IsClaimOf(config, log, which, report)
  {
    hide StandsAgainst, Uncompared, CorrectionFor, CorrectedOf, References, FateIn, Observations, SelectionCount,
         Since, Chosen;
    OnlyOne(LiveSet(config, log), which);
    assert Tracks(states[which], log, which);
  }

  lemma ReferenceEvent(measured: Measured)
    ensures EventOf(None, measured) ==
            if Unscored(measured.verdict) then Bad(measured.verdict)
            else Read(ReferencePoint(measured.atNs, measured.value), measured.note)
  {
  }

  /** A reference may be read while the anchor is taken, and after any scored trial. */
  lemma MayRead(config: Config, log: Log, e: Event)
    requires config.Valid() && Open(log) && (|log| < config.referenceReplicates || Since(log) > 0)
    requires e.Read? || (e.Bad? && Unscored(e.verdict)) || e.Abandon?
    ensures Admits(config, log, e)
    ensures Open(log + [e]) == e.Read? && Ends(e) == !e.Read?
  {
  }

  class Execution {
    const config: Config
    const listens: bool
    var states: seq<State>
    var references: seq<ReferencePoint>
    var referenceNotes: seq<TrialNote>
    var anchor: real
    var anchored: bool
    var referenceStop: Option<Verdict>
    var stopped: Option<int>
    var pass: nat
    var sinceReference: nat
    var trials: nat
    var settleTrials: nat
    var unsettledTrials: nat
    var rounds: nat
    ghost var log: Log
    /** Every trial that ran to an outcome: whether it asked for a settle phase, and whether it settled. */
    ghost var finished: seq<Settle>

    ghost predicate Consistent()
      reads this
    {
      && config.Valid()
      && Lawful(config, log)
      && |states| == |config.candidates| && AllTrack(states, log)
      && references == References(log) && referenceNotes == ReferenceNotes(log)
      && sinceReference == Since(log)
      && trials == TrialsIn(log)
      && Tallied(settleTrials, unsettledTrials, finished)
    }

    ghost predicate Valid()
      reads this
    {
      && Consistent()
      && anchored == (config.referenceReplicates <= |references|)
      && anchor == AnchorOf(config, references)
    }

    ghost predicate Running()
      reads this
    {
      Open(log) && referenceStop.None? && stopped.None?
    }

    constructor (config: Config, listens: bool)
      requires config.Valid()
      ensures Valid() && Running() && this.config == config && this.listens == listens
      ensures log == [] && pass == 0 && rounds == 0
    {
      this.config, this.listens := config, listens;
      states := seq(|config.candidates|, _ => State(true, Survivor, 0, [], 0));
      references, referenceNotes := [], [];
      anchor, anchored := 0.0, false;
      referenceStop, stopped := None, None;
      pass, sinceReference, trials, rounds := 0, 0, 0, 0;
      settleTrials, unsettledTrials := 0, 0;
      log, finished := [], [];
    }

    method AskedToStop() returns (asked: bool)
      modifies `stopped
      ensures asked == stopped.Some?
      ensures !listens ==> stopped == old(stopped)
    {
      if listens {
        stopped := *;
      }
      return stopped.Some?;
    }

    /** The runner may answer anything. */
    method RunTrial() returns (outcome: Outcome) {
      outcome := *;
    }

    method CountSettle(asked: bool, settled: bool)
      requires Tallied(settleTrials, unsettledTrials, finished)
      modifies `settleTrials, `unsettledTrials, `finished
      ensures Tallied(settleTrials, unsettledTrials, finished)
      ensures finished == old(finished) + [Settle(asked, settled)]
    {
      SettleCounts(finished, Settle(asked, settled));
      settleTrials := settleTrials + if asked then 1 else 0;
      unsettledTrials := unsettledTrials + if asked && !settled then 1 else 0;
      finished := finished + [Settle(asked, settled)];
    }

    /** One trial: refused by a signal, failed, or measured; the log says which. */
    method Measure(candidate: Candidate, ghost who: Option<nat>)
      returns (r: Result<Measured, Fault>, ghost outcome: Outcome)
      requires stopped.None? && Tallied(settleTrials, unsettledTrials, finished)
      modifies `stopped, `trials, `log, `settleTrials, `unsettledTrials, `finished
      ensures Tallied(settleTrials, unsettledTrials, finished)
      ensures finished == old(finished) + if outcome.Trial? then [Settle(candidate.settles, outcome.settled)] else []
      ensures r.Err? ==> (log == old(log) && stopped.Some? && r.error.TrialFault?) || log == old(log) + [Abandon]
      ensures r.Err? && log != old(log) ==>
                if outcome.Failure? then r.error.TrialFault?
                else r.error.NoReading? && !Unscored(outcome.verdict) && outcome.score.None? && stopped.None?
      ensures r.Ok? ==> stopped.None? && log == old(log) + [EventOf(who, r.value)]
      ensures r.Ok? ==> Measures(candidate, outcome, r.value)
      ensures trials == old(trials) + |log| - |old(log)|
    {
      hide Tallied, EventOf;
      outcome := Failure;
      var asked := AskedToStop();
      if asked {
        return Err(TrialFault), outcome;
      }
      var answer := RunTrial();
      outcome := answer;
      trials := trials + 1;
      if answer.Failure? {
        log := log + [Abandon];
        asked := AskedToStop();
        return Err(TrialFault), outcome;
      }
      CountSettle(candidate.settles, answer.settled);
      var note := TrialNote(answer.verdict.CorrectedErrors?, candidate.settles && !answer.settled);
      var measured := Measured(answer.verdict, note, answer.startNs + Halved(answer.endNs - answer.startNs), 0.0);
      if !Unscored(answer.verdict) {
        if answer.score.None? {
          log := log + [Abandon];
          return Err(NoReading), outcome;
        }
        measured := measured.(value := answer.score.value);
      }
      log := log + [EventOf(who, measured)];
      return Ok(measured), outcome;
    }

    /** A reference trial; one that is not scored ends the search. */
    method ReferenceTrial() returns (r: Result<(), Fault>, ghost e: Event)
      requires Consistent() && Running()
      requires |log| < config.referenceReplicates || Since(log) > 0
      modifies `stopped, `trials, `log, `references, `referenceNotes, `referenceStop, `sinceReference
      modifies `settleTrials, `unsettledTrials, `finished
      ensures Consistent()
      ensures r.Ok? ==> Running() && log == old(log) + [e] && e.Read?
      ensures r.Err? ==> (log == old(log) && stopped.Some?) || (log == old(log) + [e] && Ends(e))
      ensures r.Err? ==> (r.error.ReferenceFault? <==> referenceStop.Some?)
    {
      hide Lawful, AllTrack, References, ReferenceNotes, Since, TrialsIn, Admits, Ends, Tallied, Measures, EventOf,
           Open, Unscored, Eliminations, Chosen, Config.Valid;
      ghost var outcome;
      var measured;
      measured, outcome := Measure(config.reference, None);
      if measured.Err? {
        e := Abandon;
        MayRead(config, old(log), e);
        QuietlyGrows(config, states, old(log), e);
        return Err(measured.error), e;
      }
      e := EventOf(None, measured.value);
      ReferenceEvent(measured.value);
      MayRead(config, old(log), e);
      QuietlyGrows(config, states, old(log), e);
      if Unscored(measured.value.verdict) {
        referenceStop := Some(measured.value.verdict);
        return Err(ReferenceFault), e;
      }
      references := references + [ReferencePoint(measured.value.atNs, measured.value.value)];
      referenceNotes := referenceNotes + [measured.value.note];
      sinceReference := 0;
      return Ok(()), e;
    }

    /** The reference's first readings; their mean is the anchor. */
    method TakeAnchor() returns (r: Result<(), Fault>)
      requires Valid() && Running() && log == []
      modifies this
      ensures r.Ok? ==> Valid() && Running() && anchored && Since(log) == 0 && AllTrack(states, log)
      ensures states == old(states) && pass == old(pass) && rounds == old(rounds)
      ensures Eliminations(log) == 0 && !Chosen(log)
      ensures r.Err? ==> Valid() && !anchored && !Completed(config, log)
      ensures r.Err? ==> (r.error.ReferenceFault? <==> referenceStop.Some?)
      ensures r.Err? ==> stopped.Some? || (log != [] && Ends(log[|log| - 1]))
    {
      hide Lawful, AllTrack, Tallied, TrialsIn, Admits, Since, Eliminations, Chosen, References, AnchorOf;
      NothingLogged();
      NoAnchorYet(config, references);
      var i := 0;
      while i < config.referenceReplicates
        invariant Consistent() && Running()
        invariant 0 <= i <= config.referenceReplicates
        invariant |log| == |references| == i
        invariant states == old(states) && pass == old(pass) && rounds == old(rounds)
        invariant !anchored && anchor == 0.0
        invariant Since(log) == 0 && Eliminations(log) == 0 && !Chosen(log)
      {
        ghost var was := log;
        ghost var e;
        r, e := ReferenceTrial();
        Grown(was, e);
        if r.Err? {
          NoAnchorYet(config, references);
          return;
        }
        i := i + 1;
      }
      var values := ReferenceValues();
      var spread;
      anchor, spread := Moments(values);
      anchored := true;
      AnchorIsMean(config, references);
      return Ok(());
    }

    method ReferenceValues() returns (values: seq<real>)
      ensures values == Values(references)
    {
      values := [];
      for i := 0 to |references|
        invariant values == Values(references)[..i]
      {
        values := values + [references[i].value];
      }
    }

    /** A reference reading after the last scored trial, if there is none yet. */
    method CloseReference() returns (r: Result<(), Fault>)
      requires Valid() && Running() && anchored
      modifies this
      ensures Valid() && anchored
      ensures states == old(states) && pass == old(pass) && rounds == old(rounds)
      ensures Eliminations(log) == old(Eliminations(log)) && Chosen(log) == old(Chosen(log))
      ensures r.Ok? ==> Running() && Since(log) == 0
      ensures r.Err? ==> !Completed(config, log)
      ensures r.Err? ==> (r.error.ReferenceFault? <==> referenceStop.Some?)
      ensures r.Err? ==> stopped.Some? || (log != [] && Ends(log[|log| - 1]))
    {
      hide Lawful, AllTrack, Tallied, Since, TrialsIn, Admits, AnchorOf, LiveSet;
      if sinceReference == 0 {
        return Ok(());
      }
      ghost var was, before := log, references;
      ghost var e;
      r, e := ReferenceTrial();
      Grown(was, e);
      assert references == before || references == before + [e.point];
      if e.Read? {
        AnchorStays(config, before, e.point);
      }
    }

    /** One trial of a candidate; a finding or an unfinished trial puts it out of the search. */
    method CandidateTrial(which: nat) returns (r: Result<(), Fault>)
      requires Valid() && Running() && anchored
      requires which < |states| && MayRun(config, log, which)
      modifies this
      ensures Valid() && anchored && pass == old(pass) && rounds == old(rounds)
      ensures Eliminations(log) == old(Eliminations(log)) && Chosen(log) == old(Chosen(log))
      ensures r.Ok? ==> Running() && Since(log) < config.interleaveEvery
      ensures r.Ok? ==> states == old(states)[which := states[which]] && RunOnce(old(states[which]), states[which])
      ensures r.Err? ==> !Completed(config, log)
      ensures r.Err? ==> (r.error.ReferenceFault? <==> referenceStop.Some?)
      ensures r.Err? ==> stopped.Some? || (log != [] && Ends(log[|log| - 1]))
    {
      hide Lawful, AllTrack, Tallied, Since, TrialsIn, AnchorOf, LiveSet, References, ReferenceNotes, MayHalve,
           MayRun, Turn,
           Eliminations, Chosen, RunOnce, Tallied, Measures;
      StillToRun(config, log, which);
      RoomToRun(config, states, log, which);
      ghost var was := log;
      ghost var outcome;
      var measured;
      measured, outcome := Measure(config.candidates[which], Some(which));
      if measured.Err? {
        QuietlyGrows(config, states, was, Abandon);
        return Err(measured.error);
      }
      ghost var e := EventOf(Some(which), measured.value);
      LogGrows(config, states, states[which := After(states[which], e, which)], was, e);
      RunsOnce(states[which], e, which);
      if Unscored(measured.value.verdict) {
        var fate := if measured.value.verdict.Findings? then HadFindings else Unfinished;
        states := states[which := states[which].(alive := false, fate := fate)];
        return Ok(());
      }
      var seen := Observation(measured.value.atNs, measured.value.value, measured.value.note);
      states := states[which := states[which].(observations := states[which].observations + [seen])];
      sinceReference := sinceReference + 1;
      if sinceReference >= config.interleaveEvery {
        r := CloseReference();
        return;
      }
      return Ok(());
    }

    /** Every survivor once per pass, in the order configured, until each has the target's replicates. */
    method Passes(target: nat) returns (r: Result<(), Fault>)
      requires Valid() && Running() && anchored && !Chosen(log) && Since(log) < config.interleaveEvery
      requires target == config.baseReplicates * Power(config.eliminationFactor, Eliminations(log))
      requires pass <= target && MidPass(states, pass, 0)
      modifies this
      ensures Valid() && anchored && rounds == old(rounds)
      ensures Eliminations(log) == old(Eliminations(log)) && !Chosen(log)
      ensures r.Ok? ==> Running() && Since(log) < config.interleaveEvery
      ensures r.Ok? ==> pass == target && MidPass(states, pass, 0) && Alive(states) <= Alive(old(states))
      ensures r.Err? ==> !Completed(config, log)
      ensures r.Err? ==> (r.error.ReferenceFault? <==> referenceStop.Some?)
      ensures r.Err? ==> stopped.Some? || (log != [] && Ends(log[|log| - 1]))
    {
      hide Lawful, AllTrack, Tallied, Since, TrialsIn, AnchorOf, LiveSet, References, ReferenceNotes, Completed,
           Eliminations, Chosen, MidPass, Power;
      while pass < target
        invariant Valid() && Running() && anchored && rounds == old(rounds)
        invariant Since(log) < config.interleaveEvery
        invariant Eliminations(log) == old(Eliminations(log)) && !Chosen(log)
        invariant pass <= target && MidPass(states, pass, 0) && Alive(states) <= Alive(old(states))
        decreases target - pass
      {
        r := OnePass(target);
        if r.Err? {
          return;
        }
        pass := pass + 1;
      }
      return Ok(());
    }

    method OnePass(ghost target: nat) returns (r: Result<(), Fault>)
      requires Valid() && Running() && anchored && !Chosen(log) && Since(log) < config.interleaveEvery
      requires target == config.baseReplicates * Power(config.eliminationFactor, Eliminations(log))
      requires pass < target && MidPass(states, pass, 0)
      modifies this
      ensures Valid() && anchored && rounds == old(rounds) && pass == old(pass)
      ensures Eliminations(log) == old(Eliminations(log)) && !Chosen(log)
      ensures r.Ok? ==> Running() && Since(log) < config.interleaveEvery
      ensures r.Ok? ==> MidPass(states, pass + 1, 0) && Alive(states) <= Alive(old(states))
      ensures r.Err? ==> !Completed(config, log)
      ensures r.Err? ==> (r.error.ReferenceFault? <==> referenceStop.Some?)
      ensures r.Err? ==> stopped.Some? || (log != [] && Ends(log[|log| - 1]))
    {
      hide Lawful, AllTrack, Tallied, Since, TrialsIn, AnchorOf, LiveSet, References, ReferenceNotes, Completed, MayRun,
           Eliminations, Chosen, MidPass, Power, RunOnce;
      var which := 0;
      while which < |states|
        invariant Valid() && Running() && anchored && rounds == old(rounds) && pass == old(pass)
        invariant Since(log) < config.interleaveEvery
        invariant Eliminations(log) == old(Eliminations(log)) && !Chosen(log)
        invariant 0 <= which <= |states| && MidPass(states, pass, which) && Alive(states) <= Alive(old(states))
        decreases |config.candidates| - which
      {
        ghost var was := states;
        if states[which].alive {
          ReferencesAreLogged(log);
          TurnToRun(config, states, log, pass, which);
          r := CandidateTrial(which);
          if r.Err? {
            return;
          }
        }
        PassGoesOn(was, states, pass, which);
        which := which + 1;
      }
      PassIsDone(states, pass);
      return Ok(());
    }

    /** The survivor is run again, and only these runs will speak for it. */
    method FreshReplicates() returns (r: Result<(), Fault>)
      requires Valid() && Running() && anchored && !Chosen(log) && Since(log) == 0
      requires |Alive(states)| <= 1
      modifies this
      ensures Valid() && anchored && rounds == old(rounds)
      ensures Eliminations(log) == old(Eliminations(log))
      ensures r.Ok? ==> Running() && |Alive(states)| <= 1
      ensures r.Ok? ==> forall w :: 0 <= w < |states| && states[w].alive ==>
                Chosen(log) && |states[w].observations| == states[w].selection + config.finalReplicates
      ensures r.Err? ==> !Completed(config, log)
      ensures r.Err? ==> (r.error.ReferenceFault? <==> referenceStop.Some?)
      ensures r.Err? ==> stopped.Some? || (log != [] && Ends(log[|log| - 1]))
    {
      hide Lawful, AllTrack, Tallied, Since, TrialsIn, AnchorOf, LiveSet, References, ReferenceNotes, Completed, MayRun,
           Eliminations, Chosen, RunOnce;
      var which := FirstAlive();
      if which == |states| {
        return Ok(());
      }
      Choice(which);
      var taken := 0;
      while taken < config.finalReplicates && states[which].alive
        invariant Valid() && Running() && anchored && rounds == old(rounds)
        invariant Since(log) < config.interleaveEvery
        invariant Eliminations(log) == old(Eliminations(log)) && Chosen(log)
        invariant |states| == |config.candidates| && which < |states|
        invariant forall w :: 0 <= w < |states| && states[w].alive ==> w == which
        invariant 0 <= taken <= config.finalReplicates
        invariant states[which].alive ==> |states[which].observations| == states[which].selection + taken
        decreases config.finalReplicates - taken
      {
        ReferencesAreLogged(log);
        FreshToRun(config, states, log, which, taken);
        ghost var was := states;
        r := CandidateTrial(which);
        if r.Err? {
          return;
        }
        RanFresh(was[which], states[which]);
        taken := taken + 1;
      }
      AtMostOne(states, which);
      return Ok(());
    }

    method FirstAlive() returns (which: nat)
      ensures which <= |states|
      ensures which < |states| ==> states[which].alive
      ensures forall w :: 0 <= w < which ==> !states[w].alive
    {
      which := 0;
      while which < |states| && !states[which].alive
        invariant which <= |states| && forall w :: 0 <= w < which ==> !states[w].alive
      {
        which := which + 1;
      }
    }

    /** The one survivor, with the replicates that chose it counted. */
    method Choice(which: nat)
      requires Valid() && Running() && anchored && !Chosen(log) && Since(log) == 0
      requires |Alive(states)| <= 1 && which < |states| && states[which].alive
      modifies `states, `log
      ensures Valid() && Running() && Chosen(log) && Since(log) == 0 && Eliminations(log) == old(Eliminations(log))
      ensures forall w :: 0 <= w < |states| && states[w].alive ==> w == which
      ensures states[which].alive && states[which].selection == |states[which].observations|
    {
      hide Lawful, AllTrack, Tallied, Since, TrialsIn, AnchorOf, References, ReferenceNotes, MayRun, MayHalve,
           Eliminations, Chosen;
      ReferencesAreLogged(log);
      AliveIsLive(config, states, log);
      OnlyOne(Alive(states), which);
      ghost var e := Choose(which);
      ghost var next := states[which := After(states[which], e, which)];
      LogGrows(config, states, next, log, e);
      states := states[which := states[which].(selection := |states[which].observations|)];
      log := log + [e];
      assert forall w: nat :: w < |states| && states[w].alive ==> w in Alive(old(states));
    }

    /** The observations from a place on, drift-corrected. */
    method CorrectedSamples(seen: seq<Observation>) returns (samples: seq<real>)
      requires anchor == AnchorOf(config, references)
      ensures samples == CorrectedOf(config, references, seen)
    {
      hide AnchorOf, BaselineAt;
      samples := [];
      for i := 0 to |seen|
        invariant samples == CorrectedOf(config, references, seen)[..i]
      {
        var baseline := FindBaseline(references, seen[i].atNs);
        samples := samples + [Corrected(seen[i].raw, baseline, anchor)];
      }
    }

    /** Every live candidate is counted in the round and given its signed mean. */
    method RankLive() returns (ranked: seq<Ranked>)
      requires anchor == AnchorOf(config, references)
      modifies `states
      ensures |states| == |old(states)|
      ensures forall w :: 0 <= w < |states| ==> states[w] == Counted(old(states[w]))
      ensures IsRanking(config, references, old(states), |states|, ranked)
    {
      hide AnchorOf, SignedMean, IsRanking, Counted;
      ranked := [];
      NothingRanked(config, references, states);
      var direction := SignOf(config.direction);
      var which := 0;
      while which < |states|
        invariant 0 <= which <= |states| == |old(states)|
        invariant forall w :: 0 <= w < |states| ==>
          states[w] == if w < which then Counted(old(states[w])) else old(states[w])
        invariant IsRanking(config, references, old(states), which, ranked)
      {
        RankingGrows(config, references, old(states), which, ranked);
        CountsOnce(states[which]);
        if states[which].alive {
          states := states[which := states[which].(rounds := states[which].rounds + 1)];
          var samples := CorrectedSamples(states[which].observations);
          var mean, variance := Moments(samples);
          SignsMean(config, references, states[which].observations);
          ranked := ranked + [Ranked(Times(direction, mean), which)];
        }
        which := which + 1;
      }
    }

    /** Everyone ranked from a place on leaves. */
    method PutOutFrom(ranked: seq<Ranked>, keep: nat)
      requires keep <= |ranked| && forall i :: 0 <= i < |ranked| ==> ranked[i].which < |states|
      modifies `states
      ensures |states| == |old(states)|
      ensures forall w :: 0 <= w < |states| ==>
                states[w] == if w in Names(ranked[keep..]) then PutOut(old(states[w])) else old(states[w])
    {
      for rank := keep to |ranked|
        invariant |states| == |old(states)|
        invariant forall w :: 0 <= w < |states| ==>
          states[w] == if w in Names(ranked[keep..rank]) then PutOut(old(states[w])) else old(states[w])
      {
        var which := ranked[rank].which;
        assert ranked[keep..rank + 1] == ranked[keep..rank] + [ranked[rank]];
        assert Names(ranked[keep..rank + 1]) == Names(ranked[keep..rank]) + {which};
        states := states[which := states[which].(alive := false, fate := Eliminated)];
      }
    }

    /** The candidates are ranked and all but the worse share are put out. */
    method KeepWorse() returns (ghost out: set<nat>)
      requires Valid()
      modifies `states
      ensures KeepsWorse(config, log, out) && |states| == |old(states)|
      ensures forall w :: 0 <= w < |states| ==> states[w] == After(old(states[w]), Halve(out), w)
    {
      hide Lawful, AllTrack, Tallied, Since, TrialsIn, AnchorOf, References, ReferenceNotes, StableSort, IsRanking,
           KeepsWorse,
           Ceil;
      ghost var was := states;
      var ranked := RankLive();
      RankingIsWithin(config, references, was, |was|, ranked);
      var sorted := StableSort(ranked);
      var keep := KeepCount(|sorted|, config.eliminationFactor);
      SortedIsWithin(sorted, ranked, |was|);
      out := Names(sorted[keep..]);
      RankingKeepsWorse(config, was, log, ranked, sorted, keep);
      PutOutFrom(sorted, keep);
    }

    /** The worse share, rounded up, is kept; a tie keeps the earlier candidate. */
    method Eliminate()
      requires Valid() && Running() && anchored && !Chosen(log) && Since(log) == 0
      requires MidPass(states, config.baseReplicates * Power(config.eliminationFactor, Eliminations(log)), 0)
      modifies `states, `log
      ensures Valid() && Running() && Since(log) == 0 && !Chosen(log)
      ensures Eliminations(log) == old(Eliminations(log)) + 1
      ensures |Alive(states)| == Ceil(|Alive(old(states))|, config.eliminationFactor)
      ensures MidPass(states, config.baseReplicates * Power(config.eliminationFactor, old(Eliminations(log))), 0)
    {
      hide Lawful, AllTrack, Tallied, Since, TrialsIn, AnchorOf, References, ReferenceNotes, Chosen, Eliminations,
           Power,
           MidPass, LiveSet, Level, KeepsWorse, MayRun, After, Ceil, Alive;
      ghost var was := states;
      ReferencesAreLogged(log);
      ghost var out := KeepWorse();
      PassesLevel(config, was, log);
      AliveIsLive(config, was, log);
      KeptCount(config, log, out);
      LogGrows(config, was, states, log, Halve(out));
      HalvedStates(was, states, out);
      StayLevel(was, states, config.baseReplicates * Power(config.eliminationFactor, Eliminations(log)), out);
      log := log + [Halve(out)];
    }

    method AliveCount() returns (count: nat)
      ensures count == |Alive(states)|
    {
      count := 0;
      for i := 0 to |states|
        invariant count == |Alive(states[..i])|
      {
        assert states[..i + 1] == states[..i] + [states[i]];
        if states[i].alive {
          assert Alive(states[..i + 1]) == Alive(states[..i]) + {i};
          count := count + 1;
        } else {
          assert Alive(states[..i + 1]) == Alive(states[..i]);
        }
      }
      assert states[..|states|] == states;
    }

    /** One round: passes to the target, the closing reference, the elimination. */
    method Round(target: nat) returns (r: Result<(), Fault>)
      requires Valid() && Running() && anchored && !Chosen(log) && Since(log) == 0
      requires target == config.baseReplicates * Power(config.eliminationFactor, Eliminations(log))
      requires pass <= target && MidPass(states, pass, 0) && |Alive(states)| > 1 && rounds == Eliminations(log)
      modifies this
      ensures Valid() && anchored && rounds == Eliminations(log) && !Chosen(log)
      ensures old(rounds) <= rounds <= old(rounds) + 1
      ensures r.Ok? ==> Running() && Since(log) == 0 && rounds == old(rounds) + 1
      ensures r.Ok? ==> pass == target && MidPass(states, pass, 0) && |Alive(states)| < |Alive(old(states))|
      ensures r.Err? ==> !Completed(config, log)
      ensures r.Err? ==> (r.error.ReferenceFault? <==> referenceStop.Some?)
      ensures r.Err? ==> stopped.Some? || (log != [] && Ends(log[|log| - 1]))
    {
      hide Lawful, AllTrack, Tallied, Since, TrialsIn, AnchorOf, References, ReferenceNotes, Chosen, Eliminations,
           Power,
           MidPass, LiveSet, Ceil, Completed;
      r := Passes(target);
      if r.Err? {
        return;
      }
      r := CloseReference();
      if r.Err? {
        return;
      }
      Subset(Alive(states), Alive(old(states)));
      CeilShrinks(|Alive(states)|, |Alive(old(states))|, config.eliminationFactor);
      Eliminate();
      rounds := rounds + 1;
    }

    /** No more rounds than it takes factor^rounds to reach the number of candidates. */
    ghost predicate RoundsAreFew()
      reads this
    {
      && rounds == Eliminations(log)
      && (rounds == 0 || Power(config.eliminationFactor, rounds - 1) < |config.candidates|)
    }

    /** The whole search: it succeeds exactly when everything there was to run has been run. */
    method Execute() returns (r: Result<(), Fault>)
      requires Valid() && Running() && log == [] && pass == 0 && rounds == 0
      modifies this
      ensures Valid() && RoundsAreFew()
      ensures r.Ok? <==> Completed(config, log)
      ensures r.Ok? ==> Running() && anchored
      ensures r.Err? ==> (r.error.ReferenceFault? <==> referenceStop.Some?)
      ensures r.Err? ==> stopped.Some? || (log != [] && Ends(log[|log| - 1]))
    {
      hide Lawful, AllTrack, Tallied, Since, TrialsIn, AnchorOf, References, ReferenceNotes, Chosen, Eliminations,
           Power,
           MidPass, LiveSet, Ceil, Completed;
      NobodyRan(states, log);
      r := TakeAnchor();
      if r.Err? {
        return;
      }
      FirstTarget(config.baseReplicates, config.eliminationFactor);
      var target := config.baseReplicates;
      var live := AliveCount();
      while live > 1
        invariant Valid() && Running() && anchored && !Chosen(log) && Since(log) == 0
        invariant live == |Alive(states)| && RoundsAreFew()
        invariant target == config.baseReplicates * Power(config.eliminationFactor, rounds)
        invariant pass <= target && MidPass(states, pass, 0)
        decreases live
      {
        FieldIsBounded(config, log);
        AliveIsLive(config, states, log);
        StillTooMany(|config.candidates|, Power(config.eliminationFactor, rounds), live);
        NextTarget(config.baseReplicates, config.eliminationFactor, rounds);
        r := Round(target);
        if r.Err? {
          return;
        }
        target := target * config.eliminationFactor;
        live := AliveCount();
      }
      r := FreshReplicates();
      if r.Err? {
        return;
      }
      r := CloseReference();
      if r.Ok? {
        AllRun(config, states, log);
      }
    }

    /** One candidate's account, and how many of its trials had corrected errors. */
    method AccountFor(which: nat, early: bool) returns (entry: CandidateReport, errors: nat)
      requires which < |states| == |config.candidates| && anchor == AnchorOf(config, references)
      requires Reportable(config, references, states[which])
      ensures entry == Account(config, references, config.candidates[which].id, states[which], early)
      ensures errors == Errors(NotesOf(states[which].observations))
    {
      hide CorrectedOf, CorrectionFor, EstimateOf, AnchorOf, Errors, Raws, NotesOf;
      var state := states[which];
      var samples := CorrectedSamples(state.observations);
      var from := if state.alive then state.selection else 0;
      var raw, notes;
      raw, notes, errors := Tally(state.observations, from);
      var rawEstimate := EstimateSamples(raw, NO_CORRECTION);
      var seen := state.observations[from..];
      assert seen == Judged(state);
      var correctedSamples := CorrectedSamples(seen);
      var correction := FindCorrection(config, references, seen);
      var corrected := EstimateSamples(correctedSamples, correction);
      entry := CandidateReport(
        config.candidates[which].id, if state.alive && early then StoppedWithSearch else state.fate, state.rounds,
        samples, notes, from, rawEstimate, corrected);
    }

    /** Every candidate's account in the order configured, the winner, and the corrected errors of all. */
    method AccountForAll(early: bool) returns (entries: seq<CandidateReport>, winner: Option<nat>, errors: nat)
      requires Valid()
      ensures forall w :: 0 <= w < |states| ==> Reportable(config, references, states[w])
      ensures |entries| == |states|
      ensures forall w :: 0 <= w < |states| ==>
                entries[w] == Account(config, references, config.candidates[w].id, states[w], early)
      ensures winner.Some? <==> !early && Alive(states) != {}
      ensures winner.Some? ==> winner.value in Alive(states)
      ensures errors == ErrorsAmong(log, |states|)
    {
      hide Lawful, Account, AnchorOf, References, ReferenceNotes, Since, TrialsIn, AllTrack, ErrorsAmong, Errors,
           Reportable;
      entries, winner, errors := [], None, 0;
      NobodyYet(log);
      forall w | 0 <= w < |states| ensures Reportable(config, references, states[w]) {
        AllReportable(config, log, states, w);
      }
      for which := 0 to |states|
        invariant |entries| == which
        invariant forall w :: 0 <= w < which ==>
          entries[w] == Account(config, references, config.candidates[w].id, states[w], early)
        invariant winner.Some? ==> winner.value in Alive(states) && !early
        invariant winner.None? ==> early || forall w :: 0 <= w < which ==> !states[w].alive
        invariant errors == ErrorsAmong(log, which)
      {
        var entry, more := AccountFor(which, early);
        OneMoreCandidate(states, log, which);
        if states[which].alive && !early {
          winner := Some(which);
        }
        entries := entries + [entry];
        errors := errors + more;
      }
    }

    method CountErrors() returns (errors: nat)
      ensures errors == Errors(referenceNotes)
    {
      errors := 0;
      for i := 0 to |referenceNotes|
        invariant errors == Errors(referenceNotes[..i])
      {
        assert referenceNotes[..i + 1][..i] == referenceNotes[..i];
        errors := errors + if referenceNotes[i].correctedErrors then 1 else 0;
      }
      assert referenceNotes[..|referenceNotes|] == referenceNotes;
    }

    /** The survivor's claim, and how it stands against its rivals. */
    method Claim(which: nat, entries: seq<CandidateReport>)
      returns (claim: Option<WorstCase>, ranking: Ranking, rival: Option<nat>, uncompared: seq<string>)
      requires Valid() && which < |states| == |entries| && states[which].alive
      requires Reportable(config, references, states[which])
      ensures claim == WorstCaseOf(config.candidates[which].id, CorrectedOf(config, references, Judged(states[which])),
                                   CorrectionFor(config, references, Judged(states[which])))
      ensures IsRival(config, entries, rival) && (rival.Some? ==> rival.value < |entries|)
      ensures IsVerdict(config, entries, which, rival, ranking)
      ensures uncompared == Uncompared(entries)
    {
      hide Lawful, References, ReferenceNotes, Since, TrialsIn, AllTrack, AnchorOf, IsRival, IsVerdict, Uncompared,
           CorrectionFor, CorrectedOf, SquaredHalfWidth, VarianceOf, Mean;
      var state := states[which];
      var seen := state.observations[state.selection..];
      var samples := CorrectedSamples(seen);
      var correction := FindCorrection(config, references, seen);
      claim := WorstCaseOf(config.candidates[which].id, samples, correction);
      ranking, rival, uncompared := RankAgainstRivals(config, entries, which);
    }

    /** The report, with a worst case exactly when the search completed with a survivor. */
    method Report() returns (out: SearchReport)
      requires Valid() && rounds == Eliminations(log)
      requires Completed(config, log) <==> referenceStop.None? && stopped.None?
      ensures IsAccountOf(config, log, states, !Completed(config, log), out)
      ensures out.referenceStop == referenceStop && out.stopSignal == stopped
      ensures out.settleTrials == AskedIn(finished) && out.unsettledTrials == UnsettledIn(finished)
      ensures out.drift == if anchored then references[|references| - 1].value - anchor else 0.0
      ensures out.worstCase.Some? <==> Completed(config, log) && LiveSet(config, log) != {}
      ensures out.worstCase.None? ==> out.ranking.NoWorstCase? && out.rival == ""
      ensures forall w :: w in LiveSet(config, log) && Completed(config, log) ==>
                && w < |states| && Tracks(states[w], log, w) && Reportable(config, References(log), states[w])
                && IsClaimOf(config, log, w, out)
    {
      hide Lawful, Account, AnchorOf, References, ReferenceNotes, Since, TrialsIn, AllTrack, ErrorsAmong, Errors,
           Reportable, EstimateOf, CorrectionFor, CorrectedOf, IsRival, IsVerdict, Uncompared, Eliminations, ErrorsIn,
           LiveSet, Completed;
      var early := referenceStop.Some? || stopped.Some?;
      var readErrors := CountErrors();
      var values := ReferenceValues();
      var reference := EstimateSamples(values, NO_CORRECTION);
      var drift := if anchored then references[|references| - 1].value - anchor else 0.0;
      var entries, winner, errors := AccountForAll(early);
      ErrorsAreConserved(config, log);
      out := SearchReport(entries, None, NoWorstCase, "", [], referenceStop, references, referenceNotes,
                          anchor, drift, reference, trials, readErrors + errors, settleTrials, unsettledTrials,
                          rounds, stopped);
      AliveIsLive(config, states, log);
      if winner.Some? {
        var claim, ranking, rival, uncompared := Claim(winner.value, entries);
        var name := RivalName(entries, rival);
        out := out.(worstCase := claim, ranking := ranking, rival := name, uncompared := uncompared);
        ClaimIsMade(config, log, states, winner.value, out, rival);
      }
    }

    /**
     A search ends in a report when it completes, when the reference finds
     something or when a signal asks for the end; in an error otherwise.
     */
    method Run() returns (r: Result<SearchReport, Fault>)
      requires Valid() && Running() && log == [] && pass == 0 && rounds == 0
      modifies this
      ensures Valid() && RoundsAreFew()
      ensures r.Ok? <==> Completed(config, log) || referenceStop.Some? || stopped.Some?
      ensures r.Ok? ==> IsAccountOf(config, log, states, !Completed(config, log), r.value)
      ensures r.Ok? ==> r.value.referenceStop == referenceStop && r.value.stopSignal == stopped
      ensures r.Ok? ==> r.value.settleTrials == AskedIn(finished) && r.value.unsettledTrials == UnsettledIn(finished)
      ensures r.Ok? ==> (r.value.worstCase.Some? <==> Completed(config, log) && LiveSet(config, log) != {})
      ensures r.Ok? ==> forall w :: w in LiveSet(config, log) && Completed(config, log) ==>
                && w < |states| && Tracks(states[w], log, w) && Reportable(config, References(log), states[w])
                && IsClaimOf(config, log, w, r.value)
    {
      hide Lawful, AllTrack, Completed, LiveSet, IsAccountOf, IsClaimOf, Reportable, References, ReferenceNotes, Since,
           TrialsIn, AnchorOf, Eliminations, Power, Tracks;
      var done := Execute();
      if done.Err? && !done.error.ReferenceFault? && stopped.None? {
        return Err(done.error);
      }
      var report := Report();
      return Ok(report);
    }
  }

  // ---- What a finished search's report is worth ------------------------------------------------

  lemma {:induction false} ChosenAt(log: Log) returns (k: nat)
    requires Chosen(log)
    ensures k < |log| && log[k].Choose?
  {
    var n := |log| - 1;
    if log[n].Choose? {
      k := n;
    } else {
      k := ChosenAt(log[..n]);
    }
  }

  /** A live candidate was live all along, so it is the one that was chosen. */
  lemma SurvivorWasChosen(config: Config, log: Log, which: nat, k: nat)
    requires config.Valid() && Lawful(config, log) && k < |log| && log[k].Choose?
    requires which in LiveSet(config, log)
    ensures log[k] == Choose(which)
  {
    assert AdmittedAt(config, log, k);
    if !Live(log[..k], which) {
      GoneStaysGone(log, which, k);
    }
    assert which in LiveSet(config, log[..k]);
  }

  /**
   No selection bias: the worst case rests on exactly finalReplicates trials,
   at least two, every one of them run after the candidate was chosen.
   */
  lemma ClaimIsUnbiased(config: Config, log: Log, which: nat, report: SearchReport) returns (k: nat)
    requires config.Valid() && Lawful(config, log) && Completed(config, log) && which in LiveSet(config, log)
    requires |report.candidates| == |config.candidates|
    requires SelectionCount(log, which) <= |Observations(log, which)|
    requires config.referenceReplicates <= |References(log)|
    requires IsClaimOf(config, log, which, report)
    ensures k < |log| && log[k] == Choose(which)
    ensures report.worstCase.Some? && report.worstCase.value.replicates == config.finalReplicates >= 2
    ensures var seen := Observations(log[k..], which);
            |seen| == config.finalReplicates
            && report.worstCase == WorstCaseOf(config.candidates[which].id, CorrectedOf(config, References(log), seen),
                                               CorrectionFor(config, References(log), seen))
  {
    hide Lawful, FateIn, Observations, CorrectedOf, CorrectionFor, References, Since, IsRival, IsVerdict, Uncompared,
         SquaredHalfWidth, VarianceOf, Mean, EstimateOf;
    k := ChosenAt(log);
    SurvivorWasChosen(config, log, which, k);
    FreshObservations(config, log, k);
  }

  lemma AccountOfOne(config: Config, log: Log, states: seq<State>, early: bool, report: SearchReport, w: nat)
    requires IsAccountOf(config, log, states, early, report) && w < |config.candidates|
    ensures |report.candidates| == |states| == |config.candidates|
    ensures Reportable(config, References(log), states[w])
    ensures report.candidates[w] == Account(config, References(log), config.candidates[w].id, states[w], early)
  {
    hide Account, References, AnchorOf, ReferenceNotes, EstimateOf, ErrorsIn, TrialsIn, Eliminations;
  }

  lemma AccountOfState(config: Config, references: seq<ReferencePoint>, id: string, state: State, early: bool)
    requires Reportable(config, references, state)
    ensures var entry := Account(config, references, id, state, early);
            var judged := if state.alive then state.observations[state.selection..] else state.observations;
            && entry.id == id && entry.fate == (if state.alive && early then StoppedWithSearch else state.fate)
            && entry.rounds == state.rounds && entry.notes == NotesOf(state.observations)
            && entry.samples == CorrectedOf(config, references, state.observations)
            && entry.selectionReplicates == |state.observations| - |judged|
            && entry.raw == EstimateOf(Raws(judged), NO_CORRECTION)
            && entry.corrected == EstimateOf(CorrectedOf(config, references, judged),
                                             CorrectionFor(config, references, judged))
  {
    hide EstimateOf, CorrectedOf, CorrectionFor;
  }

  /**
   What a report says of a candidate, from the log alone: how it fared, its
   corrected scores and notes, and its estimates, the survivor's from the
   replicates that did not choose it.
   */
  lemma AccountIsOfLog(config: Config, log: Log, states: seq<State>, early: bool, report: SearchReport, w: nat)
    requires config.Valid() && Lawful(config, log) && AllTrack(states, log) && w < |config.candidates|
    requires IsAccountOf(config, log, states, early, report)
    ensures Observations(log, w) != [] ==> 0 < config.referenceReplicates <= |References(log)|
    ensures SelectionCount(log, w) <= |Observations(log, w)|
    ensures var entry, all := report.candidates[w], Observations(log, w);
            var judged := if Live(log, w) then all[SelectionCount(log, w)..] else all;
            && entry.id == config.candidates[w].id
            && (entry.fate.StoppedWithSearch? <==> Live(log, w) && early)
            && (entry.fate.Survivor? <==> Live(log, w) && !early)
            && (entry.fate.HadFindings? <==> Leave(w, Findings) in log)
            && (entry.fate.Unfinished? <==> Leave(w, Incomplete) in log)
            && entry.rounds == RankedIn(log, w)
            && entry.samples == CorrectedOf(config, References(log), all) && entry.notes == NotesOf(all)
            && entry.selectionReplicates == |all| - |judged|
            && entry.raw == EstimateOf(Raws(judged), NO_CORRECTION)
            && entry.corrected == EstimateOf(CorrectedOf(config, References(log), judged),
                                             CorrectionFor(config, References(log), judged))
  {
    hide Lawful, Observations, References, CorrectedOf, CorrectionFor, EstimateOf, RankedIn, FateIn, SelectionCount,
         IsAccountOf, Config.Valid;
    AccountOfOne(config, log, states, early, report, w);
    AccountOfState(config, References(log), config.candidates[w].id, states[w], early);
    assert Tracks(states[w], log, w);
    FateIsHistory(config, log, w);
  }
}
