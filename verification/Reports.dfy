/** What a search's report says of each candidate, and how the survivor is set against its rivals. */
module Reports {
  import opened Wrappers
  import opened Sums
  import opened Drift
  import opened Noise
  import opened Estimate
  import opened Trials

  datatype Ranking = NoWorstCase | Sole | Separated | Indistinguishable

  datatype CandidateReport = CandidateReport(
    id: string, fate: Fate, rounds: nat, samples: seq<real>, notes: seq<TrialNote>,
    selectionReplicates: nat, raw: Estimated, corrected: Estimated)

  datatype SearchReport = SearchReport(
    candidates: seq<CandidateReport>, worstCase: Option<WorstCase>,
    ranking: Ranking, rival: string, uncompared: seq<string>,
    referenceStop: Option<Verdict>, references: seq<ReferencePoint>, referenceNotes: seq<TrialNote>,
    anchor: real, drift: real, reference: Estimated,
    trials: nat, correctedErrorTrials: nat, settleTrials: nat, unsettledTrials: nat, rounds: nat,
    stopSignal: Option<int>)

  // ---- Corrections ----------------------------------------------------------------------

  /** What the reference's noise adds to a mean of these observations; nothing when there are none. */
  function CorrectionFor(config: Config, references: seq<ReferencePoint>, seen: seq<Observation>): (c: Correction)
    requires seen != [] ==> 0 < config.referenceReplicates <= |references|
    ensures Fair(c)
  {
    if seen == [] then NO_CORRECTION
    else
      var w := Weights(references, InstantsOf(seen), config.referenceReplicates);
      Correction(Times(Dot(w, w), Variance(references)), ReferenceDegrees(|references|))
  }

  /** The correction's variance is at most twice the noise, so never negative. */
  lemma CorrectionIsBounded(config: Config, references: seq<ReferencePoint>, seen: seq<Observation>)
    requires seen != [] && 0 < config.referenceReplicates <= |references|
    ensures 0.0 <= CorrectionFor(config, references, seen).variance <= 2.0 * Variance(references)
  {
    hide Times, Variance, Weights;
    var w := Weights(references, InstantsOf(seen), config.referenceReplicates);
    GainIsBounded(references, InstantsOf(seen), config.referenceReplicates);
    VarianceIsNonNegative(references);
    ProductsGrow(0.0, Dot(w, w), 0.0, Variance(references));
    ProductsGrow(Dot(w, w), 2.0, Variance(references), Variance(references));
    ByZero(0.0);
    Doubled(Variance(references));
  }

  lemma Doubled(x: real)
    ensures Times(2.0, x) == 2.0 * x
  {
  }

  method FindInstants(seen: seq<Observation>) returns (times: seq<int>)
    ensures times == InstantsOf(seen)
  {
    times := [];
    for i := 0 to |seen|
      invariant times == InstantsOf(seen)[..i]
    {
      times := times + [seen[i].atNs];
    }
  }

  method FindCorrection(config: Config, references: seq<ReferencePoint>, seen: seq<Observation>) returns (c: Correction)
    requires seen != [] ==> 0 < config.referenceReplicates <= |references|
    ensures c == CorrectionFor(config, references, seen)
  {
    hide Times, Weights, Variance, Dot;
    if seen == [] {
      return NO_CORRECTION;
    }
    var times := FindInstants(seen);
    var gain := CorrectionGain(references, times, config.referenceReplicates);
    var variance := ReferenceVariance(references);
    return Correction(Times(gain, variance), ReferenceDegrees(|references|));
  }

  // ---- Counting corrected errors ------------------------------------------------------------

  function Errors(notes: seq<TrialNote>): nat {
    if notes == [] then 0
    else Errors(notes[..|notes| - 1]) + if notes[|notes| - 1].correctedErrors then 1 else 0
  }

  /** The corrected errors counted are the notes that have one. */
  lemma {:induction false} ErrorsAreCounted(notes: seq<TrialNote>)
    ensures Errors(notes) == |set i | 0 <= i < |notes| && notes[i].correctedErrors|
  {
    if notes != [] {
      var n := |notes| - 1;
      ErrorsAreCounted(notes[..n]);
      var before := set i | 0 <= i < |notes[..n]| && notes[..n][i].correctedErrors;
      var all := set i | 0 <= i < |notes| && notes[i].correctedErrors;
      assert all == before + if notes[n].correctedErrors then {n} else {};
    }
  }

  function NotesOf(seen: seq<Observation>): (s: seq<TrialNote>)
    ensures |s| == |seen| && forall i :: 0 <= i < |s| ==> s[i] == seen[i].note
  {
    seq(|seen|, i requires 0 <= i < |seen| => seen[i].note)
  }

  /** The scored trials with corrected errors, the reference's included. */
  function ErrorsIn(log: Log): nat {
    if log == [] then 0
    else
      var last := log[|log| - 1];
      ErrorsIn(log[..|log| - 1])
      + if (last.Read? && last.note.correctedErrors) || (last.Score? && last.seen.note.correctedErrors) then 1 else 0
  }

  /** The corrected errors of the first n candidates. */
  function ErrorsAmong(log: Log, n: nat): nat {
    if n == 0 then 0 else ErrorsAmong(log, n - 1) + ErrorsOf(log, n - 1)
  }

  lemma ErrorsGrow(notes: seq<TrialNote>, note: TrialNote)
    ensures Errors(notes + [note]) == Errors(notes) + if note.correctedErrors then 1 else 0
  {
    assert (notes + [note])[..|notes|] == notes;
  }

  function ErrorsOf(log: Log, which: nat): nat {
    Errors(NotesOf(Observations(log, which)))
  }

  lemma ErrorsOfGrow(log: Log, e: Event, which: nat)
    ensures ErrorsOf(log + [e], which) ==
            ErrorsOf(log, which) + if e.Score? && e.which == which && e.seen.note.correctedErrors then 1 else 0
  {
    hide Observations, Errors, FateIn, RankedIn, SelectionCount;
    GrownFor(log, e, which);
    var seen := Observations(log, which);
    if e.Score? && e.which == which {
      assert NotesOf(seen + [e.seen]) == NotesOf(seen) + [e.seen.note];
      ErrorsGrow(NotesOf(seen), e.seen.note);
    } else {
      assert Observations(log + [e], which) == seen;
    }
  }

  lemma {:induction false} ErrorsAmongGrow(log: Log, e: Event, n: nat)
    ensures ErrorsAmong(log + [e], n) ==
            ErrorsAmong(log, n) + if e.Score? && e.which < n && e.seen.note.correctedErrors then 1 else 0
  {
    hide ErrorsOf;
    if n > 0 {
      ErrorsAmongGrow(log, e, n - 1);
      ErrorsOfGrow(log, e, n - 1);
    }
  }

  lemma {:induction false} NoErrorsYet(n: nat)
    ensures ErrorsAmong([], n) == 0
  {
    if n > 0 {
      NoErrorsYet(n - 1);
    }
  }

  lemma ErrorsStayConserved(log: Log, e: Event, n: nat)
    requires ErrorsIn(log) == Errors(ReferenceNotes(log)) + ErrorsAmong(log, n)
    requires e.Score? ==> e.which < n
    ensures ErrorsIn(log + [e]) == Errors(ReferenceNotes(log + [e])) + ErrorsAmong(log + [e], n)
  {
    hide ErrorsAmong, ReferenceNotes, Errors;
    assert (log + [e])[..|log|] == log;
    Grown(log, e);
    ErrorsAmongGrow(log, e, n);
    if e.Read? {
      ErrorsGrow(ReferenceNotes(log), e.note);
    } else {
      assert ReferenceNotes(log + [e]) == ReferenceNotes(log);
    }
  }

  lemma ScoreIsOfCandidate(config: Config, log: Log, i: nat)
    requires config.Valid() && Lawful(config, log) && i < |log|
    ensures log[i].Score? ==> log[i].which < |config.candidates|
  {
    assert AdmittedAt(config, log, i);
  }

  /** No corrected error is lost or counted twice: the log's are the reference's and the candidates'. */
  lemma {:induction false} ErrorsAreConserved(config: Config, log: Log)
    requires config.Valid() && Lawful(config, log)
    ensures ErrorsIn(log) == Errors(ReferenceNotes(log)) + ErrorsAmong(log, |config.candidates|)
  {
    hide ErrorsAmong, Lawful, Admits;
    if log == [] {
      NoErrorsYet(|config.candidates|);
    } else {
      var n := |log| - 1;
      LawfulBefore(config, log, n);
      ErrorsAreConserved(config, log[..n]);
      ScoreIsOfCandidate(config, log, n);
      ErrorsStayConserved(log[..n], log[n], |config.candidates|);
      assert log[..n] + [log[n]] == log;
    }
  }

  // ---- Rivals -----------------------------------------------------------------------------

  function SignedCorrected(config: Config, entry: CandidateReport): real {
    Times(SignOf(config.direction), entry.corrected.mean)
  }

  /** The eliminated candidate with the worst corrected mean, the earlier on a tie; none if none was eliminated. */
  predicate IsRival(config: Config, candidates: seq<CandidateReport>, rival: Option<nat>) {
    match rival
    case None => forall j :: 0 <= j < |candidates| ==> !candidates[j].fate.Eliminated?
    case Some(k) =>
      && k < |candidates| && candidates[k].fate.Eliminated?
      && forall j :: 0 <= j < |candidates| && candidates[j].fate.Eliminated? && j != k ==>
           Outranks(SignedCorrected(config, candidates[k]), k, SignedCorrected(config, candidates[j]), j)
  }

  /** Eliminated candidates with too few replicates for an interval. */
  function Uncompared(candidates: seq<CandidateReport>): seq<string> {
    if candidates == [] then []
    else
      var last := candidates[|candidates| - 1];
      Uncompared(candidates[..|candidates| - 1])
      + if last.fate.Eliminated? && |last.samples| < 2 then [last.id] else []
  }

  function Gap(config: Config, best: Estimated, other: Estimated): real {
    Times(SignOf(config.direction), best.mean - other.mean)
  }

  /** Separated is claimed exactly when the gap exceeds both half-widths together. */
  predicate IsVerdict(config: Config, candidates: seq<CandidateReport>, winner: nat, rival: Option<nat>,
                      ranking: Ranking)
    requires winner < |candidates| && (rival.Some? ==> rival.value < |candidates|)
  {
    match rival
    case None => ranking.Sole?
    case Some(k) =>
      var best, other := candidates[winner].corrected, candidates[k].corrected;
      var width := if best.squaredHalfWidth.Some? then best.squaredHalfWidth.value else 0.0;
      if other.squaredHalfWidth.Some? && Exceeds(Gap(config, best, other), width, other.squaredHalfWidth.value)
      then ranking.Separated?
      else ranking.Indistinguishable?
  }

  /** The rival's id; empty if there is none. */
  function RivalName(candidates: seq<CandidateReport>, rival: Option<nat>): string
    requires rival.Some? ==> rival.value < |candidates|
  {
    if rival.None? then "" else candidates[rival.value].id
  }

  /** The report names the rival and judges the winner against it. */
  predicate StandsAgainst(config: Config, report: SearchReport, winner: nat, rival: Option<nat>) {
    && winner < |report.candidates| && IsRival(config, report.candidates, rival)
    && IsVerdict(config, report.candidates, winner, rival, report.ranking)
    && report.rival == RivalName(report.candidates, rival)
  }

  method RankAgainstRivals(config: Config, candidates: seq<CandidateReport>, winner: nat)
    returns (ranking: Ranking, rival: Option<nat>, uncompared: seq<string>)
    requires winner < |candidates|
    ensures IsRival(config, candidates, rival) && (rival.Some? ==> rival.value < |candidates|)
    ensures IsVerdict(config, candidates, winner, rival, ranking)
    ensures uncompared == Uncompared(candidates)
  {
    hide Times, Exceeds;
    rival, uncompared := None, [];
    for i := 0 to |candidates|
      invariant IsRival(config, candidates[..i], rival)
      invariant uncompared == Uncompared(candidates[..i])
    {
      var entry := candidates[i];
      assert candidates[..i + 1][..i] == candidates[..i];
      if entry.fate.Eliminated? {
        if |entry.samples| < 2 {
          uncompared := uncompared + [entry.id];
        }
        if rival.None? || SignedCorrected(config, entry) > SignedCorrected(config, candidates[rival.value]) {
          rival := Some(i);
        }
      }
    }
    assert candidates[..|candidates|] == candidates;
    if rival.None? {
      return Sole, rival, uncompared;
    }
    var best, other := candidates[winner].corrected, candidates[rival.value].corrected;
    var width := if best.squaredHalfWidth.Some? then best.squaredHalfWidth.value else 0.0;
    if other.squaredHalfWidth.None? {
      return Indistinguishable, rival, uncompared;
    }
    ranking := if Exceeds(Gap(config, best, other), width, other.squaredHalfWidth.value) then Separated
               else Indistinguishable;
  }

  /** The rival named has the worst corrected mean of the eliminated: the highest or the lowest, by the objective. */
  lemma RivalIsWorst(config: Config, report: SearchReport, winner: nat, k: nat, j: nat)
    requires StandsAgainst(config, report, winner, Some(k))
    requires j < |report.candidates| && report.candidates[j].fate.Eliminated?
    ensures k < |report.candidates| && report.candidates[k].fate.Eliminated? && report.rival == report.candidates[k].id
    ensures var rival, other := report.candidates[k].corrected.mean, report.candidates[j].corrected.mean;
            && (config.direction.HigherIsWorse? ==> rival >= other)
            && (config.direction.LowerIsWorse? ==> rival <= other)
            && (rival == other ==> k <= j)
  {
  }

  /** A survivor is without a rival exactly if nobody was eliminated, and is not told from one without an interval. */
  lemma SoleIffUnopposed(config: Config, report: SearchReport, winner: nat, rival: Option<nat>)
    requires StandsAgainst(config, report, winner, rival)
    ensures report.ranking.Sole? <==>
            forall j :: 0 <= j < |report.candidates| ==> !report.candidates[j].fate.Eliminated?
    ensures !report.ranking.NoWorstCase? && (rival.None? ==> report.rival == "")
    ensures rival.Some? && report.candidates[rival.value].corrected.squaredHalfWidth.None? ==>
              report.ranking.Indistinguishable?
  {
  }

  /** Separated is said exactly when the winner's interval lies wholly beyond the rival's, on the worse side. */
  lemma SeparatedIffApart(config: Config, report: SearchReport, winner: nat, k: nat, a: real, b: real)
    requires StandsAgainst(config, report, winner, Some(k))
    requires report.candidates[winner].corrected.squaredHalfWidth == Some(Times(a, a)) && a >= 0.0
    requires report.candidates[k].corrected.squaredHalfWidth == Some(Times(b, b)) && b >= 0.0
    ensures var best, other := report.candidates[winner].corrected.mean, report.candidates[k].corrected.mean;
            report.ranking.Separated? <==>
            if config.direction.HigherIsWorse? then best - a > other + b else best + a < other - b
  {
    ExceedsIsTheGap(Gap(config, report.candidates[winner].corrected, report.candidates[k].corrected), a, b);
  }

  /** So every point of the winner's interval is worse than every point of the rival's. */
  lemma SeparatedIsDisjoint(config: Config, report: SearchReport, winner: nat, k: nat,
                            a: real, b: real, x: real, y: real)
    requires StandsAgainst(config, report, winner, Some(k)) && report.ranking.Separated?
    requires report.candidates[winner].corrected.squaredHalfWidth == Some(Times(a, a)) && a >= 0.0
    requires report.candidates[k].corrected.squaredHalfWidth == Some(Times(b, b)) && b >= 0.0
    requires report.candidates[winner].corrected.mean - a <= x <= report.candidates[winner].corrected.mean + a
    requires report.candidates[k].corrected.mean - b <= y <= report.candidates[k].corrected.mean + b
    ensures if config.direction.HigherIsWorse? then x > y else x < y
  {
    hide IsRival, IsVerdict;
    SeparatedIffApart(config, report, winner, k, a, b);
  }
}
