# LoadForge in Dafny

A model of the parts of LoadForge that decide something, and proofs of what they promise. LoadForge puts load on a machine with supervised worker processes, checks every result, and searches for the workload that is worst for the machine. Five parts are modelled.

- **The supervised run** (`Safety`, `Control`, `Tracking`, `Ladder`, `Watchdog`, `Protocol`, `Link`, `Pool`, `Runs`). The controller drives each worker by ticks: it sends numbered commands, judges heartbeats, climbs the stop ladder (request, SIGTERM, SIGKILL) and reaps. The kernel, the clock and the workers may do anything. `Tracking` gives a worker's state and its life, a sequence of moments; `Runs.Run` is the controller as a class whose invariant ties each worker to a life, so that a theorem about all lives holds in every run.
- **The worst-case search** (`Sums`, `Drift`, `Noise`, `Estimate`, `Trials`, `Ranks`, `Reports`, `Search`). Successive halving with an interleaved reference, drift correction and confidence intervals. `Trials` says which event may follow which log of trials; `Search.Execution` is the search as a class whose log is always such a log, whatever the runner answers.
- **CRC-32** (`Crc32`, `Detection`). The table loop, the bit-serial definition, and exactly which errors are missed.
- **The mutation gate** (`Keys`, `Scopes`, `Gate`, `Sharding`). Reports that must reconcile, runs merged into one view, and the decision taken whole or by shards.
- **Exact arithmetic and text** (`Integers`, `Text`, `Units`, `Placement`, `Memory`). Durations and sizes, CPU placement and seeds, and memory admission.

Scores, times of the search, variances and weights are real numbers. Standard deviations and half-widths are kept as squares, and `Estimate.ExceedsIsTheGap` shows that comparing squares is comparing the half-widths.

Where the code does not do what is written about it, the model follows the code:

- `src/workloads/mixed/schedule.hpp:20` says a schedule never stops a worker, but `problem` accepts a Stop. `Protocol.StopIsLastIffNotScheduled` gives the exact condition for a Stop to be the last message.
- `src/core/crc32.hpp:22` says every odd number of bit errors is detected. `Detection.OddErrorsCanBeMissed` gives fifteen that are not, and `Detection.MissesOnlyMultiples` says exactly which differences are missed.
- `src/explore/drift.cpp:67-70` gives a sum of squared correlations that holds for two residuals or more. `Noise.AllCorrelations` has the value for one as well.
- `src/controller/safety.cpp:205` adds the launch footprints without saturating. `Memory.LaunchMustFit` gives the exact condition for admission to be right, and `Memory.WrappedSumIsAdmitted` an input for which it is not.

## Model

| member | source | states |
|---|---|---|
| `Control.BusyIsExactShare` | src/worker/duty.cpp:11-21 | The busy time computed in two parts is the exact share of the period rounded down, and the idle allowance exactly what is left of the period. |
| `Tracking.LifeGoesOn` | src/controller/orchestration.cpp:655-700 | A life extended by a moment the controller may take next is again a life, with the state that moment makes. |
| `Tracking.ReplacementIsAllowedFor` | src/controller/orchestration.cpp:853-861 | The replacement allowance is granted exactly while a Switch or Rebind written no longer ago than the allowance is unanswered. |
| `Tracking.FaultIsRefusal` | src/controller/orchestration.cpp:718-740 | Only a call the moment makes and the kernel refuses is a fault: a write to a worker not reaped, a look, or a kill of a worker that still runs. |
| `Tracking.GoneIsSeen` | src/controller/orchestration.cpp:924-959 | A process is found gone only where the look saw its exit or the kernel knew no such process, and then no step is taken. |
| `Ladder.LadderOnlyClimbs` | src/controller/orchestration.cpp:913-959 | Over every life the stop step never goes back; the signals sent are a prefix of SIGTERM, SIGKILL or a lone SIGKILL, never taken back, and nothing follows SIGKILL; a step keeps the time it was taken. |
| `Ladder.RequestEndsInTerm` | src/controller/safety.cpp:41-51 | The first watch after a stop request's grace has sent SIGTERM or found the process gone. |
| `Ladder.TermEndsInKill` | src/controller/safety.cpp:41-51 | A watch that comes SIGTERM's grace after the signal leaves the worker killed or finds it gone; `Watchdog.KillHasCause` says that no watch kills sooner. |
| `Ladder.StopIsBounded` | src/controller/orchestration.cpp:702-716 | With ticks at most delta apart, a stop asked at T has ended in SIGKILL or a process found gone by T + stop grace + kill grace + 2 delta. |
| `Watchdog.ProgressIsHistory` | src/controller/orchestration.cpp:884-912 | The progress kept and the time it last changed are the best progress of the whole history and the last rise or paused watch in it. |
| `Watchdog.ReadingIsHistory` | src/controller/orchestration.cpp:885-889 | The time the slot was last read whole is that of the last readable watch in the history, or the launch. |
| `Watchdog.StaleIffUnhealthy` | src/controller/orchestration.cpp:863-912 | A watch judges a worker stale if and only if the history of its slot shows it unwell: torn for longer than the allowance, no beat within the launch grace, or a beat or last rise older than allowed; the allowance is the base one and the replacement one exactly while a replacement is pending, and idle time is added for the rise. |
| `Watchdog.UnhealthyEndsInTerm` | src/controller/orchestration.cpp:913-922 | A watch that shows a worker unwell has sent SIGTERM or finds the process gone. |
| `Watchdog.HealthyIsNeverSignalled` | src/controller/orchestration.cpp:863-922 | A worker well at every watch, torn slots, the time before its first beat and replacements included, is sent no signal while every watch is within a requested stop's grace and nobody insists. |
| `Watchdog.SilenceIsStale` | src/controller/orchestration.cpp:853-889 | Every watch later than t0 + allowance + replacement allowance judges a worker silent since t0 stale, however many Switch or Rebind messages are queued. |
| `Watchdog.SilenceEndsInTerm` | src/controller/orchestration.cpp:913-916 | That watch has sent SIGTERM or finds the process gone. |
| `Watchdog.HangIsBounded` | src/controller/orchestration.cpp:863-922 | With ticks at most delta apart from the launch on, a worker silent since any time t0 from its launch on is killed or found gone within both allowances, SIGTERM's grace and 2 delta. |
| `Watchdog.SpinEndsInTerm` | src/controller/orchestration.cpp:892-912 | A worker that beats but whose progress has not risen within the allowance of that watch and its idle time has SIGTERM sent or is found gone. |
| `Watchdog.TermHasCause` | src/controller/safety.cpp:41-51 | In every life SIGTERM is sent only by a watch, and only to a worker unwell there or asked to stop at least the request's grace before. |
| `Watchdog.KillHasCause` | src/controller/safety.cpp:41-51 | In every life SIGKILL is sent only for a second stop signal, or by a watch at least SIGTERM's grace after the moment that sent SIGTERM. |
| `Watchdog.MarkIsOfTerm` | src/controller/orchestration.cpp:913-959 | A worker is marked as signalled while stale exactly by the SIGTERM of a watch that found it unwell; SIGKILL after SIGTERM's grace keeps the mark and a second stop signal clears it. |
| `Watchdog.InsistKills` | src/controller/orchestration.cpp:1029-1044 | A second stop signal leaves every worker not reaped killed, or finds it gone. |
| `Protocol.MailIsTheReplay` | src/controller/orchestration.cpp:718-740 | In every life the controller's mail is the replay of what was posted and answered: sent = done + refused + unanswered, consecutive sequence numbers modulo 2^32, and pause and idle allowance from exactly the commands answered done. |
| `Protocol.UnansweredIsBounded` | src/controller/orchestration.cpp:763-774 | At most 64 messages are unanswered before a stop is asked, and never more than 65. |
| `Protocol.DropsAreCounted` | src/controller/orchestration.cpp:763-774 | Over every life the commands counted as dropped are exactly the scheduled ones that met 64 messages unanswered. |
| `Protocol.ChannelIsHistory` | src/controller/orchestration.cpp:1067-1101 | In every life a record channel is closed, truncated or corrupt exactly if the first moment that closed it was a clean end, an end inside a frame, or bytes or an acknowledgement not to be believed. |
| `Protocol.NothingFollowsStop` | src/controller/orchestration.cpp:744-748 | Without a Stop in the schedule, the one Stop is the stop request's and nothing is posted after it. |
| `Protocol.ScheduledStopIsFollowed` | src/workloads/mixed/schedule.cpp:105-119 | For every schedule with a Stop there is a run in which messages follow a Stop. |
| `Protocol.StopIsLastIffNotScheduled` | src/workloads/mixed/schedule.cpp:105-119 | A Stop is the last message in every run of a schedule if and only if the schedule holds none. |
| `Link.HonestWorkerStaysSynchronised` | src/controller/orchestration.cpp:1182-1216 | In every interleaving over FIFO pipes with a worker that answers once and in order, the unanswered list is exactly the answers on their way, what the worker holds and the messages on their way, and the channel is never judged corrupt. |
| `Link.SynchronisedIsConsecutive` | src/controller/orchestration.cpp:718-735 | What is in flight then has consecutive sequence numbers, starting at the number answered. |
| `Link.InFlightIsConsecutive` | src/controller/orchestration.cpp:1182-1216 | Both hold after every number of events of every such run. |
| `Pool.CountLiveUpdate` | src/platform/worker_pool.cpp:122-135 | Writing one slot changes the number of held slots by what was there and what is written. |
| `Pool.NoneLive` | src/platform/worker_pool.cpp:59-72 | The count of held slots is 0 exactly when every slot is cleared, and full when none is. |
| `Pool.WorkerPool.Claim` | src/platform/worker_pool.cpp:122-135 | A reaped child of the pool is reported under the slot that was given its pid, which is cleared; a stranger changes nothing. |
| `Pool.WorkerPool.WaitForNext` | src/platform/worker_pool.cpp:74-102 | Only a held worker is ever reported, it is off the books and reaped after, and an error changes nothing; ends within the bound on interruptions. |
| `Pool.WorkerPool.ReapNextNonblocking` | src/platform/worker_pool.cpp:104-120 | The same without waiting; nothing is reported only if no child has exited, and then nothing changes. |
| `Pool.AddressedAreHeld` | src/platform/worker_pool.cpp:137-162 | The calls made for a signal are one for each held slot, to exactly the pids held, and all of that signal. |
| `Pool.WorkerPool.SignalAll` | src/platform/worker_pool.cpp:137-162 | Exactly the held pids are signalled, each once, in slot order, whatever earlier ones answered; it fails exactly if a send was refused other than for want of a process. |
| `Pool.WorkerPool.UnwindPartialSpawn` | src/platform/worker_pool.cpp:59-72 | Every held pid is sent SIGKILL; if the waits succeed none is left unreaped; if one fails the live count is exactly that of the workers left, which the pool no longer holds. |
| `Pool.WorkerPool.Spawn` | src/platform/worker_pool.cpp:19-57 | A supervisor holds one new child per slot and no other new child exists; a failed spawn whose waits succeed leaves no child it forked. |
| `Runs.Run.SendCommand` | src/controller/orchestration.cpp:718-740 | A message that is written is numbered, counted and queued; one that is not changes nothing; only a refusal other than a missing reader is an error. |
| `Runs.Run.RequestStop` | src/controller/orchestration.cpp:702-716 | Every worker's life is extended by exactly one stop request, and the run's invariant is kept. |
| `Runs.Run.SendScheduled` | src/controller/orchestration.cpp:765-773 | One command of the schedule is handed to its worker, posted or dropped as the worker's backlog says. |
| `Runs.Run.SendStep` | src/controller/orchestration.cpp:763-775 | A step hands every worker exactly its commands, in order. |
| `Runs.Run.RunSchedule` | src/controller/orchestration.cpp:744-786 | Every worker has been handed exactly the steps behind; afterwards no step is due; none was carried out early; nothing is handed out once a stop is requested. |
| `Runs.Run.ReplacementExtra` | src/controller/orchestration.cpp:853-861 | The scan finds the extra allowance exactly when a replacing command is unanswered and recent. |
| `Runs.Run.Send` | src/controller/orchestration.cpp:924-959 | A step is taken only if the worker had not exited and the kernel took the signal; an exited worker or a missing process is no error. |
| `Runs.Run.Judge` | src/controller/orchestration.cpp:881-912 | The judgement of a beat, field by field, is the one the watchdog theorems are about. |
| `Runs.Run.WatchWorker` | src/controller/orchestration.cpp:863-922 | One watch makes the state the ladder and watchdog theorems are about, signals for the causes they give and no other, and fails exactly on a look or kill that was refused. |
| `Runs.Run.WatchAll` | src/controller/orchestration.cpp:688-694 | Every worker not reaped is watched at this tick's clock reading. |
| `Runs.Run.TakeAck` | src/controller/orchestration.cpp:1182-1216 | An acknowledgement is taken exactly when it is for the message at the front; a refused one changes nothing. |
| `Runs.Run.Drain` | src/controller/orchestration.cpp:1067-1101 | The records of a read are taken in order up to the first refused one, which closes the channel; the way the read ended counts only if the channel is still open. |
| `Runs.Run.KillForSignal` | src/controller/orchestration.cpp:1029-1044 | A second signal extends every life by exactly one insistence on SIGKILL. |
| `Runs.Run.TakeStopSignal` | src/controller/orchestration.cpp:994-1027 | The first signal requests a stop, any later one forces it. |
| `Runs.Run.TakeStopSignals` | src/controller/orchestration.cpp:994-1009 | After any number of signals the run is stopping exactly if it was or one came, and forced exactly if it was or one came after the first ever. |
| `Runs.Run.ReapWorkers` | src/controller/orchestration.cpp:1242-1267 | Every worker that had exited is marked reaped, under its own slot; the run's live count, the pool's and the slots not reaped stay the same number; a reaped worker is never touched again. |
| `Runs.Run.Decide` | src/controller/orchestration.cpp:667-687 | A stop is requested exactly at the deadline or a temperature stop, before any step of the schedule; only a run that is not stopping carries out its due steps, all of them and none early. |
| `Runs.Run.Tick` | src/controller/orchestration.cpp:655-700 | Whatever the kernel and workers do, every life goes on in order: the stop and the schedule, then the watch of every worker still unreaped, then what came in. The run is stopping exactly if it was, or the deadline, the temperature ceiling or a signal said so, and forced exactly by a signal after the first; every worker was asked, and insisted on, exactly then. An undisturbed run carries out its due steps and no other. Every worker past the bound of a stop or a silence is reaped, killed or found gone. |
| `Runs.Run.Execute` | src/controller/orchestration.cpp:1649-1653 | The loop keeps the invariant and both bounds over all ticks and ends with no worker live exactly when all are reaped; whoever is not reaped has been watched at every tick. |
| `Runs.Run.EveryStopIsBounded` | src/controller/orchestration.cpp:655-716 | In every run the stop bound holds of every worker, with delta the longest wait between two ticks of that run. |
| `Runs.Run.EveryHangIsBounded` | src/controller/orchestration.cpp:863-922 | In every run the hang bound holds of every worker, from its launch on, with the same delta. |
| `Runs.BoundsAreKept` | src/controller/orchestration.cpp:655-700 | A worker watched at the present clock reading, or reaped, is past the bound of a stop or a silence only if it is reaped, has had SIGKILL or was found gone. |
| `Drift.FindBracket` | src/explore/drift.cpp:11-26 | The scan finds the first reading not before the instant and the place between it and the one before, or a held end. |
| `Drift.FindBaseline` | src/explore/drift.cpp:28-35 | The baseline of that bracket; 0 with no readings. |
| `Drift.EndsAreHeld` | src/explore/drift.hpp:32-36 | The baseline is 0 without readings, held at the first reading before it and at the last after all of them. |
| `Drift.BaselineIsInterpolated` | src/explore/drift.hpp:32-36 | Between two readings the baseline is on the straight line through them, unless one before them is later. |
| `Drift.SharesGiveBaseline` | src/explore/drift.cpp:28-35 | A bracket's shares of the readings are non-negative, add up to 1 and give the baseline. |
| `Drift.CorrectionGain` | src/explore/drift.cpp:84-101 | The array accumulated in place is the weight of each reading, and the result the sum of its squares. |
| `Drift.CorrectedMeanIsWeighed` | src/explore/drift.cpp:84-105 | For any readings and trial times in any order, the mean corrected score is the mean raw score less the readings weighed by exactly those weights. |
| `Drift.GainIsBounded` | src/explore/drift.cpp:84-101 | The weights add up to 0 and their squares to between 0 and 2. |
| `Drift.GainOfNoTrials` | src/explore/drift.hpp:67-76 | With no trial times the gain is the anchor's alone, one over its readings. |
| `Drift.LineIsFollowed` | src/explore/drift.cpp:11-35 | Between its first reading and some later one, a reference on a line is followed exactly. |
| `Drift.LinearDriftIsRemoved` | src/explore/drift.cpp:103-105 | A drift along a line is taken out exactly: each trial is corrected by the slope times its distance from the anchor's mean time. |
| `Noise.ReferenceVariance` | src/explore/drift.cpp:37-56 | The loop computes the mean of the squared, scaled residuals; half the squared step for two readings; 0 below. `Noise.VarianceIsOfContrasts` says what the scale is. |
| `Noise.VarianceIsNonNegative` | src/explore/drift.cpp:37-56 | The variance is never negative. |
| `Noise.VarianceIgnoresDrift` | src/explore/drift.hpp:52-58 | With three readings or more, adding a drift along a line to them changes nothing. |
| `Noise.LineHasNoVariance` | src/explore/drift.hpp:52-58 | Three or more readings on a line have variance 0. |
| `Noise.DriftInflatesTwo` | src/explore/drift.hpp:52-58 | With two readings a drift makes the variance of a noiseless reference positive: it errs high. |
| `Noise.ResidualIsContrast` | src/explore/drift.cpp:47-52 | At any spacing a residual is the readings weighed by 1, -(1 - w) and -w, with w the reading's place between its neighbours. |
| `Noise.DivisorIsContrast` | src/explore/drift.hpp:52-56 | What a squared residual is divided by is the sum of the squares of those weights: the residual's variance over a reading's. |
| `Noise.VarianceIsOfContrasts` | src/explore/drift.cpp:46-55 | For three readings or more the variance is the mean over the interior readings of the squared weighed sum over its own squared weights. |
| `Noise.TwoAreSamples` | src/explore/drift.cpp:42-45 | Two readings give their sample variance about their own mean. |
| `Noise.DivisorIsCovariance` | src/explore/drift.cpp:53-66 | Equally spaced, that divisor is the covariance of a residual with itself, 3/2. |
| `Noise.OutOfOrderIsMiddle` | src/explore/drift.cpp:48-50 | Where the neighbours are not in order of time a reading is set against their plain mean. |
| `Noise.ResidualIsSparse` | src/explore/drift.cpp:64-66 | Equally spaced, a residual is the reading less the mean of its neighbours. |
| `Noise.Correlations` | src/explore/drift.cpp:64-66 | Derived from those coefficients: variance 3/2, correlation -2/3 with a neighbour, 1/6 two places away, 0 beyond. |
| `Noise.AllCorrelations` | src/explore/drift.cpp:66-70 | The sum of all squared correlations of m residuals is m + 8(m-1)/9 + (m-2)/18 for m of 2 or more, and 1 for one. |
| `Noise.DegreesErrLow` | src/explore/drift.cpp:79-82 | The degrees credited are half of n - 2 rounded down but at least 1, and never above the effective ones, for three readings or more. |
| `Estimate.Moments` | src/explore/estimate.cpp:41-61 | The two loops compute the mean and the sample variance; 0 below two samples. |
| `Estimate.MeanIsLeastSquares` | src/explore/estimate.cpp:41-61 | The samples balance about the mean, and the squared distances from any other centre are larger by exactly n times its squared distance. |
| `Estimate.VarianceVanishes` | src/explore/estimate.cpp:54-59 | The variance is never negative, and 0 exactly when all samples are equal. |
| `Estimate.VarianceIsOfPairs` | src/explore/estimate.hpp:39 | The variance is half the mean squared difference over the n(n - 1) ordered pairs of samples. |
| `Estimate.TCritical` | src/explore/estimate.cpp:104-115 | The scan returns the value listed for the largest listed degrees not above the request. |
| `Estimate.CriticalIsAntitone` | src/explore/estimate.hpp:52-55 | More degrees never give a larger t. |
| `Estimate.CombinedDegreesAreBetween` | src/explore/estimate.cpp:74-89 | The Welch-Satterthwaite result lies between the smaller of the two degrees and the replicates' n - 1. |
| `Estimate.CombinedDegreesAreExact` | src/explore/estimate.cpp:79-88 | They are the largest whole number, up to n - 1, not above the Welch-Satterthwaite ratio, written out with each variance over its own degrees. |
| `Estimate.HalfWidthIsScaled` | src/explore/estimate.hpp:40-42 | The half-width is t at the combined degrees times the root of the variance over n plus the correction's, whatever roots stand for the two standard errors. |
| `Estimate.CorrectionNeverNarrows` | src/explore/estimate.cpp:91-95 | A correction never narrows the interval, and widens it strictly whenever it adds variance. |
| `Estimate.WorstCaseOf` | src/explore/estimate.cpp:129-142 | A claim exists exactly from two samples on, and says what the estimate of the same samples says. |
| `Estimate.ExceedsIsTheGap` | src/explore/search.cpp:459-466 | The test on squares holds exactly when the gap is more than both half-widths together. |
| `Estimate.GapSeparates` | src/explore/search.cpp:465-466 | Intervals a gap apart have no point in common, and all of one is beyond all of the other. |
| `Trials.LawfulGrows` | src/explore/search.cpp:146-169 | A lawful log and one admitted event more is a lawful log. |
| `Trials.OpensWithReferences` | src/explore/search.cpp:234-248 | The log opens with exactly the anchor's reference trials: no candidate before, no reference straight after. |
| `Trials.ReferencesAreInterleaved` | src/explore/search.cpp:269-274 | At most interleave_every scored trials lie in any stretch of the log without a reference reading. |
| `Trials.NeverRunAgain` | src/explore/search.cpp:264-268 | A candidate that left by a finding, an unfinished trial or elimination is never run again. |
| `Trials.FateIsHistory` | src/explore/search.hpp:86-95 | A candidate had findings, did not finish, or was ranked out exactly if some event of the log says so. |
| `Trials.EliminationsAreFair` | src/explore/search.cpp:150-161 | Every elimination follows a closing reference, and at the r-th every live candidate has exactly base times factor^r replicates. |
| `Trials.PassesAreFair` | src/explore/search.hpp:24-25 | Until the survivor is chosen no live candidate is more than one trial ahead of another, and none ahead of one configured earlier. |
| `Trials.ReplicatesAreBounded` | src/explore/search.hpp:53-62 | No candidate is run more often than base_replicates times the factor to the power of the round, nor the survivor more than final_replicates after its choice. |
| `Trials.RankedUntilOut` | src/explore/search.hpp:167 | A candidate is ranked in every elimination until it leaves, the one that puts it out included. |
| `Trials.EliminationsAreCounted` | src/explore/search.hpp:205 | The rounds counted are the eliminations of the log. |
| `Trials.EventsAreConserved` | src/explore/search.hpp:198 | Every event of a log is a trial, an elimination or the one choice, so the trials counted are all there were. |
| `Trials.EliminationsRank` | src/explore/search.cpp:352-374 | Whoever is kept is worse by signed corrected mean than whoever is put out, or level and configured earlier. |
| `Trials.EliminationsKeepWorse` | src/explore/search.cpp:352-374 | Which way that is: at every elimination the corrected mean of whoever is kept is at least that of whoever is put out where higher is worse, at most where lower is, and on a tie the earlier is kept. |
| `Trials.NoHeldEnds` | src/explore/search.cpp:250-255 | With trials in time order and the last reference closed, every trial lies between two neighbouring readings, so no baseline is a held end. |
| `Trials.DriftIsTakenOut` | src/explore/search.cpp:320-330 | So a reference drifting along a line is taken out of every score of the search exactly. |
| `Trials.FieldIsBounded` | src/explore/search.cpp:352-374 | After r eliminations at most the candidates over factor^r, rounded up, are live. |
| `Trials.FieldIsNeverEmptied` | src/explore/search.cpp:364-373 | An elimination never empties a field with someone in it. |
| `Trials.FreshObservations` | src/explore/search.cpp:298-312 | The observations past the selection count are exactly the trials run after the choice. |
| `Trials.ObservedMeansAnchored` | src/explore/search.cpp:334-337 | No candidate is observed before the anchor is known. |
| `Ranks.StableSortSorts` | src/explore/search.cpp:362-363 | The ranking is sorted worst first, and equal scores keep the configured order. |
| `Ranks.StableSort` | src/explore/search.cpp:362-363 | Sorting loses and repeats no entry. |
| `Reports.FindCorrection` | src/explore/search.cpp:334-348 | The correction is the gain of exactly these trials times the reference's variance, at its degrees; none for no trials. |
| `Reports.CorrectionIsBounded` | src/explore/search.cpp:334-348 | The variance a correction adds is between 0 and twice the reference's. |
| `Reports.ErrorsAreConserved` | src/explore/search.cpp:381-383 | Every scored trial with corrected errors, the reference's or a candidate's, is counted once. |
| `Reports.ErrorsAreCounted` | src/explore/search.cpp:381-383 | The count of corrected errors is the number of notes that have one. |
| `Reports.RankAgainstRivals` | src/explore/search.cpp:440-467 | The rival is the eliminated candidate with the worst corrected mean, the earlier on a tie; separated is said exactly when the gap exceeds both half-widths; the uncompared are those without an interval. `Reports.RivalIsWorst` and `Reports.SeparatedIffApart` say which way worse is. |
| `Reports.RivalIsWorst` | src/explore/search.hpp:124-125 | The rival's corrected mean is the highest of the eliminated where higher is worse, the lowest where lower is, and the earliest on a tie. |
| `Reports.SoleIffUnopposed` | src/explore/search.hpp:113-122 | A survivor is called sole exactly if nobody was eliminated, and is never told from a rival without an interval. |
| `Reports.SeparatedIffApart` | src/explore/search.hpp:119-122 | Separated is said exactly when the winner's lower end is above the rival's upper end where higher is worse, or the winner's upper end below the rival's lower end where lower is. |
| `Reports.SeparatedIsDisjoint` | src/explore/search.hpp:119-128 | Every point of a separated winner's interval is above every point of the rival's where higher is worse, and below where lower is. |
| `Search.ParameterProblem` | src/explore/search.cpp:23-43 | No problem is found exactly when every parameter is in its range. |
| `Search.IdentityProblem` | src/explore/search.cpp:45-60 | No problem is found exactly when no id is empty or used twice, the reference's included. |
| `Search.MidpointIsInside` | src/explore/search.cpp:205 | A trial's instant is inside its window and halves it to within one nanosecond. |
| `Search.LoggedByVerdict` | src/explore/search.cpp:180-215 | A trial with findings or unfinished is logged by its verdict and never scored; any other is logged with its score at the middle of its window and its notes. |
| `Search.Execution.Measure` | src/explore/search.cpp:180-215 | A trial is refused by a signal, gives nothing, or is logged as measured: its verdict and notes, the middle of its window and its score; a scored trial without a reading is its own fault; each trial run, each settle phase asked for and each that did not settle is counted. |
| `Search.AskedAreCounted` | src/explore/search.hpp:201-204 | The settle trials counted are those that asked for a settle phase. |
| `Search.UnsettledAreCounted` | src/explore/search.hpp:201-204 | The unsettled ones counted are those among them that ended without settling. |
| `Search.Execution.ReferenceTrial` | src/explore/search.cpp:217-232 | A scored reference is a reading and restarts the count of trials since; any other ends the search, as a reference fault exactly if its verdict was not scored. |
| `Search.Execution.TakeAnchor` | src/explore/search.cpp:234-248 | The anchor is the mean of the first readings and is set only when all were taken. |
| `Search.Execution.CloseReference` | src/explore/search.cpp:250-255 | Afterwards no scored trial is without a later reading, and no candidate has changed. |
| `Search.Execution.CandidateTrial` | src/explore/search.cpp:257-275 | One candidate gains one observation or leaves; no other changes; the interleaving bound holds. |
| `Search.Execution.Passes` | src/explore/search.cpp:279-291 | Every live candidate is run once per pass in configured order until each has exactly the target's replicates. |
| `Search.Execution.FreshReplicates` | src/explore/search.cpp:298-312 | A survivor has exactly final_replicates observations after the choice. |
| `Search.Execution.CorrectedSamples` | src/explore/search.cpp:320-330 | The corrected scores of the observations, in order. |
| `Search.Execution.Eliminate` | src/explore/search.cpp:352-374 | The live count becomes its share rounded up, replicates stay level, and the log gains an elimination that keeps the worse ones, in the direction `Trials.EliminationsKeepWorse` gives. |
| `Search.Execution.AliveCount` | src/explore/search.cpp:314-317 | The number of candidates still in the search. |
| `Search.Execution.Execute` | src/explore/search.cpp:146-169 | For every runner and every signal the search ends, its log is lawful, it succeeds exactly when everything was run, and it takes no more rounds than factor^rounds needs to reach the number of candidates. |
| `Search.Execution.Report` | src/explore/search.cpp:376-436 | The report is what the log says of every candidate and reading, with the counts of trials, settle phases and corrected errors and the rival's id, and has a worst case exactly when the search completed with a survivor. |
| `Search.Execution.Run` | src/explore/search.cpp:131-143 | A report is given exactly when the search completed, the reference found something or a signal asked for the end; a worst case exactly when it completed with a survivor. |
| `Search.AccountIsOfLog` | src/explore/search.cpp:376-438 | What a report says of a candidate follows from the log alone: how it fared, the rounds it was ranked in, its corrected scores and notes, and estimates of the replicates that did not choose it. |
| `Search.ClaimIsUnbiased` | src/explore/search.hpp:56-62 | The worst case rests on exactly final_replicates trials, at least two, every one run after the candidate was chosen. |
| `Crc32.ShiftsAreInjective` | src/core/crc32.cpp:18-28 | Moving the register any number of places merges no two registers. |
| `Crc32.SerialIsLinear` | src/core/crc32.cpp:34-45 | The register of a difference is the difference of the registers. |
| `Crc32.ByteAtOnce` | src/core/crc32.cpp:39-43 | Eight message bits one by one are one table entry and the rest of the register moved down. |
| `Crc32.MakeTable` | src/core/crc32.cpp:18-28 | Entry i is eight moves of i, for all 256. |
| `Crc32.Update` | src/core/crc32.cpp:34-45 | The table loop computes the bit-serial checksum of any bytes, continued from any checksum. |
| `Crc32.Crc` | src/core/crc32.cpp:47 | The checksum of any bytes from the start. |
| `Crc32.UpdatesChain` | src/core/crc32.hpp:29-33 | For every split of a stream, continuing the checksum of the first part over the second is the checksum of both. |
| `Detection.CollisionIsSilent` | src/core/crc32.cpp:34-45 | Two messages of one length have one checksum exactly when their difference leaves a zero register zero. |
| `Detection.BurstsAreDetected` | src/core/crc32.hpp:22-23 | Two different messages of one length that agree outside 32 consecutive bits have different checksums. |
| `Detection.SingleBitsAreDetected` | src/core/crc32.hpp:22 | In particular every single-bit error changes the checksum. |
| `Detection.TailIsPolynomial` | src/core/crc32.cpp:12 | The constant is the generator of section 3.2.9 of IEEE 802.3, reflected. |
| `Detection.MissesOnlyMultiples` | src/core/crc32.hpp:21-24 | Two messages of one length have one checksum if and only if long division of their difference by the generator leaves nothing. |
| `Detection.DividesMeansMultiple` | src/core/crc32.hpp:21-24 | What divides is its quotient times the generator. |
| `Detection.MultiplesDivide` | src/core/crc32.hpp:21-24 | Every multiple of the generator divides. |
| `Detection.QuotientOfProduct` | src/core/crc32.hpp:21-24 | A multiple of the generator tells its factor. |
| `Detection.OneInFourBillion` | src/core/crc32.hpp:23-24 | Of all differences of n bits, for 32 bits or more, exactly one in 2^32 is missed. |
| `Detection.CheckValue` | src/core/crc32.hpp:13-14 | The checksum of the digits 1 to 9 is 0xCBF43926. |
| `Detection.OddErrorsCanBeMissed` | src/core/crc32.hpp:22 | Two messages that differ in fifteen bits have one checksum. |
| `Keys.KeyTellsPath` | tools/mutation-gate.py:95-97 | The path is read back from a key whatever colons it has. |
| `Keys.Sorted` | tools/mutation-gate.py:510 | Every key of the set is listed, and nothing else. |
| `Keys.SortedIsInOrder` | tools/mutation-gate.py:510 | They are listed in text order, so without repetition. |
| `Scopes.UnderIsByComponents` | tools/mutation-gate.py:435-438 | A path is in a scope exactly when its components begin with the scope's: whole components only. |
| `Scopes.Plan` | tools/mutation-shard.py:110-126 | A plan has one shard per module with a source, each with exactly the modules it owns; refused exactly when the host has no source. |
| `Scopes.EveryModuleOnce` | tools/mutation-shard.py:123-126 | Every module is in exactly one shard, once. |
| `Scopes.ModulesAreDisjoint` | tools/mutation-shard.py:110-126 | No source lies under two modules. |
| `Scopes.OwnershipIsExact` | tools/mutation-shard.py:110-126 | A source of a module is in the scope of the shard that owns the module and of no other. |
| `Gate.ReconciledIsCoherent` | tools/mutation-gate.py:193-277 | A reconciled report accounts for every mutant it says was generated, every header states its list's length and the one total, and a score of 100 means exactly that none survived or went uncovered. |
| `Gate.ReconciledWithoutHeaders` | tools/mutation-gate.py:231-239 | A report without headers reconciles exactly when it lists nothing, says all were killed and scores 100. |
| `Gate.BestIsLeast` | tools/mutation-gate.py:486-508 | The merged rank of a mutant is what some run says of it and no run beats. |
| `Gate.Absorb` | tools/mutation-gate.py:502-508 | A list of one rank goes in; a better rank already held stays. |
| `Gate.MergeRuns` | tools/mutation-gate.py:486-521 | The loops compute the merged view: each mutant once, under its best label, in order, with one total in every header. |
| `Gate.MergedByRuns` | tools/mutation-gate.py:486-521 | A mutant is killed in the merged view exactly if some run killed it, survived if some run saw it survive and none killed it, and not covered if that is the best any run says. |
| `Gate.MergeIgnoresOrder` | tools/mutation-gate.py:486-521 | The merged view depends on which runs there are, not on their order or repetition. |
| `Gate.MergedReconciles` | tools/mutation-gate.py:509-521 | The merged view reconciles exactly when there is a mutant in it. |
| `Sharding.Judge` | tools/mutation-gate.py:674-713 | It passes exactly when nothing is uncovered and the survivors are exactly the allowed entries. |
| `Sharding.PassMeansDetected` | tools/mutation-gate.py:664-713 | After a pass every mutant of every run is killed by some executable or allowed by name. |
| `Sharding.PassMeansNoStale` | tools/mutation-gate.py:698-713 | After a pass every allowed entry the gate owns names a mutant that survives. |
| `Sharding.PassMeansOwned` | tools/mutation-gate.py:448-483 | After a shard's pass every mutant of every run lies in the shard. |
| `Sharding.PassCountsSurvivors` | tools/mutation-gate.py:392-413 | After a pass of the whole gate there are exactly as many survivors as allowed entries. |
| `Sharding.CheckAllowlist` | tools/mutation-shard.py:129-143 | Accepted, with the count, exactly when every entry is in some shard's scope. |
| `Sharding.ShardsAreSound` | tools/mutation-gate.py:664-713 | If every shard of a checked plan passes, every mutant is killed or allowed and every allowed entry still survives in some shard. |
| `Sharding.ShardsAgreeWithWhole` | tools/mutation-gate.py:664-713 | With every judged mutant and entry owned, all shards pass the decision exactly when the whole project does. |
| `Sharding.PlannedShardsAgreeWithWhole` | tools/mutation-gate.py:664-713 | With the plan that is made, and mutants and entries in the sources of modules, all shards pass the decision exactly when the whole project does. |
| `Text.TrimSplits` | src/core/parse_number.cpp:12-19 | What trimming leaves is the text less its padding on both sides, and neither begins nor ends with padding. |
| `Text.DecimalIsValue` | src/core/duration.cpp:67 | A number's decimal digits have that number as their value. |
| `Text.WrittenIsSplit` | src/core/parse_number.cpp:21-46 | Padding, digits, a suffix and padding are split into the digits' value and the suffix, or refused exactly when the value passes 64 bits. |
| `Text.SplitIsWritten` | src/core/parse_number.cpp:21-46 | Whatever is split was so written. |
| `Text.NotANumber` | src/core/parse_number.cpp:21-44 | Empty, negative and malformed are told apart exactly: nothing but padding, a minus sign first, or no digit first. |
| `Text.ProductFits` | src/core/duration.cpp:50-54 | The guard refuses exactly the products past the ceiling. |
| `Text.LargestIsLargest` | src/core/duration.cpp:64-69 | The unit printed is the largest that divides exactly. |
| `Units.DurationRoundTrip` | src/core/duration.cpp:34-71 | Every non-negative 64-bit duration is printed as text that is read back as itself, however padded. |
| `Units.DurationLanguage` | src/core/duration.cpp:34-57 | Exactly the texts accepted as durations, and what each means. |
| `Units.DurationRefusals` | src/core/duration.cpp:39-56 | Exactly when a number with a suffix lacks a unit, has an unknown one, or is out of range. |
| `Units.ByteSizeRoundTrip` | src/core/byte_size.cpp:33-72 | Every size, absolute or a percentage, is printed as text that is read back as itself, however padded. |
| `Units.ByteSizeLanguage` | src/core/byte_size.cpp:33-59 | Exactly the texts accepted as sizes, and what each means. |
| `Units.ByteSizeRefusals` | src/core/byte_size.cpp:38-58 | Exactly when a number with a suffix has an unknown unit or is out of range, a percentage outside 1 to 100 included. |
| `Placement.AssignCpus` | src/controller/plan.cpp:59-72 | The loop takes the CPUs going round from the worker's place. |
| `Placement.CpusDiffer` | src/controller/plan.cpp:59-72 | A worker's CPUs are all different. |
| `Placement.PlacementIsBalanced` | src/controller/plan.cpp:59-72 | Over any number of workers with no more threads than CPUs, each CPU is used the quotient of all threads and CPUs, and the first few once more. |
| `Placement.SeedsDiffer` | src/controller/plan.hpp:70-72 | No two slots share a seed, with the sum and product wrapping at 64 bits. |
| `Placement.SeedsAreSpaced` | src/controller/plan.hpp:70-72 | The first slot has the configured seed, and each next slot the stride more, wrapping at 64 bits. |
| `Memory.ShareIsExact` | src/config/config.cpp:591-596 | A percentage's share is the exact one rounded down, and no step of it passes 64 bits. |
| `Memory.ResolvedFits` | src/config/config.cpp:577-597 | Nothing resolves to more than the ceiling. |
| `Memory.Saturated` | src/controller/safety.cpp:155-161 | The sum, stopped at the largest word. |
| `Memory.CeilingIsLeast` | src/config/config.cpp:570-575 | The ceiling is the lesser of what is available and the group's limit, if there is one. |
| `Memory.HeldIsLastSwitch` | src/controller/safety.cpp:164-171 | After any steps a worker holds the footprint of the last Switch they handed it, or what it held before if there was none. |
| `Memory.PeakOf` | src/controller/safety.cpp:153-178 | The largest of the sums of what `Memory.HeldIsLastSwitch` says is held at the start and after every step, and the first place it is reached. |
| `Memory.Launch` | src/controller/safety.cpp:188-207 | What the enabled workloads are launched with and its wrapped sum, or a refusal exactly if one asks for more than there is. |
| `Memory.CheckMemory` | src/controller/safety.cpp:182-245 | A run is accepted exactly when its workloads and limit resolve and the launch sum and every step's sum are within the bound, without a budget always; a refusal gives its cause and the most that would be held. |
| `Memory.RefusalIsExact` | src/controller/safety.cpp:182-245 | A run that is refused is not admissible, and the cause given, with its total, is the only one that fits. |
| `Memory.AdmissionIsExact` | src/controller/safety.cpp:182-245 | With a ceiling below 2^64 - 1 and a launch sum that fits, acceptance is exactly that what the workers hold at the start and after every step, added up exactly, is within ceiling and limit, and so is the sum of the configured footprints even if a schedule starts the workers as something else. |
| `Memory.AdmissionIsOfWhatIsHeld` | src/controller/safety.cpp:182-245 | Where no schedule chooses the start, that is exactly that what the workers hold is within ceiling and limit. |
| `Memory.ScheduleIsSaturated` | src/controller/safety.cpp:208-228 | With a schedule, and a ceiling below 2^64 - 1, nothing past the bound is accepted even if the launch sum wraps. |
| `Memory.LaunchMustFit` | src/controller/safety.cpp:205 | Without a schedule acceptance is right if and only if the launch sum fits or its wrapped value is past the bound. |
| `Memory.WrappedSumIsAdmitted` | src/controller/safety.cpp:205 | Two workloads of 2^63 bytes are accepted under a ceiling of 2^63. |

## Left out

- Reading a run's outcome: the classification of deaths, tallies, error records, notes, out-of-memory attribution and the result files.
- `drain_after_death`, `finish`, `kill_group` and `teardown`: what happens to pipes and process groups after the last reap.
- The temperature guard's sensing; `Runs.Run.Tick` takes its verdict as given by the environment.
- Telemetry, journal, console, command line and TOML reading: text and files.
- System calls, signal handlers, affinity and shared memory; the kernel's answers are arbitrary values of the kinds the code tells apart.
- Frame encoding and the heartbeat slot's protocol; a read gives a beat, no beat yet, or a torn slot.
- Reads bounded per tick: `drain_available` reads a channel several times; the model takes any number of records in one read.
- Wrap-around of times, counters and sizes of containers; times and counters are unbounded integers, and only message sequence numbers, seeds and the memory sums wrap.
- Runs.Run.Execute: bounded by a number of ticks, as nothing makes a worker exit; the bounds on a stop and a hang are proved for every life instead.
- Floating-point rounding and values that are not numbers; scores, variances and critical values are exact reals.
- Binding an objective to telemetry, and the checks of settle metrics and duty cycles before a search; a trial's score, and whether it settled, are whatever the runner answers.
- The cross-check of two renderings of a mutation report, their regular expressions and the running of the mutation tool; a report is its lists, headers, score and summary.
- Placement.AssignCpus: the product of slot and threads is unbounded, where the code's wraps at the size of a pointer.
- Memory.CheckMemory: judges a schedule as carried out; a Switch that is dropped or refused is not followed.
