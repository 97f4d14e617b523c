/**
 * The bookkeeping of `train_agent` around each episode: the score history, the epsilon
 * schedule and the plateau counter that stops training early. What one episode scores is
 * an input here (a sequence with one score per episode the loop may run).
 */
module Training {

  const MaxEpisodes: int := 10000
  /** Consecutive checks without improvement that stop training (PLATEAU_CHECKS). */
  const PlateauChecks: int := 5
  /** Scores averaged at a check; the average always divides by this many (written 100.0 below). */
  const Window: int := 100
  /** Improvement of the average below which a check counts as a plateau. */
  const MinGain: real := 0.1
  const EpsilonStart: real := 1.0
  const EpsilonMin: real := 0.01

  /** The plateau loop variables of `train_agent` after some episodes; `stopped` is the `break`. */
  datatype Progress = Progress(scores: seq<int>, bestAvg: real, plateauCount: int, stopped: bool)

  /** The values before the first episode. */
  function Start(): Progress {
    Progress([], 0.0, 0, false)
  }

  /** `max(EPSILON_MIN, epsilon * EPSILON_DECAY)`, the decay factor being 0.995. */
  function Decay(eps: real): (r: real)
    ensures r >= EpsilonMin
    ensures r == EpsilonMin || r == eps * 0.995
    ensures r >= eps * 0.995
    ensures EpsilonMin <= eps ==> r <= eps
    ensures EpsilonMin < eps ==> r < eps
  {
    if EpsilonMin >= eps * 0.995 then EpsilonMin else eps * 0.995
  }

  /** Epsilon once `n` episodes have ended: decayed once per episode from EpsilonStart. */
  function EpsilonAfter(n: nat): real {
    if n == 0 then EpsilonStart else Decay(EpsilonAfter(n - 1))
  }

  /** The sum of `s[lo..hi]`. */
  function Sum(s: seq<int>, lo: int, hi: int): int
    requires 0 <= lo <= hi <= |s|
    decreases hi - lo
  {
    if lo == hi then 0 else Sum(s, lo, hi - 1) + s[hi - 1]
  }

  /** Where `scores[-100:]` starts: the last Window scores, or all of them when there are fewer. */
  function WindowStart(s: seq<int>): (lo: int)
    ensures 0 <= lo <= |s| && |s| - lo == if |s| < Window then |s| else Window
  {
    if |s| < Window then 0 else |s| - Window
  }

  /** `sum(scores[-100:])`. */
  function RecentSum(s: seq<int>): int {
    Sum(s, WindowStart(s), |s|)
  }

  /** `sum(scores[-100:]) / 100`, in exact arithmetic. */
  function RecentAverage(s: seq<int>): real {
    RecentSum(s) as real / 100.0
  }

  /** Episode `episode` (counted from 0) ends with a plateau check, one every CHECK_INTERVAL = 500 episodes. */
  predicate IsCheckpoint(episode: int) {
    (episode + 1) % 500 == 0 && episode > 0
  }

  /** The plateau work after episode `episode` with score `score`. */
  function EndEpisode(p: Progress, episode: int, score: int): (q: Progress)
    ensures q.scores == p.scores + [score]
    ensures q.bestAvg >= p.bestAvg
    ensures !IsCheckpoint(episode) ==>
              q.bestAvg == p.bestAvg && q.plateauCount == p.plateauCount && !q.stopped
    ensures IsCheckpoint(episode) ==>
              if RecentAverage(q.scores) - p.bestAvg < MinGain
              then q.bestAvg == p.bestAvg && q.plateauCount == p.plateauCount + 1
                   && (q.stopped <==> q.plateauCount >= PlateauChecks)
              else q.bestAvg == RecentAverage(q.scores) && q.plateauCount == 0 && !q.stopped
  {
    var scores := p.scores + [score];
    if !IsCheckpoint(episode) then
      Progress(scores, p.bestAvg, p.plateauCount, false)
    else
      var recentAvg := RecentAverage(scores);
      if recentAvg - p.bestAvg < MinGain then
        var count := p.plateauCount + 1;
        Progress(scores, p.bestAvg, count, count >= PlateauChecks)
      else
        Progress(scores, recentAvg, 0, false)
  }

  /** The loop variables once episodes 0 .. n-1 of `es` have run, or fewer if the loop broke. */
  function Run(es: seq<int>, n: nat): Progress
    requires n <= |es|
  {
    if n == 0 then Start()
    else
      var p := Run(es, n - 1);
      if p.stopped then p else EndEpisode(p, n - 1, es[n - 1])
  }

  /**
   * The bookkeeping of `train_agent`, with `es[e]` the score episode `e` ends with:
   * the returned values are those of Run over all episodes, and epsilon has decayed once
   * per episode run.
   */
  method Train(es: seq<int>) returns (scores: seq<int>, epsilon: real, bestAvg: real, plateauCount: int, stoppedEarly: bool)
    requires |es| == MaxEpisodes
    ensures Progress(scores, bestAvg, plateauCount, stoppedEarly) == Run(es, MaxEpisodes)
    ensures epsilon == EpsilonAfter(|scores|)
  {
    scores := [];
    epsilon := EpsilonStart;
    bestAvg := 0.0;
    plateauCount := 0;
    stoppedEarly := false;
    var episode := 0;
    while episode < MaxEpisodes
      invariant 0 <= episode <= MaxEpisodes
      invariant Run(es, episode) == Progress(scores, bestAvg, plateauCount, false)
      invariant |scores| == episode && epsilon == EpsilonAfter(episode)
    {
      scores := scores + [es[episode]];
      if EpsilonMin >= epsilon * 0.995 {
        epsilon := EpsilonMin;
      } else {
        epsilon := epsilon * 0.995;
      }
      if (episode + 1) % 500 == 0 && episode > 0 {
        var recentAvg := RecentSum(scores) as real / 100.0;
        if recentAvg - bestAvg < MinGain {
          plateauCount := plateauCount + 1;
          if plateauCount >= PlateauChecks {
            stoppedEarly := true;
            RunStaysStopped(es, episode + 1, MaxEpisodes);
            return;
          }
        } else {
          bestAvg := recentAvg;
          plateauCount := 0;
        }
      }
      episode := episode + 1;
    }
  }

  // ---------------------------------------------------------------- properties of Run

  /** Once the loop has broken, further episodes change nothing. */
  lemma {:induction false} RunStaysStopped(es: seq<int>, m: nat, n: nat)
    requires m <= n <= |es| && Run(es, m).stopped
    ensures Run(es, n) == Run(es, m)
    decreases n - m
  {
    if m < n {
      RunStaysStopped(es, m, n - 1);
    }
  }

  /** The history is the scores of the episodes run so far, one per episode until the break. */
  lemma {:induction false} RunScoresArePrefix(es: seq<int>, n: nat)
    requires n <= |es|
    ensures var p := Run(es, n);
            && |p.scores| <= n
            && p.scores == es[..|p.scores|]
            && (!p.stopped ==> |p.scores| == n)
  {
    if n > 0 {
      RunScoresArePrefix(es, n - 1);
      var p := Run(es, n - 1);
      if !p.stopped {
        assert es[..n] == es[..n - 1] + [es[n - 1]];
      }
    }
  }

  /** The counter never passes PlateauChecks, and the loop has broken exactly when it got there. */
  lemma {:induction false} RunPlateauBound(es: seq<int>, n: nat)
    requires n <= |es|
    ensures 0 <= Run(es, n).plateauCount <= PlateauChecks
    ensures Run(es, n).stopped <==> Run(es, n).plateauCount == PlateauChecks
  {
    if n > 0 {
      RunPlateauBound(es, n - 1);
    }
  }

  /** `best_avg` starts at 0 and never decreases. */
  lemma {:induction false} BestAverageNeverDecreases(es: seq<int>, m: nat, n: nat)
    requires m <= n <= |es|
    ensures Run(es, m).bestAvg <= Run(es, n).bestAvg
    ensures Run(es, n).bestAvg >= 0.0
    decreases n
  {
    if n > 0 {
      BestAverageNeverDecreases(es, if m == n then m - 1 else m, n - 1);
    }
  }

  /** Epsilon starts at 1, never rises and never drops below its floor, and falls strictly while above it. */
  lemma {:induction false} EpsilonStaysInRange(n: nat)
    ensures EpsilonMin <= EpsilonAfter(n) <= EpsilonStart
    ensures EpsilonAfter(n + 1) <= EpsilonAfter(n)
    ensures EpsilonAfter(n) > EpsilonMin ==> EpsilonAfter(n + 1) < EpsilonAfter(n)
  {
    if n > 0 {
      EpsilonStaysInRange(n - 1);
    }
  }

  /**
   * One plateau check at most per 500 episodes: the counter is bounded by the number of
   * checks so far, so the loop can only break at a check and not before
   * PlateauChecks * 500 = 2500 episodes.
   */
  lemma {:induction false} PlateauNeedsChecks(es: seq<int>, n: nat)
    requires n <= |es|
    ensures Run(es, n).plateauCount <= |Run(es, n).scores| / 500
    ensures Run(es, n).stopped ==> |Run(es, n).scores| % 500 == 0 && |Run(es, n).scores| >= 2500
  {
    RunPlateauBound(es, n);
    if n > 0 {
      PlateauNeedsChecks(es, n - 1);
      RunScoresArePrefix(es, n - 1);
      var p := Run(es, n - 1);
      if !p.stopped {
        var q := EndEpisode(p, n - 1, es[n - 1]);
        assert Run(es, n) == q;
        assert |q.scores| == n;
        if IsCheckpoint(n - 1) {
          assert (n - 1) / 500 == n / 500 - 1;
        } else {
          assert (n - 1) / 500 <= n / 500;
        }
      }
    }
  }

  /** `k` hundredths. */
  function Hundredths(k: int): real {
    k as real / 100.0
  }

  /** The best average is always a whole number of hundredths (0 or some `sum / 100`). */
  lemma {:induction false} BestAverageIsHundredths(es: seq<int>, n: nat)
    requires n <= |es|
    ensures exists k: int :: Run(es, n).bestAvg == Hundredths(k)
  {
    if n == 0 {
      assert Run(es, n).bestAvg == Hundredths(0);
    } else {
      BestAverageIsHundredths(es, n - 1);
      var p := Run(es, n - 1);
      if !p.stopped {
        var q := Run(es, n);
        if q.bestAvg != p.bestAvg {
          assert q.bestAvg == Hundredths(RecentSum(q.scores));
        }
      }
    }
  }

  /** The plateau test in integers: with a best average of k hundredths, it fails to improve iff the window sum is below k + 10. */
  lemma PlateauTestInIntegers(s: seq<int>, k: int)
    ensures RecentAverage(s) - Hundredths(k) < MinGain <==> RecentSum(s) - k < 10
  {
    var d := RecentSum(s) - k;
    assert RecentAverage(s) - Hundredths(k) == Hundredths(d);
  }

  // ---------------------------------------------------------------- a run that stops

  predicate AllZero(s: seq<int>) {
    forall i :: 0 <= i < |s| ==> s[i] == 0
  }

  lemma {:induction false} SumOfZeros(s: seq<int>, lo: int, hi: int)
    requires 0 <= lo <= hi <= |s| && AllZero(s)
    ensures Sum(s, lo, hi) == 0
    decreases hi - lo
  {
    if lo < hi {
      SumOfZeros(s, lo, hi - 1);
    }
  }

  /** An agent that never scores gets one plateau per check and stops after 2500 episodes, the earliest possible. */
  lemma {:induction false} ZeroScoresStopAtFirstChance(es: seq<int>, n: nat)
    requires |es| == MaxEpisodes && AllZero(es) && n <= 2500
    ensures Run(es, n).scores == es[..n]
    ensures Run(es, n).bestAvg == 0.0
    ensures Run(es, n).plateauCount == n / 500
    ensures Run(es, n).stopped <==> n == 2500
  {
    if n > 0 {
      ZeroScoresStopAtFirstChance(es, n - 1);
      var p := Run(es, n - 1);
      var scores := es[..n];
      assert p.scores + [es[n - 1]] == scores;
      assert AllZero(scores);
      SumOfZeros(scores, WindowStart(scores), n);
      assert RecentAverage(scores) == 0.0;
      var q := EndEpisode(p, n - 1, es[n - 1]);
      assert Run(es, n) == q;
      if IsCheckpoint(n - 1) {
        assert (n - 1) / 500 == n / 500 - 1;
      } else {
        assert (n - 1) / 500 == n / 500;
      }
    }
  }
}
