/** `getStatistics`: the number of faculty records in the view, their
    rounded mean score, the extreme scores and the count per category. */
module Statistics {
  import opened Common
  import opened Dataset
  import opened Performance
  import opened StableSort
  import opened CategoryFilter
  import opened Ranking
  import opened FilterView

  /** `facultyByScore`. */
  datatype Counts = Counts(excellent: nat, good: nat, average: nat, needsImprovement: nat)

  datatype Stats = Stats(totalFaculty: nat, averageScore: int, maxScore: real, minScore: real, byScore: Counts)

  function CountFor(k: Counts, c: Category): nat {
    match c
    case Excellent => k.excellent
    case Good => k.good
    case Average => k.average
    case NeedsImprovement => k.needsImprovement
  }

  function CountsTotal(k: Counts): nat {
    k.excellent + k.good + k.average + k.needsImprovement
  }

  /** One `facultyByScore.<category>++`. */
  function Bump(k: Counts, c: Category): (r: Counts)
    ensures CountFor(r, c) == CountFor(k, c) + 1
    ensures forall d :: d != c ==> CountFor(r, d) == CountFor(k, d)
    ensures CountsTotal(r) == CountsTotal(k) + 1
  {
    match c
    case Excellent => k.(excellent := k.excellent + 1)
    case Good => k.(good := k.good + 1)
    case Average => k.(average := k.average + 1)
    case NeedsImprovement => k.(needsImprovement := k.needsImprovement + 1)
  }

  /** The counters after classifying every score of `s`. */
  function Tally(s: seq<real>): Counts {
    if s == [] then Counts(0, 0, 0, 0) else Bump(Tally(s[..|s| - 1]), Classify(s[|s| - 1]))
  }

  /** The number of scores of `s` in category `c`, counted one by one. */
  function CountIn(s: seq<real>, c: Category): nat {
    if s == [] then 0 else CountIn(s[..|s| - 1], c) + (if Classify(s[|s| - 1]) == c then 1 else 0)
  }

  function Sum(s: seq<real>): real {
    if s == [] then 0.0 else Sum(s[..|s| - 1]) + s[|s| - 1]
  }

  /** `Math.max(...allScores)`. */
  function SeqMax(s: seq<real>): (m: real)
    requires |s| > 0
    ensures m in s
    ensures forall i :: 0 <= i < |s| ==> s[i] <= m
  {
    if |s| == 1 then s[0]
    else
      var m' := SeqMax(s[..|s| - 1]);
      assert forall i :: 0 <= i < |s| - 1 ==> s[i] == s[..|s| - 1][i];
      if s[|s| - 1] > m' then s[|s| - 1] else m'
  }

  /** `Math.min(...allScores)`. */
  function SeqMin(s: seq<real>): (m: real)
    requires |s| > 0
    ensures m in s
    ensures forall i :: 0 <= i < |s| ==> m <= s[i]
  {
    if |s| == 1 then s[0]
    else
      var m' := SeqMin(s[..|s| - 1]);
      assert forall i :: 0 <= i < |s| - 1 ==> s[i] == s[..|s| - 1][i];
      if s[|s| - 1] < m' then s[|s| - 1] else m'
  }

  /** The statistics of a list of (defaulted) scores: the total is the
      number of scores, the counters add up to it, the extremes are scores
      bounding all of them, and with no scores everything is 0. */
  function StatsOf(s: seq<real>): (st: Stats)
    ensures st.totalFaculty == |s|
    ensures CountsTotal(st.byScore) == |s|
    ensures |s| > 0 ==> st.maxScore in s && forall i :: 0 <= i < |s| ==> s[i] <= st.maxScore
    ensures |s| > 0 ==> st.minScore in s && forall i :: 0 <= i < |s| ==> st.minScore <= s[i]
    ensures |s| == 0 ==> st == Stats(0, 0, 0.0, 0.0, Counts(0, 0, 0, 0))
  {
    TallyTotal(s);
    Stats(|s|,
          if |s| > 0 then Round(Sum(s) / (|s| as real)) else 0,
          if |s| > 0 then SeqMax(s) else 0.0,
          if |s| > 0 then SeqMin(s) else 0.0,
          Tally(s))
  }

  /** The counter of each category is the number of scores in it. */
  lemma {:induction false} TallyCounts(s: seq<real>, c: Category)
    ensures CountFor(Tally(s), c) == CountIn(s, c)
    decreases |s|
  {
    if s != [] {
      TallyCounts(s[..|s| - 1], c);
    }
  }

  /** Every score is counted once: the four counters add up to the total. */
  lemma {:induction false} TallyTotal(s: seq<real>)
    ensures CountsTotal(Tally(s)) == |s|
    decreases |s|
  {
    if s != [] {
      TallyTotal(s[..|s| - 1]);
    }
  }

  /** When every score is in category `c`, all of them are counted there. */
  lemma {:induction false} TallyUniform(s: seq<real>, c: Category)
    requires forall i :: 0 <= i < |s| ==> Classify(s[i]) == c
    ensures CountIn(s, c) == |s|
    ensures forall d :: d != c ==> CountIn(s, d) == 0
    decreases |s|
  {
    if s != [] {
      TallyUniform(s[..|s| - 1], c);
    }
  }

  lemma {:induction false} SumBetween(s: seq<real>, lo: real, hi: real)
    requires forall i :: 0 <= i < |s| ==> lo <= s[i] <= hi
    ensures (|s| as real) * lo <= Sum(s) <= (|s| as real) * hi
    decreases |s|
  {
    if s != [] {
      SumBetween(s[..|s| - 1], lo, hi);
    }
  }

  /** The counter of each category in the statistics is the number of
      scores in that category. */
  lemma StatsShape(s: seq<real>)
    ensures forall c :: CountFor(StatsOf(s).byScore, c) == CountIn(s, c)
  {
    forall c ensures CountFor(StatsOf(s).byScore, c) == CountIn(s, c) {
      TallyCounts(s, c);
    }
  }

  lemma MeanBetween(sum: real, n: real, lo: real, hi: real)
    requires n > 0.0 && n * lo <= sum <= n * hi
    ensures lo <= sum / n <= hi
  {
  }

  /** A mean lies within any bounds of its scores. */
  lemma MeanWithin(s: seq<real>, lo: real, hi: real)
    requires |s| > 0
    requires forall i :: 0 <= i < |s| ==> lo <= s[i] <= hi
    ensures lo <= Sum(s) / (|s| as real) <= hi
  {
    SumBetween(s, lo, hi);
    MeanBetween(Sum(s), |s| as real, lo, hi);
  }

  /** With at least one score, the extremes bound the mean. */
  lemma StatsBounds(s: seq<real>)
    requires |s| > 0
    ensures StatsOf(s).minScore <= Sum(s) / (|s| as real) <= StatsOf(s).maxScore
  {
    MeanWithin(s, SeqMin(s), SeqMax(s));
  }

  /** The rounded mean lies between the rounded extremes. */
  lemma StatsRoundedMean(s: seq<real>)
    requires |s| > 0
    ensures Round(StatsOf(s).minScore) <= StatsOf(s).averageScore <= Round(StatsOf(s).maxScore)
  {
    var mean := Sum(s) / (|s| as real);
    StatsBounds(s);
    RoundMonotone(StatsOf(s).minScore, mean);
    RoundMonotone(mean, StatsOf(s).maxScore);
  }

  lemma TallyStep(s: seq<real>, x: real)
    ensures Tally(s + [x]) == Bump(Tally(s), Classify(x))
  {
    assert (s + [x])[..|s|] == s;
  }

  lemma ScoresStep(fs: seq<Faculty>, f: Faculty)
    ensures Scores(fs + [f]) == Scores(fs) + [ScoreOf(f)]
  {
  }

  /** The threshold chain of `getStatistics` that bumps one counter: the
      counter of the score's category goes up by one, the others stay. */
  method CountScore(byScore: Counts, score: real) returns (r: Counts)
    ensures r == Bump(byScore, Classify(score))
    ensures CountFor(r, Classify(score)) == CountFor(byScore, Classify(score)) + 1
  {
    if score >= 90.0 {
      r := byScore.(excellent := byScore.excellent + 1);
    } else if score >= 80.0 {
      r := byScore.(good := byScore.good + 1);
    } else if score >= 70.0 {
      r := byScore.(average := byScore.average + 1);
    } else {
      r := byScore.(needsImprovement := byScore.needsImprovement + 1);
    }
  }

  /** The data `getStatistics` works on: `filteredCourses || visualizationData.courses`. */
  function DataToUse(data: seq<Course>, filtered: Option<seq<Course>>): seq<Course> {
    if filtered.Some? then filtered.value else data
  }

  lemma PrefixScoresStep(pre: seq<real>, fs: seq<Faculty>, j: nat)
    requires j < |fs|
    ensures pre + Scores(fs[..j + 1]) == pre + Scores(fs[..j]) + [ScoreOf(fs[j])]
  {
  }

  /** The inner `course.faculties.forEach`: pushes each record's score and
      bumps its category's counter. */
  method AddCourse(allScores: seq<real>, byScore: Counts, fs: seq<Faculty>)
    returns (scores: seq<real>, counts: Counts)
    requires byScore == Tally(allScores)
    ensures scores == allScores + Scores(fs)
    ensures counts == Tally(scores)
  {
    scores, counts := allScores, byScore;
    var j := 0;
    while j < |fs|
      invariant 0 <= j <= |fs|
      invariant scores == allScores + Scores(fs[..j])
      invariant counts == Tally(scores)
    {
      var score := ScoreOf(fs[j]);
      TallyStep(scores, score);
      PrefixScoresStep(allScores, fs, j);
      scores := scores + [score];
      counts := CountScore(counts, score);
      j := j + 1;
    }
    assert fs[..j] == fs;
  }

  /** `getStatistics`: `null` without loaded courses; otherwise one pass over
      every record, pushing its score and bumping its category's counter. */
  method GetStatistics(data: Option<seq<Course>>, filtered: Option<seq<Course>>) returns (stats: Option<Stats>)
    ensures stats.None? <==> data.None?
    ensures data.Some? ==> stats.value == StatsOf(Scores(Flatten(DataToUse(data.value, filtered))))
  {
    if data.None? {
      return None;
    }
    var courses := if filtered.Some? then filtered.value else data.value;
    var allScores: seq<real> := [];
    var byScore := Counts(0, 0, 0, 0);
    var i := 0;
    while i < |courses|
      invariant 0 <= i <= |courses|
      invariant allScores == Scores(Flatten(courses[..i]))
      invariant byScore == Tally(allScores)
    {
      allScores, byScore := AddCourse(allScores, byScore, courses[i].faculties);
      assert courses[..i + 1][..i] == courses[..i];
      ScoresAppend(Flatten(courses[..i]), courses[i].faculties);
      i := i + 1;
    }
    assert courses[..i] == courses;
    var avgScore := if |allScores| > 0 then Round(Sum(allScores) / (|allScores| as real)) else 0;
    return Some(Stats(|allScores|, avgScore,
                      if |allScores| > 0 then SeqMax(allScores) else 0.0,
                      if |allScores| > 0 then SeqMin(allScores) else 0.0,
                      byScore));
  }

  /** Under a category mode every record of the view is in that category, so
      its counter equals the total and the other three are 0. */
  lemma CategoryViewStats(cs: seq<Course>, c: Category)
    ensures CountFor(StatsOf(Scores(Flatten(View(cs, Only(c))))).byScore, c) == |Flatten(View(cs, Only(c)))|
    ensures forall d :: d != c ==> CountFor(StatsOf(Scores(Flatten(View(cs, Only(c))))).byScore, d) == 0
  {
    var fs := Flatten(View(cs, Only(c)));
    var s := Scores(fs);
    CategoryViewFlatten(cs, Only(c));
    KeepIsFilter(Flatten(cs), Only(c));
    forall i | 0 <= i < |s| ensures Classify(s[i]) == c {
      assert fs[i] in multiset(fs);
      AcceptsAgreesWithClassify(fs[i], c);
    }
    TallyUniform(s, c);
    StatsShape(s);
  }

  /** Under `all`, and under a mode the filter does not know (its `default`
      branch), the statistics cover every record of the data, although
      courses without faculty are dropped from the view. */
  lemma AllViewStats(cs: seq<Course>, m: Mode)
    requires m == All || m.Other?
    ensures StatsOf(Scores(Flatten(View(cs, m)))) == StatsOf(Scores(Flatten(cs)))
  {
    CategoryViewFlatten(cs, m);
    KeepAll(Flatten(cs), m);
  }

  /** Under `highest` and `lowest` the statistics cover min(10, all records) records. */
  lemma RankedViewStats(cs: seq<Course>, m: Mode)
    requires m == Highest || m == Lowest
    ensures StatsOf(Scores(Flatten(View(cs, m)))).totalFaculty == if |Flatten(cs)| < RankLimit then |Flatten(cs)| else RankLimit
  {
    RankedViewContents(cs, if m == Highest then Descending else Ascending);
  }
}
