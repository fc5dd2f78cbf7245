/** The dashboard's chart geometry: the pie chart's arcs and offsets
    (`getPieChartData`), the category bars, each course card's rounded
    average, and the descending sort of each course's faculty for display. */
module Charts {
  import opened Common
  import opened Dataset
  import opened Performance
  import opened StableSort
  import opened FilterView
  import opened Statistics

  /** Where each arc starts along the circle's circumference. */
  datatype Offsets = Offsets(excellent: real, good: real, average: real, needsImprovement: real)

  /** Arc lengths per category, the circumference, and the arcs' offsets. */
  datatype Pie = Pie(excellent: real, good: real, average: real, needsImprovement: real,
                     totalCircumference: real, offsets: Offsets)

  /** A category's share of the circumference. */
  function Arc(count: nat, total: nat, circumference: real): real
    requires total > 0
  {
    (count as real / total as real) * circumference
  }

  /** `getPieChartData`; `circumference` stands for `2 * Math.PI * 80`. */
  function PieChart(stats: Option<Stats>, circumference: real): (p: Option<Pie>)
    ensures p.None? <==> stats.None? || stats.value.totalFaculty == 0
    ensures p.Some? ==> p.value.totalCircumference == circumference
  {
    if stats.None? then None
    else
      var total := stats.value.totalFaculty;
      if total == 0 then None
      else
        var k := stats.value.byScore;
        var excellent := Arc(k.excellent, total, circumference);
        var good := Arc(k.good, total, circumference);
        var average := Arc(k.average, total, circumference);
        var needsImprovement := Arc(k.needsImprovement, total, circumference);
        Some(Pie(excellent, good, average, needsImprovement, circumference,
                 Offsets(0.0, excellent, excellent + good, excellent + good + average)))
  }

  function ArcsTotal(p: Pie): real {
    p.excellent + p.good + p.average + p.needsImprovement
  }

  lemma ShareSum(a: nat, b: nat, c: nat, d: nat, t: nat, circumference: real)
    requires t > 0 && a + b + c + d == t
    ensures Arc(a, t, circumference) + Arc(b, t, circumference) + Arc(c, t, circumference) + Arc(d, t, circumference) == circumference
  {
  }

  lemma FractionBounds(a: real, b: real)
    requires 0.0 <= a <= b && b > 0.0
    ensures 0.0 <= a / b <= 1.0
  {
  }

  lemma ScaleBounds(q: real, c: real)
    requires 0.0 <= q <= 1.0 && c >= 0.0
    ensures 0.0 <= q * c <= c
  {
  }

  lemma ShareBounds(count: nat, total: nat, circumference: real)
    requires total > 0 && count <= total && circumference >= 0.0
    ensures 0.0 <= Arc(count, total, circumference) <= circumference
  {
    FractionBounds(count as real, total as real);
    ScaleBounds(count as real / total as real, circumference);
  }

  /** The pie's geometry: each arc is its category's share of the
      circumference, the arcs start at 0 and follow one another, and when the
      counts add up to the total the four arcs fill the whole circle. */
  lemma PieGeometry(st: Stats, circumference: real)
    requires st.totalFaculty > 0
    ensures PieChart(Some(st), circumference).Some?
    ensures var p := PieChart(Some(st), circumference).value;
            && (forall c :: ArcOf(p, c) == Arc(CountFor(st.byScore, c), st.totalFaculty, circumference))
            && p.offsets.excellent == 0.0
            && p.offsets.good == p.offsets.excellent + p.excellent
            && p.offsets.average == p.offsets.good + p.good
            && p.offsets.needsImprovement == p.offsets.average + p.average
    ensures CountsTotal(st.byScore) == st.totalFaculty ==>
              var p := PieChart(Some(st), circumference).value;
              ArcsTotal(p) == circumference && p.offsets.needsImprovement + p.needsImprovement == circumference
  {
    var k := st.byScore;
    if CountsTotal(k) == st.totalFaculty {
      ShareSum(k.excellent, k.good, k.average, k.needsImprovement, st.totalFaculty, circumference);
    }
  }

  function ArcOf(p: Pie, c: Category): real {
    match c
    case Excellent => p.excellent
    case Good => p.good
    case Average => p.average
    case NeedsImprovement => p.needsImprovement
  }

  /** For the statistics of a non-empty view the pie exists, its arcs fill
      the circle, and with a non-negative circumference no arc is negative or
      longer than the circle. */
  lemma PieOfStatistics(s: seq<real>, circumference: real)
    requires |s| > 0
    ensures PieChart(Some(StatsOf(s)), circumference).Some?
    ensures ArcsTotal(PieChart(Some(StatsOf(s)), circumference).value) == circumference
    ensures circumference >= 0.0 ==>
              forall c :: 0.0 <= ArcOf(PieChart(Some(StatsOf(s)), circumference).value, c) <= circumference
  {
    var st := StatsOf(s);
    StatsShape(s);
    PieGeometry(st, circumference);
    if circumference >= 0.0 {
      forall c ensures 0.0 <= ArcOf(PieChart(Some(st), circumference).value, c) <= circumference {
        assert CountFor(st.byScore, c) <= st.totalFaculty;
        ShareBounds(CountFor(st.byScore, c), st.totalFaculty, circumference);
      }
    }
  }

  /** The bar's `width`: `count / total * 100` percent, the category's share
      of 100 as the pie takes it of the circle; 0 when there is no faculty,
      and within [0, 100] when the count is part of the total. */
  function BarWidth(count: nat, total: nat): (w: real)
    ensures total == 0 ==> w == 0.0
    ensures total > 0 ==> w == Arc(count, total, 100.0)
    ensures count <= total ==> 0.0 <= w <= 100.0
  {
    if total == 0 then 0.0
    else
      assert count <= total ==> 0.0 <= Arc(count, total, 100.0) <= 100.0 by {
        if count <= total {
          ShareBounds(count, total, 100.0);
        }
      }
      Arc(count, total, 100.0)
  }

  lemma LabelBounds(count: nat, total: nat)
    requires total > 0
    ensures count <= total ==> 0 <= Round(BarWidth(count, total)) <= 100
  {
  }

  /** The bar's label: `Math.round` of the width, 0 when there is no faculty. */
  function BarPercentage(count: nat, total: nat): (p: int)
    ensures total == 0 ==> p == 0
    ensures count <= total ==> 0 <= p <= 100
  {
    if total > 0 then
      LabelBounds(count, total);
      Round(BarWidth(count, total))
    else 0
  }

  /** A larger count never gets a smaller label, and the whole gets 100. */
  lemma BarPercentageMonotone(c1: nat, c2: nat, total: nat)
    requires c1 <= c2
    ensures BarPercentage(c1, total) <= BarPercentage(c2, total)
    ensures total > 0 ==> BarPercentage(total, total) == 100
  {
    if total > 0 {
      var t := total as real;
      assert c1 as real / t <= c2 as real / t;
      RoundMonotone(BarWidth(c1, total), BarWidth(c2, total));
      assert total as real / t == 1.0;
      RoundWhole(100);
    }
  }

  /** When the counts add up to the total, the four bars' widths add up to 100%. */
  lemma BarWidthsSum(k: Counts, total: nat)
    requires total > 0 && CountsTotal(k) == total
    ensures BarWidth(k.excellent, total) + BarWidth(k.good, total) + BarWidth(k.average, total) + BarWidth(k.needsImprovement, total) == 100.0
  {
    ShareSum(k.excellent, k.good, k.average, k.needsImprovement, total, 100.0);
  }

  /** Each bar label of the statistics lies in [0, 100]. */
  lemma StatsBars(s: seq<real>, c: Category)
    ensures 0 <= BarPercentage(CountFor(StatsOf(s).byScore, c), StatsOf(s).totalFaculty) <= 100
  {
    StatsShape(s);
  }

  /** `courseAvg`: the rounded mean of the course's (defaulted) scores, 0 for
      a course without faculty; it is the statistics' average of the course's
      scores and lies between their rounded lowest and highest. */
  function CourseAverage(c: Course): (avg: int)
    ensures avg == StatsOf(Scores(c.faculties)).averageScore
    ensures |c.faculties| > 0 ==>
              Round(StatsOf(Scores(c.faculties)).minScore) <= avg <= Round(StatsOf(Scores(c.faculties)).maxScore)
  {
    if |c.faculties| > 0 then
      StatsRoundedMean(Scores(c.faculties));
      Round(Sum(Scores(c.faculties)) / (|c.faculties| as real))
    else 0
  }

  /** The course card's average is what `getStatistics` reports for a view
      holding that one course. */
  lemma CourseAverageAgrees(c: Course)
    ensures CourseAverage(c) == StatsOf(Scores(Flatten([c]))).averageScore
  {
    FlattenSingle(c);
  }

  /** The lowest and highest scores bound every score of the course. */
  lemma CourseExtremes(c: Course)
    requires |c.faculties| > 0
    ensures forall i :: 0 <= i < |c.faculties| ==>
              StatsOf(Scores(c.faculties)).minScore <= ScoreOf(c.faculties[i]) <= StatsOf(Scores(c.faculties)).maxScore
  {
    var s := Scores(c.faculties);
    assert forall i :: 0 <= i < |c.faculties| ==> s[i] == ScoreOf(c.faculties[i]);
  }

  /** `course.faculties.sort((a, b) => (b.overall_score || 0) - (a.overall_score || 0))`:
      the faculty in non-increasing score order, a permutation of the old list,
      equal scores in their old order. */
  method SortForDisplay(a: array<Faculty>)
    modifies a
    ensures a[..] == SortBy(old(a[..]), ScoreOf, Descending)
    ensures Sorted(a[..], ScoreOf, Descending)
    ensures multiset(a[..]) == multiset(old(a[..]))
  {
    SortInPlace(a, ScoreOf, Descending);
    SortBySorted(old(a[..]), ScoreOf, Descending);
    SortByPermutation(old(a[..]), ScoreOf, Descending);
  }

  /** The display order of a course's faculty: sorted, a permutation, stable. */
  lemma DisplayOrder(fs: seq<Faculty>, k: real)
    ensures Sorted(SortBy(fs, ScoreOf, Descending), ScoreOf, Descending)
    ensures multiset(SortBy(fs, ScoreOf, Descending)) == multiset(fs)
    ensures WithKey(SortBy(fs, ScoreOf, Descending), ScoreOf, k) == WithKey(fs, ScoreOf, k)
  {
    SortBySorted(fs, ScoreOf, Descending);
    SortByPermutation(fs, ScoreOf, Descending);
    SortByStable(fs, ScoreOf, Descending, k);
  }

  /** One render of the dashboard's derived data: the filtered view, its
      statistics and the pie chart, computed in that order. */
  method Dashboard(data: Option<seq<Course>>, mode: Mode, circumference: real)
    returns (filtered: Option<seq<Course>>, stats: Option<Stats>, pie: Option<Pie>)
    ensures filtered.None? <==> data.None?
    ensures data.Some? ==> filtered.value == View(data.value, mode)
    ensures data.Some? ==> stats == Some(StatsOf(Scores(Flatten(View(data.value, mode)))))
    ensures data.None? ==> stats.None?
    ensures pie == PieChart(stats, circumference)
    ensures pie.Some? ==> ArcsTotal(pie.value) == circumference
  {
    filtered := GetFilteredData(data, mode);
    stats := GetStatistics(data, filtered);
    pie := PieChart(stats, circumference);
    if pie.Some? {
      StatsShape(Scores(Flatten(View(data.value, mode))));
      PieGeometry(stats.value, circumference);
    }
  }
}
