/** `getFilteredData`: the list of courses the dashboard shows for the
    selected performance mode. */
module FilterView {
  import opened Common
  import opened Dataset
  import opened Performance
  import opened StableSort
  import opened CategoryFilter
  import opened Ranking
  import opened Grouping

  /** The view for a mode: `highest` and `lowest` regroup the ten best or
      worst records of the whole data set, every other mode filters by category. */
  function View(cs: seq<Course>, m: Mode): (view: seq<Course>)
    ensures forall i :: 0 <= i < |view| ==> |view[i].faculties| > 0
    ensures m == Highest || m == Lowest ==> |view| <= RankLimit
    ensures m != Highest && m != Lowest ==> |view| <= |cs|
  {
    if m == Highest then
      RegroupNonEmpty(TopRanked(cs, Descending));
      Regroup(TopRanked(cs, Descending))
    else if m == Lowest then
      RegroupNonEmpty(TopRanked(cs, Ascending));
      Regroup(TopRanked(cs, Ascending))
    else CategoryView(cs, m)
  }

  /** The ranked view holds exactly the ranked records, min(10, all records)
      of them, one group per code holding that code's ranked records in order. */
  lemma RankedViewContents(cs: seq<Course>, dir: Direction)
    ensures multiset(Flatten(Regroup(TopRanked(cs, dir)))) == multiset(FacultiesOf(TopRanked(cs, dir)))
    ensures |Flatten(Regroup(TopRanked(cs, dir)))| == if |Flatten(cs)| < RankLimit then |Flatten(cs)| else RankLimit
    ensures Distinct(Codes(Regroup(TopRanked(cs, dir))))
    ensures forall i :: 0 <= i < |Regroup(TopRanked(cs, dir))| ==>
              Regroup(TopRanked(cs, dir))[i].faculties == MembersWithCode(TopRanked(cs, dir), Regroup(TopRanked(cs, dir))[i].code)
  {
    var top := TopRanked(cs, dir);
    RegroupProperties(top);
    assert |multiset(Flatten(Regroup(top)))| == |multiset(FacultiesOf(top))|;
  }

  /** The ranking path of `getFilteredData`: collect, sort in place, take ten,
      group back by course. */
  method RankedView(courses: seq<Course>, dir: Direction) returns (groups: seq<Course>)
    ensures groups == Regroup(TopRanked(courses, dir))
  {
    var all := CollectRanked(courses);
    var a := new Ranked[|all|](k requires 0 <= k < |all| => all[k]);
    assert a[..] == all;
    SortInPlace(a, RankedScore, dir);
    var top := a[..if a.Length < RankLimit then a.Length else RankLimit];
    groups := GroupByCourse(top);
  }

  /** `getFilteredData`: `null` without loaded courses, otherwise the view. */
  method GetFilteredData(data: Option<seq<Course>>, mode: Mode) returns (filtered: Option<seq<Course>>)
    ensures filtered.None? <==> data.None?
    ensures data.Some? ==> filtered.value == View(data.value, mode)
  {
    if data.None? {
      return None;
    }
    var courses := CategoryView(data.value, mode);
    if mode == Highest || mode == Lowest {
      courses := RankedView(data.value, if mode == Highest then Descending else Ascending);
    }
    return Some(courses);
  }
}
