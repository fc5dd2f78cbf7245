/** The ranking path of `getFilteredData` up to the slice: every faculty
    record of every (unfiltered) course is pushed into `allFaculty` tagged
    with its course, sorted stably by score, and cut to the first ten. */
module Ranking {
  import opened Dataset
  import opened StableSort

  /** `allFaculty.slice(0, 10)`. */
  const RankLimit: nat := 10

  /** `{ ...faculty, course_code, course_name }`: a record tagged with its course. */
  datatype Ranked = Ranked(faculty: Faculty, code: string, name: string)

  /** The sort key `overall_score || 0`. */
  function RankedScore(r: Ranked): real {
    ScoreOf(r.faculty)
  }

  function Tagged(c: Course): (r: seq<Ranked>)
    ensures |r| == |c.faculties|
  {
    seq(|c.faculties|, k requires 0 <= k < |c.faculties| => Ranked(c.faculties[k], c.code, c.name))
  }

  /** All records of all courses, course after course, each tagged. */
  function TagAll(cs: seq<Course>): seq<Ranked> {
    if cs == [] then [] else TagAll(cs[..|cs| - 1]) + Tagged(cs[|cs| - 1])
  }

  function FacultiesOf(rs: seq<Ranked>): (fs: seq<Faculty>)
    ensures |fs| == |rs|
  {
    seq(|rs|, k requires 0 <= k < |rs| => rs[k].faculty)
  }

  lemma FacultiesOfAppend(rs: seq<Ranked>, e: Ranked)
    ensures FacultiesOf(rs + [e]) == FacultiesOf(rs) + [e.faculty]
  {
    var a, b := FacultiesOf(rs + [e]), FacultiesOf(rs) + [e.faculty];
    forall k | 0 <= k < |a| ensures a[k] == b[k] {
      if k < |rs| {
        assert (rs + [e])[k] == rs[k];
      }
    }
  }

  /** Tagging loses nothing and reorders nothing. */
  lemma {:induction false} TagAllFaculties(cs: seq<Course>)
    ensures FacultiesOf(TagAll(cs)) == Flatten(cs)
    ensures |TagAll(cs)| == |Flatten(cs)|
    decreases |cs|
  {
    if cs != [] {
      var cs', last := cs[..|cs| - 1], cs[|cs| - 1];
      TagAllFaculties(cs');
      assert FacultiesOf(TagAll(cs') + Tagged(last)) == FacultiesOf(TagAll(cs')) + last.faculties;
    }
  }

  /** Every tagged record carries the code and name of the course it came from. */
  lemma {:induction false} TagAllTags(cs: seq<Course>, k: nat)
    requires k < |TagAll(cs)|
    ensures exists i :: (0 <= i < |cs| && TagAll(cs)[k].code == cs[i].code && TagAll(cs)[k].name == cs[i].name
                         && TagAll(cs)[k].faculty in cs[i].faculties)
    decreases |cs|
  {
    var cs', last := cs[..|cs| - 1], cs[|cs| - 1];
    if k < |TagAll(cs')| {
      TagAllTags(cs', k);
      var i :| 0 <= i < |cs'| && TagAll(cs')[k].code == cs'[i].code && TagAll(cs')[k].name == cs'[i].name
               && TagAll(cs')[k].faculty in cs'[i].faculties;
      assert cs[i] == cs'[i];
    } else {
      var j := k - |TagAll(cs')|;
      assert TagAll(cs)[k] == Tagged(last)[j];
      assert cs[|cs| - 1] == last;
    }
  }

  function Top<T>(s: seq<T>): (r: seq<T>)
    ensures |r| == if |s| < RankLimit then |s| else RankLimit
  {
    s[..if |s| < RankLimit then |s| else RankLimit]
  }

  /** The first ten records of the stable ranking of all tagged records. */
  /** The ranking: the records of every course, each tagged with its course,
      sorted by score and cut to the first ten; min(10, number of records) of them. */
  function TopRanked(cs: seq<Course>, dir: Direction): (top: seq<Ranked>)
    ensures |top| == if |Flatten(cs)| < RankLimit then |Flatten(cs)| else RankLimit
  {
    TagAllFaculties(cs);
    SortByPermutation(TagAll(cs), RankedScore, dir);
    Top(SortBy(TagAll(cs), RankedScore, dir))
  }

  lemma {:induction false} WithKeyPrefix<T>(s: seq<T>, key: T -> real, k: real, n: nat)
    requires n <= |s|
    ensures WithKey(s[..n], key, k) <= WithKey(s, key, k)
    decreases |s|
  {
    if n < |s| {
      assert s[..n] == s[..|s| - 1][..n];
      WithKeyPrefix(s[..|s| - 1], key, k, n);
    } else {
      assert s[..n] == s;
    }
  }

  /** The taken records are in score order: non-increasing for `highest`,
      non-decreasing for `lowest`. */
  lemma TopRankedSorted(cs: seq<Course>, dir: Direction)
    ensures Sorted(TopRanked(cs, dir), RankedScore, dir)
  {
    SortBySorted(TagAll(cs), RankedScore, dir);
  }

  /** In a sorted sequence, nothing after a prefix beats anything in it. */
  lemma SortedPrefixIsBest<T>(sorted: seq<T>, n: nat, key: T -> real, dir: Direction)
    requires n <= |sorted| && Sorted(sorted, key, dir)
    ensures multiset(sorted[..n]) <= multiset(sorted)
    ensures forall e, i :: e in multiset(sorted) - multiset(sorted[..n]) && 0 <= i < n
              ==> InOrder(key(sorted[i]), key(e), dir)
  {
    var r, rest := sorted[..n], sorted[n..];
    assert sorted == r + rest;
    assert multiset(sorted) == multiset(r) + multiset(rest);
    forall e, i | e in multiset(sorted) - multiset(r) && 0 <= i < n
      ensures InOrder(key(sorted[i]), key(e), dir)
    {
      assert e in multiset(rest);
      var j :| 0 <= j < |rest| && rest[j] == e;
      assert sorted[n + j] == e;
    }
  }

  /** The taken records come from the data, and no record left out beats a
      record taken. */
  lemma TopRankedIsBest(cs: seq<Course>, dir: Direction)
    ensures multiset(TopRanked(cs, dir)) <= multiset(TagAll(cs))
    ensures forall e, i :: e in multiset(TagAll(cs)) - multiset(TopRanked(cs, dir)) && 0 <= i < |TopRanked(cs, dir)|
              ==> InOrder(RankedScore(TopRanked(cs, dir)[i]), RankedScore(e), dir)
  {
    var all := TagAll(cs);
    var sorted := SortBy(all, RankedScore, dir);
    SortByPermutation(all, RankedScore, dir);
    SortBySorted(all, RankedScore, dir);
    SortedPrefixIsBest(sorted, |TopRanked(cs, dir)|, RankedScore, dir);
  }

  /** Ties keep flatten order: for every score, the taken records with that
      score are the first ones with that score in flatten order, in order. */
  lemma TopRankedStable(cs: seq<Course>, dir: Direction, k: real)
    ensures WithKey(TopRanked(cs, dir), RankedScore, k) <= WithKey(TagAll(cs), RankedScore, k)
  {
    var sorted := SortBy(TagAll(cs), RankedScore, dir);
    WithKeyPrefix(sorted, RankedScore, k, |TopRanked(cs, dir)|);
    SortByStable(TagAll(cs), RankedScore, dir, k);
  }

  /** The `forEach` pushes that build `allFaculty`. */
  method CollectRanked(courses: seq<Course>) returns (all: seq<Ranked>)
    ensures all == TagAll(courses)
  {
    all := [];
    var i := 0;
    while i < |courses|
      invariant 0 <= i <= |courses|
      invariant all == TagAll(courses[..i])
    {
      var course := courses[i];
      var j := 0;
      while j < |course.faculties|
        invariant 0 <= j <= |course.faculties|
        invariant all == TagAll(courses[..i]) + Tagged(course)[..j]
      {
        all := all + [Ranked(course.faculties[j], course.code, course.name)];
        assert Tagged(course)[..j + 1] == Tagged(course)[..j] + [Tagged(course)[j]];
        j := j + 1;
      }
      assert courses[..i + 1][..i] == courses[..i];
      assert Tagged(course)[..j] == Tagged(course);
      i := i + 1;
    }
    assert courses[..i] == courses;
  }
}
