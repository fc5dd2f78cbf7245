/** The category path of `getFilteredData`: `courses.map(course => ({
    ...course, faculties: course.faculties.filter(...) }))` followed by
    `.filter(course => course.faculties.length > 0)`. */
module CategoryFilter {
  import opened Dataset
  import opened Performance

  /** `faculties.filter(f => filterFacultyByPerformance(f, mode))`. */
  function Keep(fs: seq<Faculty>, m: Mode): (kept: seq<Faculty>)
    ensures |kept| <= |fs|
    ensures forall i :: 0 <= i < |kept| ==> Accepts(kept[i], m)
  {
    if fs == [] then []
    else Keep(fs[..|fs| - 1], m) + (if Accepts(fs[|fs| - 1], m) then [fs[|fs| - 1]] else [])
  }

  /** Every course with its faculty list filtered (the `map` step). */
  function Restricted(cs: seq<Course>, m: Mode): (r: seq<Course>)
    ensures |r| == |cs|
  {
    seq(|cs|, i requires 0 <= i < |cs| => cs[i].(faculties := Keep(cs[i].faculties, m)))
  }

  /** The category view (the `filter(course => course.faculties.length > 0)` step). */
  function CategoryView(cs: seq<Course>, m: Mode): (view: seq<Course>)
    ensures |view| <= |cs|
    ensures forall i :: 0 <= i < |view| ==> |view[i].faculties| > 0
  {
    if cs == [] then []
    else
      var last := cs[|cs| - 1];
      var kept := Keep(last.faculties, m);
      CategoryView(cs[..|cs| - 1], m) + (if |kept| > 0 then [last.(faculties := kept)] else [])
  }

  /** `a` occurs in `b` in order, possibly with gaps. */
  predicate Subsequence<T(==)>(a: seq<T>, b: seq<T>) {
    if a == [] then true
    else if b == [] then false
    else (a[|a| - 1] == b[|b| - 1] && Subsequence(a[..|a| - 1], b[..|b| - 1]))
         || Subsequence(a, b[..|b| - 1])
  }

  lemma {:induction false} KeepAppend(a: seq<Faculty>, b: seq<Faculty>, m: Mode)
    ensures Keep(a + b, m) == Keep(a, m) + Keep(b, m)
    decreases |b|
  {
    if b == [] {
      assert a + b == a;
    } else {
      assert (a + b)[..|a + b| - 1] == a + b[..|b| - 1];
      KeepAppend(a, b[..|b| - 1], m);
    }
  }

  /** The filter keeps exactly the accepted records, in their original order:
      its result is a subsequence of the input holding every accepted record
      as often as the input does, and no other. */
  lemma {:induction false} KeepIsFilter(fs: seq<Faculty>, m: Mode)
    ensures Subsequence(Keep(fs, m), fs)
    ensures forall f :: multiset(Keep(fs, m))[f] == if Accepts(f, m) then multiset(fs)[f] else 0
    decreases |fs|
  {
    if fs != [] {
      var fs', x := fs[..|fs| - 1], fs[|fs| - 1];
      KeepIsFilter(fs', m);
      assert fs == fs' + [x];
      SubsequenceExtend(Keep(fs', m), fs', x, Accepts(x, m));
    }
    forall f ensures multiset(Keep(fs, m))[f] == if Accepts(f, m) then multiset(fs)[f] else 0 {
      KeepCount(fs, m, f);
    }
  }

  /** How often the filter keeps one record. */
  lemma {:induction false} KeepCount(fs: seq<Faculty>, m: Mode, f: Faculty)
    ensures multiset(Keep(fs, m))[f] == if Accepts(f, m) then multiset(fs)[f] else 0
    decreases |fs|
  {
    if fs != [] {
      var fs', x := fs[..|fs| - 1], fs[|fs| - 1];
      KeepCount(fs', m, f);
      assert fs == fs' + [x];
      assert multiset(fs) == multiset(fs') + multiset{x};
      var t := if Accepts(x, m) then [x] else [];
      assert multiset(Keep(fs, m)) == multiset(Keep(fs', m)) + multiset(t);
    }
  }

  lemma {:induction false} SubsequenceExtend<T>(a: seq<T>, b: seq<T>, x: T, taken: bool)
    requires Subsequence(a, b)
    ensures Subsequence(a + (if taken then [x] else []), b + [x])
  {
    var a' := a + (if taken then [x] else []);
    assert (b + [x])[..|b|] == b;
    if taken {
      assert a'[..|a'| - 1] == a;
    } else {
      assert a' == a;
      if a != [] {
        SubsequenceDropLast(a, b, x);
      }
    }
  }

  lemma {:induction false} SubsequenceDropLast<T>(a: seq<T>, b: seq<T>, x: T)
    requires Subsequence(a, b)
    ensures Subsequence(a, b + [x])
  {
  }

  /** The records of a category view are exactly the accepted records of the
      original data, in their original order. */
  lemma {:induction false} CategoryViewFlatten(cs: seq<Course>, m: Mode)
    ensures Flatten(CategoryView(cs, m)) == Keep(Flatten(cs), m)
    decreases |cs|
  {
    if cs != [] {
      var cs', last := cs[..|cs| - 1], cs[|cs| - 1];
      var kept := Keep(last.faculties, m);
      CategoryViewFlatten(cs', m);
      var tail := if |kept| > 0 then [last.(faculties := kept)] else [];
      FlattenAppend(CategoryView(cs', m), tail);
      KeepAppend(Flatten(cs'), last.faculties, m);
      if |kept| > 0 {
        FlattenSingle(last.(faculties := kept));
      } else {
        assert Flatten(tail) == [];
      }
    }
  }

  /** Every surviving course is non-empty and holds only accepted records. */
  lemma {:induction false} CategoryViewAccepted(cs: seq<Course>, m: Mode)
    ensures forall c :: c in CategoryView(cs, m) ==> |c.faculties| > 0
    ensures forall c, f :: c in CategoryView(cs, m) && f in c.faculties ==> Accepts(f, m)
    decreases |cs|
  {
    if cs != [] {
      var cs', last := cs[..|cs| - 1], cs[|cs| - 1];
      var kept := Keep(last.faculties, m);
      CategoryViewAccepted(cs', m);
      KeepIsFilter(last.faculties, m);
      forall f | f in kept ensures Accepts(f, m) {
        assert multiset(kept)[f] > 0;
      }
    }
  }

  /** The survivors are, in their original order, among the filtered courses. */
  lemma {:induction false} CategoryViewOrder(cs: seq<Course>, m: Mode)
    ensures Subsequence(CategoryView(cs, m), Restricted(cs, m))
    decreases |cs|
  {
    if cs != [] {
      var cs', last := cs[..|cs| - 1], cs[|cs| - 1];
      var kept := Keep(last.faculties, m);
      CategoryViewOrder(cs', m);
      assert Restricted(cs, m) == Restricted(cs', m) + [last.(faculties := kept)];
      SubsequenceExtend(CategoryView(cs', m), Restricted(cs', m), last.(faculties := kept), |kept| > 0);
    }
  }

  /** No filtered course with records is missing from the view. */
  lemma CategoryViewComplete(cs: seq<Course>, m: Mode)
    ensures forall i :: 0 <= i < |cs| && |Keep(cs[i].faculties, m)| > 0 ==> Restricted(cs, m)[i] in CategoryView(cs, m)
  {
    forall i | 0 <= i < |cs| && |Keep(cs[i].faculties, m)| > 0
      ensures Restricted(cs, m)[i] in CategoryView(cs, m)
    {
      CategoryViewHas(cs, m, i);
    }
  }

  lemma {:induction false} CategoryViewHas(cs: seq<Course>, m: Mode, i: nat)
    requires i < |cs| && |Keep(cs[i].faculties, m)| > 0
    ensures cs[i].(faculties := Keep(cs[i].faculties, m)) in CategoryView(cs, m)
    decreases |cs|
  {
    var cs' := cs[..|cs| - 1];
    if i < |cs'| {
      assert cs[i] == cs'[i];
      CategoryViewHas(cs', m, i);
    }
  }

  /** The shape of a category view: every surviving course is non-empty and
      holds only accepted records; the survivors are, in their original order,
      the filtered courses; and no filtered course with records is missing. */
  lemma CategoryViewShape(cs: seq<Course>, m: Mode)
    ensures forall c :: c in CategoryView(cs, m) ==> |c.faculties| > 0
    ensures forall c, f :: c in CategoryView(cs, m) && f in c.faculties ==> Accepts(f, m)
    ensures Subsequence(CategoryView(cs, m), Restricted(cs, m))
    ensures forall i :: 0 <= i < |cs| && |Keep(cs[i].faculties, m)| > 0 ==> Restricted(cs, m)[i] in CategoryView(cs, m)
  {
    CategoryViewAccepted(cs, m);
    CategoryViewOrder(cs, m);
    CategoryViewComplete(cs, m);
  }

  /** Under `all` a list of non-empty courses comes back unchanged. */
  lemma {:induction false} AllKeepsNonEmptyCourses(cs: seq<Course>, m: Mode)
    requires !m.Only?
    requires forall i :: 0 <= i < |cs| ==> |cs[i].faculties| > 0
    ensures CategoryView(cs, m) == cs
    decreases |cs|
  {
    if cs != [] {
      var cs', last := cs[..|cs| - 1], cs[|cs| - 1];
      AllKeepsNonEmptyCourses(cs', m);
      KeepAll(last.faculties, m);
      assert cs == cs' + [last];
    }
  }

  /** Under every mode, even `all`, a course with no faculty is dropped. */
  lemma {:induction false} AllDropsEmptyCourses(cs: seq<Course>, m: Mode, i: nat)
    requires i < |cs| && cs[i].faculties == []
    ensures |CategoryView(cs, m)| < |cs|
    decreases |cs|
  {
    var cs', last := cs[..|cs| - 1], cs[|cs| - 1];
    if i < |cs'| {
      AllDropsEmptyCourses(cs', m, i);
    } else {
      assert Keep(last.faculties, m) == [];
    }
  }

  /** The filter keeps every record under `all`, under an unknown mode (the
      `default` branch) and under `highest` / `lowest`. */
  lemma {:induction false} KeepAll(fs: seq<Faculty>, m: Mode)
    requires !m.Only?
    ensures Keep(fs, m) == fs
    decreases |fs|
  {
    if fs != [] {
      KeepAll(fs[..|fs| - 1], m);
    }
  }
}
