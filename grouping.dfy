/** The regrouping step of the ranking path: `groupedByCourse` is filled by
    scanning the ranked records, opening a group the first time a
    `course_code` is seen and pushing each record onto its group, and the
    groups are read back with `Object.values` in insertion order. */
module Grouping {
  import opened Dataset
  import opened Ranking

  /** Position of the first group with this code, or `|gs|` when there is none. */
  function IndexOfCode(gs: seq<Course>, code: string): (i: nat)
    ensures i <= |gs|
    ensures i < |gs| ==> gs[i].code == code
    ensures forall k :: 0 <= k < i ==> gs[k].code != code
  {
    if gs == [] then 0
    else if gs[0].code == code then 0
    else 1 + IndexOfCode(gs[1..], code)
  }

  /** One step of the `forEach`: open a group for a new code, then append. */
  function AddToGroups(gs: seq<Course>, r: Ranked): (gs': seq<Course>)
    ensures |gs| <= |gs'| <= |gs| + 1
  {
    var i := IndexOfCode(gs, r.code);
    if i < |gs| then gs[i := gs[i].(faculties := gs[i].faculties + [r.faculty])]
    else gs + [Course(r.code, r.name, [r.faculty])]
  }

  /** The groups, in insertion order, after scanning `rs`. */
  function Regroup(rs: seq<Ranked>): (groups: seq<Course>)
    ensures |groups| <= |rs|
  {
    if rs == [] then [] else AddToGroups(Regroup(rs[..|rs| - 1]), rs[|rs| - 1])
  }

  /** Every group holds at least the record that opened it. */
  lemma {:induction false} RegroupNonEmpty(rs: seq<Ranked>)
    ensures forall i :: 0 <= i < |Regroup(rs)| ==> |Regroup(rs)[i].faculties| > 0
    decreases |rs|
  {
    if rs != [] {
      RegroupNonEmpty(rs[..|rs| - 1]);
    }
  }

  function Codes(gs: seq<Course>): (r: seq<string>)
    ensures |r| == |gs|
  {
    seq(|gs|, i requires 0 <= i < |gs| => gs[i].code)
  }

  /** Position of the first record with this code, or `|rs|` when there is none. */
  function FirstPos(rs: seq<Ranked>, c: string): (p: nat)
    ensures p <= |rs|
    ensures p < |rs| ==> rs[p].code == c
    ensures forall k :: 0 <= k < p ==> rs[k].code != c
  {
    if rs == [] then 0
    else if rs[0].code == c then 0
    else 1 + FirstPos(rs[1..], c)
  }

  /** The distinct codes of `rs` in order of first appearance. */
  function FirstCodes(rs: seq<Ranked>): seq<string> {
    if rs == [] then []
    else
      var d := FirstCodes(rs[..|rs| - 1]);
      if rs[|rs| - 1].code in d then d else d + [rs[|rs| - 1].code]
  }

  /** The faculty of the records with this code, in scanning order. */
  function MembersWithCode(rs: seq<Ranked>, c: string): seq<Faculty> {
    if rs == [] then []
    else MembersWithCode(rs[..|rs| - 1], c) + (if rs[|rs| - 1].code == c then [rs[|rs| - 1].faculty] else [])
  }

  predicate Distinct(s: seq<string>) {
    forall i, j :: 0 <= i < j < |s| ==> s[i] != s[j]
  }

  /** A code occurs in `rs` exactly when its first position is inside `rs`. */
  lemma FirstPosOccurs(rs: seq<Ranked>, c: string)
    ensures FirstPos(rs, c) < |rs| <==> exists k :: 0 <= k < |rs| && rs[k].code == c
  {
  }

  lemma FirstPosExtend(rs: seq<Ranked>, e: Ranked, c: string)
    ensures FirstPos(rs + [e], c) == if FirstPos(rs, c) < |rs| || e.code == c then FirstPos(rs, c) else |rs| + 1
  {
    if rs != [] && rs[0].code != c {
      assert (rs + [e])[1..] == rs[1..] + [e];
      FirstPosExtend(rs[1..], e, c);
    }
  }

  /** Every scanned code is listed, and every listed code was scanned. */
  lemma {:induction false} FirstCodesCover(rs: seq<Ranked>)
    ensures forall k :: 0 <= k < |rs| ==> rs[k].code in FirstCodes(rs)
    ensures forall c :: c in FirstCodes(rs) ==> FirstPos(rs, c) < |rs|
    decreases |rs|
  {
    if rs != [] {
      var rs', e := rs[..|rs| - 1], rs[|rs| - 1];
      assert rs == rs' + [e];
      FirstCodesCover(rs');
      forall c | c in FirstCodes(rs) ensures FirstPos(rs, c) < |rs| {
        FirstPosExtend(rs', e, c);
      }
      forall k | 0 <= k < |rs| ensures rs[k].code in FirstCodes(rs) {
        if k < |rs'| {
          assert rs[k] == rs'[k];
        }
      }
    }
  }

  lemma {:induction false} FirstCodesDistinct(rs: seq<Ranked>)
    ensures Distinct(FirstCodes(rs))
    decreases |rs|
  {
    if rs != [] {
      FirstCodesDistinct(rs[..|rs| - 1]);
    }
  }

  /** The listed codes are in increasing order of first position. */
  predicate InFirstOrder(rs: seq<Ranked>) {
    forall i, j :: 0 <= i < j < |FirstCodes(rs)| ==> FirstPos(rs, FirstCodes(rs)[i]) < FirstPos(rs, FirstCodes(rs)[j])
  }

  /** Scanning one more record keeps the codes in order of first position. */
  lemma FirstCodesOrderStep(rs': seq<Ranked>, e: Ranked)
    requires InFirstOrder(rs')
    ensures InFirstOrder(rs' + [e])
  {
    var rs := rs' + [e];
    assert rs[..|rs| - 1] == rs' && rs[|rs| - 1] == e;
    FirstCodesCover(rs');
    var d, d' := FirstCodes(rs'), FirstCodes(rs);
    forall c | c in d ensures FirstPos(rs, c) == FirstPos(rs', c) {
      FirstPosExtend(rs', e, c);
    }
    if e.code !in d {
      assert d' == d + [e.code];
      forall k | 0 <= k < |rs'| ensures rs'[k].code != e.code {
        assert rs'[k].code in d;
      }
      FirstPosExtend(rs', e, e.code);
      forall i, j | 0 <= i < j < |d'|
        ensures FirstPos(rs, d'[i]) < FirstPos(rs, d'[j])
      {
        assert d'[i] == d[i] && d[i] in d;
        if j < |d| {
          assert d'[j] == d[j] && d[j] in d;
        }
      }
    }
  }

  /** First-appearance codes are listed in order of first appearance. */
  lemma {:induction false} FirstCodesOrder(rs: seq<Ranked>)
    ensures forall i, j :: 0 <= i < j < |FirstCodes(rs)| ==> FirstPos(rs, FirstCodes(rs)[i]) < FirstPos(rs, FirstCodes(rs)[j])
    decreases |rs|
  {
    if rs != [] {
      var rs', e := rs[..|rs| - 1], rs[|rs| - 1];
      assert rs == rs' + [e];
      FirstCodesOrder(rs');
      FirstCodesOrderStep(rs', e);
    }
  }

  lemma {:induction false} RegroupCodes(rs: seq<Ranked>)
    ensures Codes(Regroup(rs)) == FirstCodes(rs)
    decreases |rs|
  {
    if rs != [] {
      var rs', e := rs[..|rs| - 1], rs[|rs| - 1];
      RegroupCodes(rs');
      var gs := Regroup(rs');
      var i := IndexOfCode(gs, e.code);
      if i < |gs| {
        assert Codes(gs)[i] == e.code;
        assert Codes(Regroup(rs)) == Codes(gs);
      } else {
        assert e.code !in Codes(gs);
        assert Codes(Regroup(rs)) == Codes(gs) + [e.code];
      }
    }
  }

  lemma {:induction false} MembersAbsent(rs: seq<Ranked>, c: string)
    requires FirstPos(rs, c) == |rs|
    ensures MembersWithCode(rs, c) == []
    decreases |rs|
  {
    if rs != [] {
      var rs', e := rs[..|rs| - 1], rs[|rs| - 1];
      assert rs == rs' + [e];
      FirstPosExtend(rs', e, c);
      MembersAbsent(rs', c);
    }
  }

  /** Every group's code occurs in the scan, and its name is that of the
      first record with its code. */
  lemma {:induction false} RegroupNames(rs: seq<Ranked>)
    ensures forall i :: 0 <= i < |Regroup(rs)| ==>
              FirstPos(rs, Regroup(rs)[i].code) < |rs| && Regroup(rs)[i].name == rs[FirstPos(rs, Regroup(rs)[i].code)].name
    decreases |rs|
  {
    if rs != [] {
      var rs', e := rs[..|rs| - 1], rs[|rs| - 1];
      assert rs == rs' + [e];
      RegroupNames(rs');
      var gs, gs' := Regroup(rs'), Regroup(rs);
      var i := IndexOfCode(gs, e.code);
      forall j | 0 <= j < |gs'|
        ensures FirstPos(rs, gs'[j].code) < |rs| && gs'[j].name == rs[FirstPos(rs, gs'[j].code)].name
      {
        if j < |gs| {
          FirstPosExtend(rs', e, gs[j].code);
          assert gs'[j].code == gs[j].code && gs'[j].name == gs[j].name;
          assert rs[FirstPos(rs', gs[j].code)] == rs'[FirstPos(rs', gs[j].code)];
        } else {
          assert gs'[j] == Course(e.code, e.name, [e.faculty]);
          RegroupCodes(rs');
          FirstCodesCover(rs');
          forall k | 0 <= k < |rs'| ensures rs'[k].code != e.code {
            assert rs'[k].code in Codes(gs);
          }
          FirstPosExtend(rs', e, e.code);
        }
      }
    }
  }

  /** Every group holds exactly the records with its code, in scanning order. */
  lemma {:induction false} RegroupMembers(rs: seq<Ranked>)
    ensures forall i :: 0 <= i < |Regroup(rs)| ==> Regroup(rs)[i].faculties == MembersWithCode(rs, Regroup(rs)[i].code)
    decreases |rs|
  {
    if rs != [] {
      var rs', e := rs[..|rs| - 1], rs[|rs| - 1];
      RegroupMembers(rs');
      RegroupCodes(rs');
      FirstCodesDistinct(rs');
      var gs, gs' := Regroup(rs'), Regroup(rs);
      var i := IndexOfCode(gs, e.code);
      forall j | 0 <= j < |gs'|
        ensures gs'[j].faculties == MembersWithCode(rs, gs'[j].code)
      {
        if j < |gs| && j != i {
          assert Codes(gs)[j] == gs[j].code;
          if i < |gs| {
            assert Codes(gs)[i] == e.code;
          }
          assert gs[j].code != e.code;
        } else if i == |gs| {
          assert rs == rs' + [e];
          FirstCodesCover(rs');
          forall k | 0 <= k < |rs'| ensures rs'[k].code != e.code {
            assert rs'[k].code in Codes(gs);
          }
          MembersAbsent(rs', e.code);
        }
      }
    }
  }

  /** Pushing one record onto group `i` adds exactly that record. */
  lemma {:induction false} FlattenPush(gs: seq<Course>, i: nat, f: Faculty)
    requires i < |gs|
    ensures multiset(Flatten(gs[i := gs[i].(faculties := gs[i].faculties + [f])])) == multiset(Flatten(gs)) + multiset{f}
    decreases |gs|
  {
    var g := gs[i].(faculties := gs[i].faculties + [f]);
    var gs', last := gs[..|gs| - 1], gs[|gs| - 1];
    var u := gs[i := g];
    assert u[..|gs| - 1] == if i == |gs| - 1 then gs' else gs'[i := g];
    assert Flatten(u) == Flatten(u[..|gs| - 1]) + u[|gs| - 1].faculties;
    assert Flatten(gs) == Flatten(gs') + last.faculties;
    if i < |gs| - 1 {
      assert gs'[i] == gs[i];
      FlattenPush(gs', i, f);
      assert u[|gs| - 1] == last;
    } else {
      assert u[|gs| - 1].faculties == last.faculties + [f];
      assert Flatten(u) == Flatten(gs) + [f];
    }
  }

  /** One regrouping step adds exactly the scanned record. */
  lemma AddToGroupsMultiset(gs: seq<Course>, e: Ranked)
    ensures multiset(Flatten(AddToGroups(gs, e))) == multiset(Flatten(gs)) + multiset{e.faculty}
  {
    var i := IndexOfCode(gs, e.code);
    if i < |gs| {
      FlattenPush(gs, i, e.faculty);
    } else {
      var g := Course(e.code, e.name, [e.faculty]);
      assert (gs + [g])[..|gs|] == gs;
      assert Flatten(gs + [g]) == Flatten(gs) + [e.faculty];
    }
  }

  /** Regrouping neither loses nor invents a record. */
  lemma {:induction false} RegroupMultiset(rs: seq<Ranked>)
    ensures multiset(Flatten(Regroup(rs))) == multiset(FacultiesOf(rs))
    decreases |rs|
  {
    if rs != [] {
      var rs', e := rs[..|rs| - 1], rs[|rs| - 1];
      var gs := Regroup(rs');
      assert rs == rs' + [e];
      calc {
        multiset(Flatten(Regroup(rs)));
        multiset(Flatten(AddToGroups(gs, e)));
        { AddToGroupsMultiset(gs, e); }
        multiset(Flatten(gs)) + multiset{e.faculty};
        { RegroupMultiset(rs'); }
        multiset(FacultiesOf(rs')) + multiset{e.faculty};
        multiset(FacultiesOf(rs') + [e.faculty]);
        { FacultiesOfAppend(rs', e); }
        multiset(FacultiesOf(rs));
      }
    }
  }

  /** What regrouping promises: one group per distinct code, in order of the
      code's first appearance, named after the first record with that code,
      holding the records with that code in scanning order, and together
      holding exactly the scanned records. */
  lemma RegroupProperties(rs: seq<Ranked>)
    ensures Distinct(Codes(Regroup(rs)))
    ensures forall k :: 0 <= k < |rs| ==> rs[k].code in Codes(Regroup(rs))
    ensures forall i :: 0 <= i < |Regroup(rs)| ==>
              FirstPos(rs, Regroup(rs)[i].code) < |rs| && Regroup(rs)[i].name == rs[FirstPos(rs, Regroup(rs)[i].code)].name
    ensures forall i, j :: 0 <= i < j < |Regroup(rs)| ==> FirstPos(rs, Regroup(rs)[i].code) < FirstPos(rs, Regroup(rs)[j].code)
    ensures forall i :: 0 <= i < |Regroup(rs)| ==> Regroup(rs)[i].faculties == MembersWithCode(rs, Regroup(rs)[i].code)
    ensures multiset(Flatten(Regroup(rs))) == multiset(FacultiesOf(rs))
  {
    RegroupCodes(rs);
    FirstCodesDistinct(rs);
    FirstCodesCover(rs);
    FirstCodesOrder(rs);
    RegroupNames(rs);
    RegroupMembers(rs);
    RegroupMultiset(rs);
    var gs := Regroup(rs);
    forall i, j | 0 <= i < j < |gs|
      ensures FirstPos(rs, gs[i].code) < FirstPos(rs, gs[j].code)
    {
      assert gs[i].code == FirstCodes(rs)[i] && gs[j].code == FirstCodes(rs)[j];
    }
  }

  function ValuesInOrder(order: seq<string>, byCode: map<string, Course>): (r: seq<Course>)
    requires forall k :: 0 <= k < |order| ==> order[k] in byCode
    ensures |r| == |order|
  {
    seq(|order|, k requires 0 <= k < |order| => byCode[order[k]])
  }

  lemma ValuesUpdate(order: seq<string>, byCode: map<string, Course>, idx: nat, g: Course)
    requires forall k :: 0 <= k < |order| ==> order[k] in byCode
    requires Distinct(order) && idx < |order|
    ensures ValuesInOrder(order, byCode[order[idx] := g]) == ValuesInOrder(order, byCode)[idx := g]
  {
  }

  lemma ValuesAppend(order: seq<string>, byCode: map<string, Course>, c: string, g: Course)
    requires forall k :: 0 <= k < |order| ==> order[k] in byCode
    requires c !in order
    ensures ValuesInOrder(order + [c], byCode[c := g]) == ValuesInOrder(order, byCode) + [g]
  {
  }

  /** A new code: opening its group with the record appends a group. */
  lemma GroupStepNew(order: seq<string>, byCode: map<string, Course>, r: Ranked)
    requires forall c :: c in byCode <==> c in order
    requires forall c :: c in byCode ==> byCode[c].code == c
    requires r.code !in byCode
    ensures ValuesInOrder(order + [r.code], byCode[r.code := Course(r.code, r.name, [r.faculty])])
            == AddToGroups(ValuesInOrder(order, byCode), r)
  {
    var gs := ValuesInOrder(order, byCode);
    forall k | 0 <= k < |gs| ensures gs[k].code != r.code {
      assert gs[k] == byCode[order[k]];
    }
    ValuesAppend(order, byCode, r.code, Course(r.code, r.name, [r.faculty]));
  }

  /** A known code: the record joins the group at the code's key position. */
  lemma GroupStepKnown(order: seq<string>, byCode: map<string, Course>, r: Ranked)
    requires forall c :: c in byCode <==> c in order
    requires Distinct(order)
    requires forall c :: c in byCode ==> byCode[c].code == c
    requires r.code in byCode
    ensures ValuesInOrder(order, byCode[r.code := byCode[r.code].(faculties := byCode[r.code].faculties + [r.faculty])])
            == AddToGroups(ValuesInOrder(order, byCode), r)
  {
    var gs := ValuesInOrder(order, byCode);
    var idx := IndexOfCode(gs, r.code);
    assert idx < |gs| && order[idx] == r.code by {
      var k :| 0 <= k < |order| && order[k] == r.code;
      assert gs[k] == byCode[order[k]];
      assert gs[idx] == byCode[order[idx]];
    }
    ValuesUpdate(order, byCode, idx, byCode[r.code].(faculties := byCode[r.code].faculties + [r.faculty]));
  }

  /** `groupedByCourse` and `Object.values(groupedByCourse)`; `order` holds
      the keys in insertion order. */
  method GroupByCourse(top: seq<Ranked>) returns (groups: seq<Course>)
    ensures groups == Regroup(top)
  {
    var byCode: map<string, Course> := map[];
    var order: seq<string> := [];
    var i := 0;
    while i < |top|
      invariant 0 <= i <= |top|
      invariant forall c :: c in byCode <==> c in order
      invariant Distinct(order)
      invariant forall c :: c in byCode ==> byCode[c].code == c
      invariant ValuesInOrder(order, byCode) == Regroup(top[..i])
    {
      var r := top[i];
      assert top[..i + 1][..i] == top[..i];
      if r.code !in byCode {
        GroupStepNew(order, byCode, r);
        assert [] + [r.faculty] == [r.faculty];
        byCode := byCode[r.code := Course(r.code, r.name, [])];
        order := order + [r.code];
      } else {
        GroupStepKnown(order, byCode, r);
      }
      byCode := byCode[r.code := byCode[r.code].(faculties := byCode[r.code].faculties + [r.faculty])];
      i := i + 1;
    }
    assert top[..i] == top;
    groups := ValuesInOrder(order, byCode);
  }
}
