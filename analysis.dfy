/** The pure helpers of the faculty-analysis page: `getInitials`,
    `getAvailableBatches`, the department-report dispatch and the download
    file names. */
module Analysis {
  import opened Common

  /** The characters JavaScript's `trim` and the regular expression `\s`
      treat as white space: the ECMAScript WhiteSpace and LineTerminator code points. */
  predicate IsSpace(c: char) {
    ('\U{0009}' <= c && c <= '\U{000D}') || c == '\U{0020}' || c == '\U{00A0}' || c == '\U{1680}'
    || ('\U{2000}' <= c && c <= '\U{200A}') || c == '\U{2028}' || c == '\U{2029}' || c == '\U{202F}'
    || c == '\U{205F}' || c == '\U{3000}' || c == '\U{FEFF}'
  }

  predicate AllSpace(s: string) {
    forall k :: 0 <= k < |s| ==> IsSpace(s[k])
  }

  /** One past the run starting at `i` of characters that are (`space`) or
      are not (`!space`) white space. */
  function RunEnd(s: string, i: nat, space: bool): (k: nat)
    requires i <= |s|
    ensures i <= k <= |s|
    ensures forall j :: i <= j < k ==> IsSpace(s[j]) == space
    ensures k < |s| ==> IsSpace(s[k]) != space
    decreases |s| - i
  {
    if i == |s| || IsSpace(s[i]) != space then i else RunEnd(s, i + 1, space)
  }

  /** Where the run ending at `e` of characters that are (`space`) or are
      not (`!space`) white space begins. */
  function RunStart(s: string, e: nat, space: bool): (m: nat)
    requires e <= |s|
    ensures m <= e
    ensures forall j :: m <= j < e ==> IsSpace(s[j]) == space
    ensures m > 0 ==> IsSpace(s[m - 1]) != space
    decreases e
  {
    if e == 0 || IsSpace(s[e - 1]) != space then e else RunStart(s, e - 1, space)
  }

  /** Index of the first non-space character, or `|s|`. */
  function FirstNonSpace(s: string): (i: nat)
    ensures i <= |s|
    ensures i < |s| ==> !IsSpace(s[i])
    ensures forall k :: 0 <= k < i ==> IsSpace(s[k])
  {
    RunEnd(s, 0, true)
  }

  /** One past the last non-space character, or 0. */
  function EndNonSpace(s: string): (e: nat)
    ensures e <= |s|
    ensures e > 0 ==> !IsSpace(s[e - 1])
    ensures forall k :: e <= k < |s| ==> IsSpace(s[k])
  {
    RunStart(s, |s|, true)
  }

  /** `String.prototype.trim`. */
  function Trim(s: string): (t: string)
    ensures t == [] <==> AllSpace(s)
    ensures t != [] ==> FirstNonSpace(s) < EndNonSpace(s) && t == s[FirstNonSpace(s)..EndNonSpace(s)]
    ensures t != [] ==> !IsSpace(t[0]) && !IsSpace(t[|t| - 1])
  {
    var i, e := FirstNonSpace(s), EndNonSpace(s);
    if i == |s| then [] else s[i..e]
  }

  /** The pieces of `s` from the word starting at `i` on: each word up to the
      next run of white space, and a final `""` when `s` ends in white space. */
  function WordsFrom(s: string, i: nat): (parts: seq<string>)
    requires i <= |s| && (i == |s| || !IsSpace(s[i]))
    ensures |parts| >= 1
    ensures forall n :: 0 <= n < |parts| ==> AllNonSpace(parts[n])
    decreases |s| - i
  {
    var k := RunEnd(s, i, false);
    assert AllNonSpace(s[i..k]);
    if k == |s| then [s[i..]] else [s[i..k]] + WordsFrom(s, RunEnd(s, k, true))
  }

  /** `s.split(/\s+/)`: the pieces between runs of white space, none of
      which holds white space; a leading or trailing run gives an empty first
      or last piece, `""` gives `[""]`. */
  function SplitWs(s: string): (parts: seq<string>)
    ensures |parts| >= 1
    ensures forall n :: 0 <= n < |parts| ==> AllNonSpace(parts[n])
    ensures s == "" ==> parts == [""]
  {
    if s != [] && IsSpace(s[0]) then [""] + WordsFrom(s, RunEnd(s, 0, true)) else WordsFrom(s, 0)
  }

  predicate AllNonSpace(s: string) {
    forall k :: 0 <= k < |s| ==> !IsSpace(s[k])
  }

  /** Where the trailing word of `s` begins. */
  function TailStart(s: string): (m: nat)
    ensures m <= |s|
    ensures forall j :: m <= j < |s| ==> !IsSpace(s[j])
    ensures m > 0 ==> IsSpace(s[m - 1])
  {
    RunStart(s, |s|, false)
  }

  /** The trailing word is the only maximal non-space run that ends `s`. */
  lemma TailStartUnique(s: string, m: nat)
    requires m <= |s|
    requires forall j :: m <= j < |s| ==> !IsSpace(s[j])
    requires m > 0 ==> IsSpace(s[m - 1])
    ensures m == TailStart(s)
  {
  }

  /** A string that starts with a non-space character splits first into its
      leading word, and into one piece exactly when it has no white space. */
  lemma SplitFirst(s: string)
    requires s != [] && !IsSpace(s[0])
    ensures SplitWs(s)[0] == s[..RunEnd(s, 0, false)]
    ensures |SplitWs(s)| == 1 <==> AllNonSpace(s)
  {
  }

  /** From a word start on, the last piece of a string that ends with a
      non-space character is its trailing word. */
  lemma {:induction false} WordsLast(s: string, i: nat)
    requires i < |s| && !IsSpace(s[i]) && (i == 0 || IsSpace(s[i - 1]))
    requires !IsSpace(s[|s| - 1])
    ensures var parts := WordsFrom(s, i); parts[|parts| - 1] == s[TailStart(s)..]
    decreases |s| - i
  {
    var k := RunEnd(s, i, false);
    if k == |s| {
      TailStartUnique(s, i);
    } else {
      var j := RunEnd(s, k, true);
      assert IsSpace(s[k]);
      assert j < |s|;
      WordsLast(s, j);
    }
  }

  /** A string with no white space at either end splits first into its
      leading word and last into its trailing word, and into one piece
      exactly when it has no white space at all. */
  lemma SplitEnds(s: string)
    requires s != [] && !IsSpace(s[0]) && !IsSpace(s[|s| - 1])
    ensures SplitWs(s)[0] == s[..RunEnd(s, 0, false)]
    ensures |SplitWs(s)| == 1 <==> AllNonSpace(s)
    ensures SplitWs(s)[|SplitWs(s)| - 1] == s[TailStart(s)..]
    ensures TailStart(s) < |s|
  {
    SplitFirst(s);
    WordsLast(s, 0);
  }

  predicate IsLower(c: char) {
    'a' <= c && c <= 'z'
  }

  /** `toUpperCase` on ASCII letters: a lower-case letter becomes its
      upper-case letter, every other character stays. */
  function UpperChar(c: char): (u: char)
    ensures IsLower(c) ==> 'A' <= u <= 'Z' && u as int - 'A' as int == c as int - 'a' as int
    ensures !IsLower(c) ==> u == c
  {
    if IsLower(c) then (c as int - 32) as char else c
  }

  /** `toUpperCase` on a string: no lower-case letter is left, and every
      character that is not one stays where it was. */
  function Upper(s: string): (r: string)
    ensures |r| == |s|
    ensures forall i :: 0 <= i < |r| ==> !IsLower(r[i])
    ensures forall i :: 0 <= i < |s| && !IsLower(s[i]) ==> r[i] == s[i]
  {
    seq(|s|, i requires 0 <= i < |s| => UpperChar(s[i]))
  }

  /** `getInitials(fullName)`; `None` is a missing or non-string name. An
      empty last piece would index to `undefined`, which JavaScript's `+`
      spells out. */
  function Initials(fullName: Option<string>): (r: string)
    ensures r != ""
    ensures forall i :: 0 <= i < |r| ==> !IsLower(r[i])
  {
    if fullName.None? || fullName.value == "" then "?"
    else
      var parts := SplitWs(Trim(fullName.value));
      var first := if |parts[0]| > 0 then [parts[0][0]] else "";
      var lastPart := parts[|parts| - 1];
      var last := if |parts| > 1 then (if |lastPart| > 0 then [lastPart[0]] else "undefined") else "";
      var initials := Upper(first + last);
      if initials == "" then "?" else initials
  }

  /** A missing name, an empty one and one of white space only give `?`. */
  lemma InitialsOfNothing(fullName: Option<string>)
    requires fullName.None? || AllSpace(fullName.value)
    ensures Initials(fullName) == "?"
  {
  }

  /** Where the last word of the trimmed name begins in `s`. */
  function LastWordStart(s: string): nat {
    FirstNonSpace(s) + TailStart(Trim(s))
  }

  /** The initials of a name with a non-space character, read off its trimmed form. */
  lemma InitialsOfTrimmed(s: string)
    requires !AllSpace(s)
    ensures TailStart(Trim(s)) < |Trim(s)|
    ensures Initials(Some(s)) == if AllNonSpace(Trim(s)) then [UpperChar(Trim(s)[0])]
                                 else [UpperChar(Trim(s)[0]), UpperChar(Trim(s)[TailStart(Trim(s))])]
  {
    SplitEnds(Trim(s));
  }

  /** The trimmed name has white space inside exactly when the name has
      white space strictly between its first and last non-space characters. */
  lemma TrimInnerSpace(s: string)
    requires !AllSpace(s)
    ensures !AllNonSpace(Trim(s)) <==> exists i :: FirstNonSpace(s) < i < EndNonSpace(s) && IsSpace(s[i])
  {
  }

  /** When the trimmed name has inner white space, its last word starts in
      the name after a white-space character and runs to the last non-space
      character. */
  lemma LastWordInName(s: string)
    requires !AllSpace(s) && !AllNonSpace(Trim(s))
    ensures var p := LastWordStart(s);
            && FirstNonSpace(s) < p < EndNonSpace(s) && IsSpace(s[p - 1])
            && (forall k :: p <= k < EndNonSpace(s) ==> !IsSpace(s[k]))
            && s[p] == Trim(s)[TailStart(Trim(s))]
  {
  }

  /** Otherwise the initials start with the first non-space character,
      upper-cased, and have a second letter exactly when the trimmed name has
      inner white space: the upper-cased first character of the last word.
      Middle words play no part. */
  lemma InitialsOfName(s: string)
    requires !AllSpace(s)
    ensures 1 <= |Initials(Some(s))| && |Initials(Some(s))| <= 2
    ensures Initials(Some(s))[0] == UpperChar(s[FirstNonSpace(s)])
    ensures |Initials(Some(s))| == 2 <==> exists i :: FirstNonSpace(s) < i < EndNonSpace(s) && IsSpace(s[i])
    ensures |Initials(Some(s))| == 2 ==>
              var p := LastWordStart(s);
              FirstNonSpace(s) < p < EndNonSpace(s) && IsSpace(s[p - 1])
              && (forall k :: p <= k < EndNonSpace(s) ==> !IsSpace(s[k]))
              && Initials(Some(s))[1] == UpperChar(s[p])
  {
    InitialsOfTrimmed(s);
    TrimInnerSpace(s);
    if !AllNonSpace(Trim(s)) {
      LastWordInName(s);
    }
  }

  /** An entry of `options.courses`; `batches` may be missing. */
  datatype CourseOption = CourseOption(code: string, batches: Option<seq<string>>)

  /** Index of the first course with this code, or `|cs|`. */
  function FirstWithCode(cs: seq<CourseOption>, code: string): (i: nat)
    ensures i <= |cs|
    ensures i < |cs| ==> cs[i].code == code
    ensures forall j :: 0 <= j < i ==> cs[j].code != code
  {
    if cs == [] || cs[0].code == code then 0 else 1 + FirstWithCode(cs[1..], code)
  }

  /** `options.courses.find(c => c.code === code)`: the first course with the
      code, `None` when there is none. */
  function FindCourse(cs: seq<CourseOption>, code: string): (r: Option<CourseOption>)
    ensures r.None? <==> forall i :: 0 <= i < |cs| ==> cs[i].code != code
    ensures r.Some? ==> r.value.code == code && r.value in cs
    ensures r.Some? ==> r.value == cs[FirstWithCode(cs, code)]
  {
    var i := FirstWithCode(cs, code);
    if i < |cs| then Some(cs[i]) else None
  }

  /** `getAvailableBatches()`: `'all'` followed by the selected course's batches. */
  function AvailableBatches(course: string, cs: seq<CourseOption>): (r: seq<string>)
    ensures course == "" ==> r == []
    ensures r != [] ==> r[0] == "all" && FindCourse(cs, course).Some?
                        && FindCourse(cs, course).value.batches == Some(r[1..])
  {
    if course == "" then []
    else
      var selected := FindCourse(cs, course);
      if selected.None? || selected.value.batches.None? then []
      else ["all"] + selected.value.batches.value
  }

  /** The batch list is empty exactly when no course is selected, no course
      has the selected code, or the first such course has no batches;
      otherwise it is `'all'` and that course's batches, in order. */
  lemma AvailableBatchesCases(course: string, cs: seq<CourseOption>)
    ensures AvailableBatches(course, cs) == [] <==>
              course == "" || FindCourse(cs, course).None? || FindCourse(cs, course).value.batches.None?
    ensures AvailableBatches(course, cs) != [] ==>
              var bs := FindCourse(cs, course).value.batches.value;
              AvailableBatches(course, cs) == ["all"] + bs && |AvailableBatches(course, cs)| == |bs| + 1
  {
  }

  /** The batches offered come from the first course with the selected code. */
  lemma AvailableBatchesFirstMatch(course: string, cs: seq<CourseOption>, i: nat)
    requires course != "" && i < |cs| && cs[i].code == course && cs[i].batches.Some?
    requires forall j :: 0 <= j < i ==> cs[j].code != course
    ensures AvailableBatches(course, cs) == ["all"] + cs[i].batches.value
  {
  }

  /** What `handleGenerateDepartmentReport` asks the server for. */
  datatype DeptRequest =
    | NoRequest
    | AllBatchesReport(degree: string, dept: string, format: string)
    | BatchReport(degree: string, dept: string, batch: string, format: string)

  /** The dispatch: no request without a degree and a department, the
      all-batches report for `'all'`, the single-batch report otherwise. */
  function DepartmentReport(degree: string, dept: string, batch: string, format: string): (r: DeptRequest)
    ensures r.NoRequest? <==> degree == "" || dept == ""
    ensures r.AllBatchesReport? <==> degree != "" && dept != "" && batch == "all"
    ensures r.BatchReport? ==> r.batch == batch && batch != "all"
    ensures !r.NoRequest? ==> r.degree == degree && r.dept == dept && r.format == format
  {
    if degree == "" || dept == "" then NoRequest
    else if batch == "all" then AllBatchesAfterCheck(degree, dept, format)
    else BatchReport(degree, dept, batch, format)
  }

  /** `handleGenerateDepartmentAllBatches`, which checks degree and department again. */
  function AllBatchesAfterCheck(degree: string, dept: string, format: string): (r: DeptRequest)
    ensures r.NoRequest? <==> degree == "" || dept == ""
  {
    if degree == "" || dept == "" then NoRequest else AllBatchesReport(degree, dept, format)
  }

  /** `department_feedback_<dept>_<batch>.<ext>`. */
  function DepartmentFilename(dept: string, batch: string, format: string): (name: string)
    ensures HasPrefix(name, "department_feedback_" + dept + "_")
    ensures HasSuffix(name, "." + FileExtension(format))
  {
    "department_feedback_" + dept + "_" + batch + "." + FileExtension(format)
  }

  /** `department_feedback_<dept>_ALL_BATCHES.<ext>`. */
  function AllBatchesFilename(dept: string, format: string): (name: string)
    ensures HasPrefix(name, "department_feedback_" + dept + "_")
    ensures HasSuffix(name, "_ALL_BATCHES." + FileExtension(format))
  {
    "department_feedback_" + dept + "_ALL_BATCHES." + FileExtension(format)
  }

  /** The download name of a request's report. */
  function ReportFilename(r: DeptRequest): string
    requires !r.NoRequest?
  {
    if r.AllBatchesReport? then AllBatchesFilename(r.dept, r.format)
    else DepartmentFilename(r.dept, r.batch, r.format)
  }

  /** A report's name starts with the department and ends in `.pdf` exactly
      for the `pdf` format, `.xlsx` otherwise. */
  lemma FilenameShape(r: DeptRequest)
    requires !r.NoRequest?
    ensures HasPrefix(ReportFilename(r), "department_feedback_" + r.dept + "_")
    ensures HasSuffix(ReportFilename(r), ".pdf") <==> r.format == "pdf"
    ensures HasSuffix(ReportFilename(r), ".xlsx") <==> r.format != "pdf"
  {
    var pre := "department_feedback_" + r.dept + "_";
    var body := if r.AllBatchesReport? then pre + "ALL_BATCHES" else pre + r.batch;
    var ext := FileExtension(r.format);
    var name := ReportFilename(r);
    assert name == body + "." + ext;
    assert name[..|pre|] == pre;
    ExtensionSuffix(body, ext);
  }

  /** Within one department and format, distinct batches get distinct names. */
  lemma DepartmentFilenameInjective(dept: string, b1: string, b2: string, format: string)
    requires DepartmentFilename(dept, b1, format) == DepartmentFilename(dept, b2, format)
    ensures b1 == b2
  {
    var pre := "department_feedback_" + dept + "_";
    var post := "." + FileExtension(format);
    var n1, n2 := DepartmentFilename(dept, b1, format), DepartmentFilename(dept, b2, format);
    assert n1 == pre + b1 + post;
    assert n2 == pre + b2 + post;
    assert |b1| == |b2|;
    assert b1 == n1[|pre|..|pre| + |b1|];
    assert b2 == n2[|pre|..|pre| + |b2|];
  }
}
