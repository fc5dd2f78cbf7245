/** The school-wise report page: the check before a report is requested,
    the request's fields, and the download file name. */
module SchoolWise {
  import opened Common

  /** A character the pattern `/[a-z0-9]/i` matches: an ASCII letter of
      either case or an ASCII digit. */
  predicate IsAsciiAlnum(c: char) {
    ('a' <= c && c <= 'z') || ('A' <= c && c <= 'Z') || ('0' <= c && c <= '9')
  }

  /** `school.replace(/[^a-z0-9]/gi, '_')`: one character per character of
      the school name, kept where it is an ASCII letter or digit and `_`
      elsewhere, so the safe name holds only letters, digits and `_`. */
  function Sanitize(school: string): (safe: string)
    ensures |safe| == |school|
    ensures forall i :: 0 <= i < |school| ==> (IsAsciiAlnum(school[i]) ==> safe[i] == school[i])
    ensures forall i :: 0 <= i < |school| ==> (!IsAsciiAlnum(school[i]) ==> safe[i] == '_')
    ensures forall i :: 0 <= i < |safe| ==> IsAsciiAlnum(safe[i]) || safe[i] == '_'
  {
    seq(|school|, i requires 0 <= i < |school| => if IsAsciiAlnum(school[i]) then school[i] else '_')
  }

  /** Sanitising a safe name changes nothing, and a name of ASCII letters and
      digits only is already safe. */
  lemma SanitizeIdempotent(school: string)
    ensures Sanitize(Sanitize(school)) == Sanitize(school)
    ensures (forall i :: 0 <= i < |school| ==> IsAsciiAlnum(school[i])) ==> Sanitize(school) == school
  {
  }

  /** `${safeSchoolName}_school_report.${fileExtension}`: it starts with the
      safe school name and holds only ASCII letters, digits, `_` and `.`. */
  function SchoolFilename(school: string, format: string): (name: string)
    ensures HasPrefix(name, Sanitize(school) + "_school_report.")
    ensures forall i :: 0 <= i < |name| ==> IsAsciiAlnum(name[i]) || name[i] == '_' || name[i] == '.'
  {
    Sanitize(school) + "_school_report." + FileExtension(format)
  }

  /** The download name ends in `.pdf` exactly for the `pdf` format, `.xlsx`
      otherwise. */
  lemma SchoolFilenameShape(school: string, format: string)
    ensures HasSuffix(SchoolFilename(school, format), ".pdf") <==> format == "pdf"
    ensures HasSuffix(SchoolFilename(school, format), ".xlsx") <==> format != "pdf"
  {
    var body := Sanitize(school) + "_school_report";
    var name := SchoolFilename(school, format);
    assert name == body + "." + FileExtension(format);
    ExtensionSuffix(body, FileExtension(format));
  }

  /** The body of the `generate-school-report` request. */
  datatype SchoolRequest = SchoolRequest(school: string, degree: string, batch: string, format: string)

  /** `handleGenerateReport`'s request: none without a school; the degree's
      `|| ''` keeps the (possibly empty) selection, and the batch `'all'` is
      sent as `'ALL'`. `None` for the degree is an unset selection. */
  function ReportRequest(school: string, degree: Option<string>, batch: string, format: string): (r: Option<SchoolRequest>)
    ensures r.None? <==> school == ""
    ensures r.Some? ==> r.value.school == school && r.value.format == format
    ensures r.Some? ==> r.value.degree == (if degree.Some? then degree.value else "")
    ensures r.Some? ==> (r.value.batch == "ALL" <==> batch == "all" || batch == "ALL")
    ensures r.Some? && batch != "all" ==> r.value.batch == batch
  {
    if school == "" then None
    else Some(SchoolRequest(school, if degree.Some? then degree.value else "", if batch == "all" then "ALL" else batch, format))
  }
}
