/** Small helpers shared by the dashboard components: an optional value,
    JavaScript's `Math.round`, and the report-format extension rule. */
module Common {

  /** A value that may be absent (JavaScript `null` / `undefined`). */
  datatype Option<+T> = None | Some(value: T)

  /** `Math.round` on a finite number: round half up, i.e. floor(x + 0.5). */
  function Round(x: real): (r: int)
    ensures r as real <= x + 0.5 < r as real + 1.0
  {
    (x + 0.5).Floor
  }

  /** Rounding never reverses the order of two numbers. */
  lemma RoundMonotone(x: real, y: real)
    requires x <= y
    ensures Round(x) <= Round(y)
  {
  }

  /** A whole number rounds to itself. */
  lemma RoundWhole(n: int)
    ensures Round(n as real) == n
  {
  }

  /** The download extension: `format === 'pdf' ? 'pdf' : 'xlsx'`. */
  function FileExtension(format: string): (ext: string)
    ensures ext == "pdf" <==> format == "pdf"
    ensures ext == "pdf" || ext == "xlsx"
  {
    if format == "pdf" then "pdf" else "xlsx"
  }

  predicate HasPrefix(s: string, p: string) {
    |p| <= |s| && s[..|p|] == p
  }

  predicate HasSuffix(s: string, p: string) {
    |p| <= |s| && s[|s| - |p|..] == p
  }

  /** A name `body.ext` with `ext` one of the two extensions ends in `.pdf`
      exactly when `ext` is `pdf`, and in `.xlsx` exactly when it is `xlsx`. */
  lemma ExtensionSuffix(body: string, ext: string)
    requires ext == "pdf" || ext == "xlsx"
    ensures HasSuffix(body + "." + ext, ".pdf") <==> ext == "pdf"
    ensures HasSuffix(body + "." + ext, ".xlsx") <==> ext == "xlsx"
  {
    var name := body + "." + ext;
    if ext == "pdf" {
      assert name[|name| - 4..] == ".pdf";
      assert |name| >= 5 ==> name[|name| - 5..][1] == '.';
    } else {
      assert name[|name| - 5..] == ".xlsx";
      assert name[|name| - 4..][0] == 'x';
    }
  }
}
