/** The payload the visualisation dashboard receives from the server: an
    ordered list of courses, each with an ordered list of faculty records. */
module Dataset {
  import opened Common

  /** One faculty record of a course (`faculty_name`, `staffid`/`staff_id`,
      `overall_score`, `total_responses`); the score may be missing. */
  datatype Faculty = Faculty(name: string, staffId: string, score: Option<real>, totalResponses: nat)

  /** A course (`course_code`, `course_name`, `faculties`). */
  datatype Course = Course(code: string, name: string, faculties: seq<Faculty>)

  /** `faculty.overall_score || 0`: a missing score counts as 0. */
  function ScoreOf(f: Faculty): real {
    if f.score.Some? then f.score.value else 0.0
  }

  /** Every faculty record of every course, course after course. */
  function Flatten(cs: seq<Course>): seq<Faculty> {
    if cs == [] then [] else Flatten(cs[..|cs| - 1]) + cs[|cs| - 1].faculties
  }

  /** The (defaulted) scores of a list of faculty records, in order. */
  function Scores(fs: seq<Faculty>): (s: seq<real>)
    ensures |s| == |fs|
  {
    seq(|fs|, i requires 0 <= i < |fs| => ScoreOf(fs[i]))
  }

  lemma {:induction false} FlattenAppend(a: seq<Course>, b: seq<Course>)
    ensures Flatten(a + b) == Flatten(a) + Flatten(b)
    decreases |b|
  {
    if b == [] {
      assert a + b == a;
    } else {
      var b' := b[..|b| - 1];
      assert (a + b)[..|a + b| - 1] == a + b';
      FlattenAppend(a, b');
    }
  }

  lemma FlattenSingle(c: Course)
    ensures Flatten([c]) == c.faculties
  {
  }

  lemma ScoresAppend(a: seq<Faculty>, b: seq<Faculty>)
    ensures Scores(a + b) == Scores(a) + Scores(b)
  {
  }
}
