/** The performance categories, the view modes of the dashboard's filter
    selector, and the two ways the code decides a category: the `switch` of
    `filterFacultyByPerformance` and the if/else chain of `getStatistics`. */
module Performance {
  import opened Dataset

  datatype Category = Excellent | Good | Average | NeedsImprovement

  /** The values of the performance selector; any other string behaves like
      `all` in the filter's `default` branch. */
  datatype Mode = All | Only(category: Category) | Highest | Lowest | Other(name: string)

  function ModeName(m: Mode): string {
    match m
    case All => "all"
    case Only(Excellent) => "excellent"
    case Only(Good) => "good"
    case Only(Average) => "average"
    case Only(NeedsImprovement) => "needsImprovement"
    case Highest => "highest"
    case Lowest => "lowest"
    case Other(n) => n
  }

  /** The selector's string compared with `===` against each case label. */
  function ParseMode(s: string): (m: Mode)
    ensures m.Other? ==> m.name == s
  {
    if s == "all" then All
    else if s == "excellent" then Only(Excellent)
    else if s == "good" then Only(Good)
    else if s == "average" then Only(Average)
    else if s == "needsImprovement" then Only(NeedsImprovement)
    else if s == "highest" then Highest
    else if s == "lowest" then Lowest
    else Other(s)
  }

  /** Every named mode survives a trip through its selector string. */
  lemma ParseModeName(m: Mode)
    requires !m.Other?
    ensures ParseMode(ModeName(m)) == m
  {
  }

  /** `ParseMode` reads back exactly the string it was given. */
  lemma ModeNameParse(s: string)
    ensures ModeName(ParseMode(s)) == s
  {
  }

  /** The counting chain `score >= 90 ... else if score >= 80 ... else if
      score >= 70 ... else`: each bound belongs to the higher category. */
  function Classify(score: real): (c: Category)
    ensures c == Excellent <==> 90.0 <= score
    ensures c == Good <==> 80.0 <= score < 90.0
    ensures c == Average <==> 70.0 <= score < 80.0
    ensures c == NeedsImprovement <==> score < 70.0
  {
    if score >= 90.0 then Excellent
    else if score >= 80.0 then Good
    else if score >= 70.0 then Average
    else NeedsImprovement
  }

  /** `filterFacultyByPerformance(faculty, filter)`: a category mode keeps
      the records the counting chain puts in that category, every other mode
      keeps every record. */
  predicate Accepts(f: Faculty, m: Mode): (ok: bool)
    ensures m.Only? ==> (ok <==> Classify(ScoreOf(f)) == m.category)
    ensures !m.Only? ==> ok
  {
    var score := ScoreOf(f);
    match m
    case All => true
    case Only(Excellent) => score >= 90.0
    case Only(Good) => score >= 80.0 && score < 90.0
    case Only(Average) => score >= 70.0 && score < 80.0
    case Only(NeedsImprovement) => score < 70.0
    case Highest => true
    case Lowest => true
    case Other(_) => true
  }

  /** Exactly one category mode accepts a record, and it is the category the
      counting chain assigns to its score. */
  lemma AcceptsAgreesWithClassify(f: Faculty, c: Category)
    ensures Accepts(f, Only(c)) <==> Classify(ScoreOf(f)) == c
  {
  }

  /** The boundary scores 90, 80 and 70 go to the higher category. */
  lemma BoundariesGoUp()
    ensures Classify(90.0) == Excellent && Classify(80.0) == Good && Classify(70.0) == Average
    ensures Classify(69.999) == NeedsImprovement && Classify(89.999) == Good
  {
  }
}
