/** The accession classifier of `rsfq/src/utils.rs`: four anchored
    patterns, tried in order, turn an accession into an ENA portal query. */
module Utils {
  import opened Wrappers

  predicate IsDigit(c: char) { '0' <= c <= '9' }

  predicate IsUpper(c: char) { 'A' <= c <= 'Z' }

  /** `[0-9]+` followed by the end of the text. */
  predicate Digits(s: string) {
    |s| >= 1 && forall i :: 0 <= i < |s| ==> IsDigit(s[i])
  }

  /** `[0-9]{6,}` followed by the end of the text. */
  predicate SixDigits(s: string) {
    |s| >= 6 && Digits(s)
  }

  /** `^[EDS]R<kind>[0-9]{6,}$`: an INSDC accession of the archive
      (E = ENA, D = DDBJ, S = SRA) for one kind of object. */
  predicate InsdcAccession(s: string, kind: char) {
    |s| >= 3 && s[0] in "EDS" && s[1] == 'R' && s[2] == kind && SixDigits(s[3..])
  }

  /** `^PRJ[EDN][A-Z][0-9]+$|^[EDS]RP[0-9]{6,}$` (PROJECT_STUDY_RE). */
  predicate IsProjectStudy(s: string) {
    || (|s| >= 5 && s[..3] == "PRJ" && s[3] in "EDN" && IsUpper(s[4]) && Digits(s[5..]))
    || InsdcAccession(s, 'P')
  }

  /** `^SAM[EDN][A-Z]?[0-9]+$|^[EDS]RS[0-9]{6,}$` (SAMPLE_BIOSAMPLE_RE). */
  predicate IsSampleBiosample(s: string) {
    || (|s| >= 4 && s[..3] == "SAM" && s[3] in "EDN"
        && (Digits(s[4..]) || (|s| >= 5 && IsUpper(s[4]) && Digits(s[5..]))))
    || InsdcAccession(s, 'S')
  }

  /** `^[EDS]RX[0-9]{6,}$` (EXPERIMENT_RE). */
  predicate IsExperiment(s: string) { InsdcAccession(s, 'X') }

  /** `^[EDS]RR[0-9]{6,}$` (RUN_RE). */
  predicate IsRun(s: string) { InsdcAccession(s, 'R') }

  /** The error that ends the process with status 1 when no pattern matches. */
  datatype InvalidAccession = InvalidAccession(accession: string)

  function StudyQuery(q: string): string {
    "(study_accession=" + q + " OR secondary_study_accession=" + q + ")"
  }

  function SampleQuery(q: string): string {
    "(sample_accession=" + q + " OR secondary_sample_accession=" + q + ")"
  }

  function ExperimentQuery(q: string): string { "experiment_accession=" + q }

  function RunQuery(q: string): string { "run_accession=" + q }

  /** `validate_query`: the first pattern that matches decides the portal
      query; no match is fatal. */
  function ValidateQuery(query: string): (r: Result<string, InvalidAccession>)
    ensures r.Err? <==> !IsProjectStudy(query) && !IsSampleBiosample(query)
                        && !IsExperiment(query) && !IsRun(query)
    ensures r.Err? ==> r.error == InvalidAccession(query)
  {
    if IsProjectStudy(query) then Ok(StudyQuery(query))
    else if IsSampleBiosample(query) then Ok(SampleQuery(query))
    else if IsExperiment(query) then Ok(ExperimentQuery(query))
    else if IsRun(query) then Ok(RunQuery(query))
    else Err(InvalidAccession(query))
  }

  /** No string matches two of the four patterns. */
  lemma PatternsExclusive(s: string)
    ensures IsProjectStudy(s) ==> !IsSampleBiosample(s) && !IsExperiment(s) && !IsRun(s)
    ensures IsSampleBiosample(s) ==> !IsExperiment(s) && !IsRun(s)
    ensures IsExperiment(s) ==> !IsRun(s)
  {
    if |s| >= 3 {
      assert s[..3] == "PRJ" ==> s[0] == 'P';
      assert s[..3] == "SAM" ==> s[0] == 'S' && s[1] == 'A';
    }
  }

  lemma StudyAccessionQuery(q: string)
    requires IsProjectStudy(q)
    ensures ValidateQuery(q) == Ok("(study_accession=" + q + " OR secondary_study_accession=" + q + ")")
  {
  }

  lemma SampleAccessionQuery(q: string)
    requires IsSampleBiosample(q)
    ensures ValidateQuery(q) == Ok("(sample_accession=" + q + " OR secondary_sample_accession=" + q + ")")
  {
    PatternsExclusive(q);
  }

  lemma ExperimentAccessionQuery(q: string)
    requires IsExperiment(q)
    ensures ValidateQuery(q) == Ok("experiment_accession=" + q)
  {
    PatternsExclusive(q);
  }

  lemma RunAccessionQuery(q: string)
    requires IsRun(q)
    ensures ValidateQuery(q) == Ok("run_accession=" + q)
  {
    PatternsExclusive(q);
  }

  /** The same chain tried in the opposite order. */
  function ValidateQueryReversed(query: string): Result<string, InvalidAccession>
  {
    if IsRun(query) then Ok(RunQuery(query))
    else if IsExperiment(query) then Ok(ExperimentQuery(query))
    else if IsSampleBiosample(query) then Ok(SampleQuery(query))
    else if IsProjectStudy(query) then Ok(StudyQuery(query))
    else Err(InvalidAccession(query))
  }

  /** Because the patterns are exclusive, the order of the chain does not matter. */
  lemma OrderIrrelevant(query: string)
    ensures ValidateQueryReversed(query) == ValidateQuery(query)
  {
    PatternsExclusive(query);
  }

  /** The four kinds of accession, in the order the patterns are tried. */
  datatype Category = ProjectStudy | SampleBiosample | Experiment | Run

  /** The portal query for an accession of a given kind. */
  function QueryOf(c: Category, q: string): string
  {
    match c
    case ProjectStudy => StudyQuery(q)
    case SampleBiosample => SampleQuery(q)
    case Experiment => ExperimentQuery(q)
    case Run => RunQuery(q)
  }

  /** The kind whose pattern an accession matches, if any. */
  function Classify(q: string): Option<Category>
  {
    if IsProjectStudy(q) then Some(ProjectStudy)
    else if IsSampleBiosample(q) then Some(SampleBiosample)
    else if IsExperiment(q) then Some(Experiment)
    else if IsRun(q) then Some(Run)
    else None
  }

  lemma ValidateQueryByCategory(q: string)
    ensures ValidateQuery(q) == match Classify(q)
                                case None => Err(InvalidAccession(q))
                                case Some(c) => Ok(QueryOf(c, q))
  {
  }

  /** The literal text in front of the accession in each query. */
  function Prefix(c: Category): string
  {
    match c
    case ProjectStudy => "(study_accession="
    case SampleBiosample => "(sample_accession="
    case Experiment => "experiment_accession="
    case Run => "run_accession="
  }

  lemma QueryStartsWithPrefix(c: Category, q: string)
    ensures |QueryOf(c, q)| >= |Prefix(c)| && QueryOf(c, q)[..|Prefix(c)|] == Prefix(c)
  {
    match c
    case ProjectStudy => HeadOfQuery(Prefix(c), q, " OR secondary_study_accession=");
    case SampleBiosample => HeadOfQuery(Prefix(c), q, " OR secondary_sample_accession=");
    case Experiment => HeadOfConcat(Prefix(c), q);
    case Run => HeadOfConcat(Prefix(c), q);
  }

  lemma HeadOfConcat(p: string, rest: string)
    ensures |p + rest| >= |p| && (p + rest)[..|p|] == p
  {
  }

  lemma HeadOfQuery(p: string, q: string, mid: string)
    ensures |p + q + mid + q + ")"| >= |p| && (p + q + mid + q + ")")[..|p|] == p
  {
    assert p + q + mid + q + ")" == p + (q + mid + q + ")");
    HeadOfConcat(p, q + mid + q + ")");
  }

  /** The first and third characters of a query tell the kinds apart. */
  function Tag(c: Category): (char, char)
  {
    match c
    case ProjectStudy => ('(', 't')
    case SampleBiosample => ('(', 'a')
    case Experiment => ('e', 'p')
    case Run => ('r', 'n')
  }

  lemma QueryTag(c: Category, q: string)
    ensures |QueryOf(c, q)| >= 3 && (QueryOf(c, q)[0], QueryOf(c, q)[2]) == Tag(c)
  {
    QueryStartsWithPrefix(c, q);
    var p := Prefix(c);
    assert QueryOf(c, q)[0] == p[0] && QueryOf(c, q)[2] == p[2];
  }

  lemma SameKindQueryInjective(c: Category, a: string, b: string)
    requires QueryOf(c, a) == QueryOf(c, b)
    ensures a == b
  {
    var q := QueryOf(c, a);
    match c
    case ProjectStudy =>
      assert |q| == 17 + 2 * |a| + 30 + 1 == 17 + 2 * |b| + 30 + 1;
      assert a == q[17..17 + |a|];
      assert b == q[17..17 + |b|];
    case SampleBiosample =>
      assert |q| == 18 + 2 * |a| + 31 + 1 == 18 + 2 * |b| + 31 + 1;
      assert a == q[18..18 + |a|];
      assert b == q[18..18 + |b|];
    case Experiment =>
      assert a == q[21..] == b;
    case Run =>
      assert a == q[14..] == b;
  }

  /** A query determines both the kind and the accession it was built from. */
  lemma QueryOfInjective(c: Category, a: string, d: Category, b: string)
    requires QueryOf(c, a) == QueryOf(d, b)
    ensures c == d && a == b
  {
    QueryTag(c, a);
    QueryTag(d, b);
    assert Tag(c) == Tag(d);
    SameKindQueryInjective(c, a, b);
  }

  /** Distinct accepted accessions give distinct queries. */
  lemma QueryInjective(a: string, b: string)
    requires ValidateQuery(a).Ok? && ValidateQuery(b).Ok?
    requires ValidateQuery(a).value == ValidateQuery(b).value
    ensures a == b
  {
    ValidateQueryByCategory(a);
    ValidateQueryByCategory(b);
    QueryOfInjective(Classify(a).value, a, Classify(b).value, b);
  }
}
