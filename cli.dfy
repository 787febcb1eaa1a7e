/** The accession argument and the flag check of `rsfq/src/cli.rs`. */
module Cli {
  import opened Wrappers
  import opened Text
  import opened Paths

  /** One accession, or a list of them. */
  datatype AccessionType = Single(accession: string) | List(accessions: seq<string>)

  /** The parsed command line (`Args`); clap's defaults and value checks are
      not part of this model. */
  datatype Args = Args(
    accession: AccessionType,
    outdir: Option<string>,
    attempts: nat,
    threads: nat,
    sleep: nat,
    force: bool,
    groupByExperiment: bool,
    groupBySample: bool,
    prefix: string,
    nextflow: bool,
    executor: string,
    queue: string,
    metadata: bool)

  /** `AccessionType::from_str`. `contents` is what reading the file named
      `s` yields; it is consulted only when `s` has the extension `txt`. */
  function ParseAccession(s: string, contents: Result<string, string>): (r: Result<AccessionType, string>)
    ensures r.Err? ==> Extension(s) == Some("txt") && contents.Err? && r.error == contents.error
  {
    match Extension(s)
    case Some(ext) =>
      if ext == "txt" then
        match contents
        case Err(e) => Err(e)
        case Ok(text) => Ok(List(TrimAll(Lines(text))))
      else Ok(Single(s))
    case None =>
      var pieces := TrimAll(Split(s, ','));
      if |pieces| > 1 then Ok(List(pieces)) else Ok(Single(s))
  }

  /** Without an extension, a string with commas is the list of its
      comma-separated pieces, each trimmed, one more than there are commas. */
  lemma CommaSeparatedList(s: string, contents: Result<string, string>)
    requires Extension(s).None? && ',' in s
    ensures ParseAccession(s, contents).Ok? && ParseAccession(s, contents).value.List?
    ensures var xs := ParseAccession(s, contents).value.accessions;
            |xs| == Count(s, ',') + 1
            && forall i :: 0 <= i < |xs| ==> xs[i] == Trim(Split(s, ',')[i])
  {
    SplitCount(s, ',');
    CountPositive(s, ',');
  }

  /** Without an extension and without a comma, the string is a single
      accession, kept untrimmed. */
  lemma NoCommaSingle(s: string, contents: Result<string, string>)
    requires Extension(s).None? && ',' !in s
    ensures ParseAccession(s, contents) == Ok(Single(s))
  {
    SplitNoSep(s, ',');
  }

  /** Any extension other than `txt` makes the string a single accession,
      commas and all. */
  lemma OtherExtensionSingle(s: string, contents: Result<string, string>)
    requires Extension(s).Some? && Extension(s).value != "txt"
    ensures ParseAccession(s, contents) == Ok(Single(s))
  {
  }

  /** A `.txt` path names a file with one accession per line: the result
      has one trimmed entry per line of the file, in order. */
  lemma TextFileList(s: string, text: string)
    requires Extension(s) == Some("txt")
    ensures ParseAccession(s, Ok(text)).Ok? && ParseAccession(s, Ok(text)).value.List?
    ensures var xs := ParseAccession(s, Ok(text)).value.accessions;
            |xs| == |Lines(text)| && forall i :: 0 <= i < |xs| ==> xs[i] == Trim(Lines(text)[i])
  {
  }

  /** For a file without carriage returns, the lines are the pieces between
      newlines, a final newline ending the last line. */
  lemma TextFileListBySplit(s: string, text: string)
    requires Extension(s) == Some("txt") && '\r' !in text && text != []
    ensures ParseAccession(s, Ok(text)) ==
            Ok(List(TrimAll(Split(if text[|text| - 1] == '\n' then text[..|text| - 1] else text, '\n'))))
  {
    LinesAsSplit(text);
  }

  /** `Args::check`: grouping by experiment and by sample at once ends the
      process with status 1. */
  function Check(args: Args): (r: Result<Unit, Abort>)
    ensures r.Err? <==> args.groupByExperiment && args.groupBySample
    ensures r.Err? ==> r.error == Exit(1)
  {
    if args.groupByExperiment && args.groupBySample then Err(Exit(1)) else Ok(Unit)
  }
}
