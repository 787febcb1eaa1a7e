# rsfq in Dafny

rsfq is a command-line tool that downloads sequencing reads (FASTQ files) for
an accession from public archives. This project models the core of the tool
and proves properties of that model:

- **Accession classification** (`Utils`). The four anchored patterns turn an
  accession into an ENA portal query. Nothing else is accepted, and the
  process exits with status 1.
- **Providers and the command line** (`Provs`, `Cli`):
  - the parsing and printing of the provider name;
  - the parsing of the accession argument: one accession, a comma-separated
    list, or a `.txt` file of accessions;
  - the check of the grouping flags.
- **ENA metadata** (`Ena`):
  - one portal request per attempt;
  - the reply's tab-separated body parsed into run records, one map per
    non-empty line after the header;
  - the retry loop of `get_run_info`.
- **SRA Toolkit pipeline** (`Sra`):
  - `prefetch`, then `fasterq-dump`, both retried by `run_with_retry`;
  - one `pigz` per raw FASTQ;
  - removal of the `.sra` file;
  - the layout check, which also decides when an earlier download can be
    skipped.
- **ENA download path** (`Core`):
  - `get_fastqs` takes the first run of a single accession;
  - `download_fastq` checks each URL/checksum pair of a paired run;
  - `download` runs `aria2c` until the MD5 checksum of the file matches;
  - `md5sum` reads the file in 10 MB chunks.

Rust's `str` operations are modelled in `Text` (`split`, `trim`, `lines`,
`usize::to_string`). `Path::file_name`, `Path::extension` and `Path::join`
are modelled in `Paths`. Their properties are proved there.

The operating system is the class `Os.Os`:
- a map of regular files to their bytes;
- the directories created;
- the log of commands spawned and the log of sleeps;
- the set of programs on `PATH`.

What a child process does is outside the tool, so it is an oracle: the
`k`-th process spawned ends with `world(k).status` and leaves
`world(k).after` as the files. The MD5 digest, the sizes of successive
reads, and the search of the working directory for a missing file are
oracles too. The portal's replies are a parameter of `GetRunInfo`:
`replies(k)` answers the `k`-th request.

A panic (`expect`, `unwrap`, `todo!`) is `Abort.Panic(message)`.
`std::process::exit(n)` is `Abort.Exit(n)`.

Loops that update state are methods with loop invariants:
- `RunWithRetry`, `CompressEach`, `RemoveExisting` and `EnsureTools`;
- `GetRunInfo`;
- `Md5Sum`'s read loop, `AriaAttempts` and `FetchPairs`.

Each is proved against ghost predicates that describe every attempt made,
for example `Finished`, `Traced`, `Fetched` and `DownloadTrace`, and
against functions that give the result, such as `DownloadResult`. Lemmas
then derive what the tool promises from those definitions. One example: without `--force`, an
accepted download leaves a file with the expected checksum.

Some behaviours of the code are easy to miss. The model keeps each of them
as written:

- The checksum comparison at `core.rs:152` is exact. A digest that differs
  from the expected one only in letter case is rejected.
- The file-name check of `download_fastq` (`core.rs:65-69`) accepts only the
  mate suffixes `_1.fastq.gz` / `_2.fastq.gz`, or exactly
  `<run_accession>.fastq.gz`. A `.fq.gz` name is rejected.
- The whole body of the pair loop runs only for `library_layout == "PAIRED"`
  (`core.rs:64`). A run of any other layout downloads nothing. Nothing
  checks that the number of files matches the layout.
- `download` returns `Some(path)` even when every attempt failed
  (`core.rs:169`). `Core.Download` states this outcome next to the returned
  path, through the `Finished` predicate.
- `layout_satisfied` for `Single` requires only that `<acc>.fastq.gz`
  exists. For `Paired` it requires both mates. Other files may be present
  (`sra.rs:248-258`).
- `sra.rs` imports `Layout` from `crate::utils`, but `utils.rs` does not
  define it. The model defines `Layout` in the `Sra` module.
- Two branches cannot be taken:
  - When compression succeeds, `compress_fastqs` never returns an empty
    list (`sra.rs:212-216`). So the `produced.is_empty()` fallback of
    `download_run` (`sra.rs:144-145`) is never taken.
  - `get_run_info` never returns an empty list, so the `"No data found!"`
    panic of `get_fastqs` (`core.rs:36`) never fires.
- `compress_fastqs` gives `pigz` the path `raw`, which is already joined to
  `outdir`, and also runs `pigz` inside `outdir` (`sra.rs:187-199`). A
  relative `outdir` is therefore applied twice. `Sra.PigzCommand` records
  both, the path and the working directory. Which files `pigz` then leaves
  is up to the process oracle.

  Both branches are modelled as written.

## Model

| member | source | states |
|---|---|---|
| Utils.ValidateQuery | rsfq/src/utils.rs:11-35 | The result is an error exactly when none of the four patterns matches; the error names the accession |
| Utils.PatternsExclusive | rsfq/src/utils.rs:4-9 | No accession matches two of the four patterns |
| Utils.StudyAccessionQuery | rsfq/src/utils.rs:12-16 | A project/study accession gives `(study_accession=q OR secondary_study_accession=q)` |
| Utils.SampleAccessionQuery | rsfq/src/utils.rs:17-21 | A sample/biosample accession gives `(sample_accession=q OR secondary_sample_accession=q)` |
| Utils.ExperimentAccessionQuery | rsfq/src/utils.rs:22-23 | An experiment accession gives `experiment_accession=q` |
| Utils.RunAccessionQuery | rsfq/src/utils.rs:24-25 | A run accession gives `run_accession=q` |
| Utils.OrderIrrelevant | rsfq/src/utils.rs:11-35 | Trying the patterns in reverse order gives the same result for every string |
| Utils.ValidateQueryByCategory | rsfq/src/utils.rs:11-35 | The result is the query of the kind the accession is classified as, or the error when it has none |
| Utils.QueryStartsWithPrefix | rsfq/src/utils.rs:13-25 | Every query starts with the literal field prefix of its kind |
| Utils.QueryTag | rsfq/src/utils.rs:13-25 | The first and third characters of a query identify its kind |
| Utils.SameKindQueryInjective | rsfq/src/utils.rs:13-25 | Two accessions of one kind with equal queries are equal |
| Utils.QueryOfInjective | rsfq/src/utils.rs:13-25 | A query determines both its kind and its accession |
| Utils.QueryInjective | rsfq/src/utils.rs:11-35 | Two accepted accessions with the same query are the same accession |
| Provs.FromStr | rsfq/src/provs.rs:29-35 | A rejected string yields the message `Invalid provider: <s>` |
| Provs.FromStrToString | rsfq/src/provs.rs:29-59 | Parsing the printed form of a provider gives that provider back |
| Provs.FromStrAccepts | rsfq/src/provs.rs:29-35 | A string parses exactly when it is `ena` or `sra` (case-sensitive, so `ENA` and `SRA` are errors), and then prints back as itself |
| Cli.ParseAccession | rsfq/src/cli.rs:190-216 | The only error is the one from reading a `.txt` file, passed on unchanged |
| Cli.CommaSeparatedList | rsfq/src/cli.rs:204-209 | Without an extension, a string with a comma gives a list of the trimmed comma pieces, one more than there are commas |
| Cli.NoCommaSingle | rsfq/src/cli.rs:204-212 | Without an extension or a comma, the string is a single accession, untrimmed |
| Cli.OtherExtensionSingle | rsfq/src/cli.rs:194-215 | With an extension other than `txt`, the string is a single accession, commas included |
| Cli.TextFileList | rsfq/src/cli.rs:195-201 | A readable `.txt` file gives one trimmed entry per line, in order |
| Cli.TextFileListBySplit | rsfq/src/cli.rs:196-200 | For a file without carriage returns, the entries are the trimmed pieces between newlines; a final newline adds no entry |
| Cli.Check | rsfq/src/cli.rs:172-175 | The check fails, with exit status 1, exactly when grouping by experiment and by sample are both requested |
| Ena.ZipRecord | rsfq/src/provs/ena.rs:126-136 | Every key is a header column with a non-empty value; every column with a non-empty field becomes a key |
| Ena.NonEmptyLines | rsfq/src/provs/ena.rs:123-124 | The result keeps lines of the input, none of them empty; it is empty exactly when every line is |
| Ena.NonEmptyLinesAppend | rsfq/src/provs/ena.rs:123-124 | Filtering two pieces one after the other gives the filtered whole, so the kept lines stay in input order |
| Ena.NonEmptyLinesCount | rsfq/src/provs/ena.rs:123-124 | As multisets, the result is the input with every empty line removed: each non-empty line is kept as often as it occurs |
| Ena.Records | rsfq/src/provs/ena.rs:123-138 | One record per non-empty data line |
| Ena.ParseBody | rsfq/src/provs/ena.rs:119-163 | A success carries at least one record; a failure has status 200 |
| Ena.MetadataResponse | rsfq/src/provs/ena.rs:103-176 | A success comes only from a 2xx reply and carries at least one record |
| Ena.EmptyBodyIsError | rsfq/src/provs/ena.rs:154-162 | A 2xx reply with an empty or unreadable body is `Error(200, "... response was empty")` |
| Ena.HeaderOnlyIsError | rsfq/src/provs/ena.rs:140-149 | A 2xx reply with a header but only empty data lines is `Error(200, "... empty response for query")` |
| Ena.SuccessIffDataLines | rsfq/src/provs/ena.rs:114-153 | A reply succeeds exactly when it is 2xx and has a non-empty line after the header; the records are those lines zipped with the header, in order |
| Ena.FailedRequestIsError | rsfq/src/provs/ena.rs:165-174 | A non-2xx reply is an error with its status and body; a transport failure is an error with status 500 |
| Ena.RecordValuesFromColumns | rsfq/src/provs/ena.rs:126-136 | Every value of a record is the field of a column whose header is its key |
| Ena.RecordLastColumnWins | rsfq/src/provs/ena.rs:126-136 | A key not repeated in a later column maps to its own non-empty field |
| Ena.RecordSkipsEmpty | rsfq/src/provs/ena.rs:129-134 | A key whose only column has an empty field is absent |
| Ena.RecordOfDistinctHeaders | rsfq/src/provs/ena.rs:122-136 | With distinct headers, each column maps to its field exactly when that field is not empty |
| Ena.GetRunInfo | rsfq/src/provs/ena.rs:38-77 | Between 1 and `maxAttempts + 1` requests to the same URL, all but the last failing. Success returns the last reply's records; exhaustion exits with status 1. The failure counter equals the number of sleeps, each of `sleep` seconds |
| Sra.FirstMissingSpec | rsfq/src/provs/sra.rs:33-38 | No tool is reported missing exactly when all are on `PATH`; a reported tool is the first one not on `PATH` |
| Sra.EnsureTools | rsfq/src/provs/sra.rs:33-38 | The result is `MissingTool` of the first tool not on `PATH`, or success |
| Sra.GzDistinct | rsfq/src/provs/sra.rs:305-311 | The three compressed candidates are different paths |
| Sra.RawDistinct | rsfq/src/provs/sra.rs:323-329 | The three raw candidates are different paths |
| Sra.SraNotGz | rsfq/src/provs/sra.rs:229-235 | The `.sra` file removed by `cleanup_sra` is none of the compressed candidates |
| Sra.SraNotRaw | rsfq/src/provs/sra.rs:229-235 | The `.sra` file is none of the raw candidates |
| Sra.CandidatesDistinct | rsfq/src/provs/sra.rs:305-329 | All seven paths (three compressed, three raw, the `.sra` file) that `download_run` works with are different |
| Sra.GzOfRaw | rsfq/src/provs/sra.rs:187-189 | The `.gz` name of each raw candidate is the compressed candidate in the same position |
| Sra.CandidateNames | rsfq/src/provs/sra.rs:305-311 | For an accession without `/`, the compressed candidates have the file names `<acc>.fastq.gz`, `<acc>_1.fastq.gz` and `<acc>_2.fastq.gz` |
| Sra.GlobalEitherLayout | rsfq/src/provs/sra.rs:248-258 | A global layout is satisfied exactly when a single or a paired one is |
| Sra.LayoutMonotone | rsfq/src/provs/sra.rs:248-258 | More files present never unsatisfy a layout |
| Sra.ExistingPaths | rsfq/src/provs/sra.rs:287-293 | A path is in the result exactly when it is one of the paths and it exists |
| Sra.ExistingPathsAppend | rsfq/src/provs/sra.rs:287-293 | Filtering two lists one after the other gives the filtered whole, so the kept paths stay in input order |
| Sra.ExistingPathsCount | rsfq/src/provs/sra.rs:287-293 | Each existing path is kept as often as it is listed; a missing one never appears |
| Sra.ExistingPathsAll | rsfq/src/provs/sra.rs:287-293 | When all paths exist, they all come back, in order |
| Sra.SatisfiedHasPaths | rsfq/src/provs/sra.rs:89-96 | The list returned when a download is skipped is never empty, and has two paths for a paired layout |
| Sra.RemoveExisting | rsfq/src/provs/sra.rs:269-276 | Exactly the given paths are removed from the files |
| Sra.CleanupSra | rsfq/src/provs/sra.rs:229-235 | Exactly the `.sra` file is removed from the files |
| Sra.Verdict | rsfq/src/provs/sra.rs:373-389 | Stopping after an attempt gives success exactly when that attempt succeeded |
| Sra.RunWithRetry | rsfq/src/provs/sra.rs:360-394 | Between 0 and `attempts` runs of the same command (`Retried`): none exactly when `attempts` is zero, only ordinary failures are retried, with a sleep after each. The result is `RetryResult`, the verdict on the last run, or `CommandFailed(tool, 1)` for zero attempts |
| Sra.CompressOne | rsfq/src/provs/sra.rs:191-206 | One `pigz` run; the result is the verdict on it |
| Sra.CompressNext | rsfq/src/provs/sra.rs:187-209 | A candidate is compressed exactly when it exists at that point; the trace of the loop is extended by one step |
| Sra.CompressEach | rsfq/src/provs/sra.rs:187-210 | The candidates that exist when reached are compressed in order, one `pigz` each; the first failure stops the loop; success reports their `.gz` names |
| Sra.CompressTraceAt | rsfq/src/provs/sra.rs:187-188 | Candidate `j` was compressed exactly when it existed after the compressions before it |
| Sra.CompressFastqs | rsfq/src/provs/sra.rs:178-217 | As `CompressEach`; success names at least one `.gz` file, and finding no raw FASTQ is exactly `NoFastqProduced` |
| Sra.Fetch | rsfq/src/provs/sra.rs:102-148 | The result and the files left are `DownloadResult`: when the retries of `prefetch` fail, that error is the result (`?`) and nothing else runs; otherwise the rest goes as in `Sra.DumpAndConvert`. `DownloadTrace` holds, and the spawned commands are `prefetch` attempts, `fasterq-dump` attempts and one `pigz` per raw candidate compressed, in that order, with the sleeps between attempts. Success ran both tools, names the `.gz` files compressed (never none), satisfies the layout and leaves no `.sra` file |
| Sra.DumpAndConvert | rsfq/src/provs/sra.rs:119-148 | The result and the files left are `DumpResult`: when the retries of `fasterq-dump` fail, that error is the result and nothing is compressed; otherwise the run is converted as in `Sra.Convert`. `DumpTrace` holds; success ran `fasterq-dump` |
| Sra.Convert | rsfq/src/provs/sra.rs:137-148 | The result and the files left are `ConvertResult`: a compression error is the result and the `.sra` file stays; otherwise the `.sra` file is removed and the result is `LayoutMismatch(acc)` when the layout is not satisfied, else the names `compress_fastqs` returned. `CompressOutcome` holds, so success names the `.gz` files of the raw candidates compressed, never none, satisfies the layout and leaves no `.sra` file |
| Sra.ConvertSucceeded | rsfq/src/provs/sra.rs:137-148 | When `compress_fastqs` reports the `.gz` names of what it compressed and never none, a successful `ConvertResult` reports those names, satisfies the layout and the `.sra` file is gone |
| Sra.Refetch | rsfq/src/provs/sra.rs:98-148 | With `force`, the compressed candidates are removed first; then result and files are `DownloadResult` from the files left, and `DownloadTrace` holds, as in `Fetch`. Zero attempts fail with `CommandFailed(prefetch, 1)` having spawned nothing; success ran every tool, satisfies the layout and leaves no `.sra` file |
| Sra.NoAttemptsFetchNothing | rsfq/src/provs/sra.rs:102-117 | With zero attempts, `prefetch` never runs and `DownloadResult` is `CommandFailed(prefetch, 1)` with the files unchanged |
| Sra.FetchFailed | rsfq/src/provs/sra.rs:102-117 | When the retries of `prefetch` fail, `DownloadResult` is that error with the files its attempts left, whatever the later stages would do |
| Sra.FetchDumped | rsfq/src/provs/sra.rs:102-135 | After a successful `prefetch`, `DownloadResult` and `DownloadTrace` are those of the `fasterq-dump` stage that follows |
| Sra.DumpConverted | rsfq/src/provs/sra.rs:119-148 | After a successful `fasterq-dump`, `DumpResult` and `DumpTrace` are those of the conversion that follows |
| Sra.DownloadRun | rsfq/src/provs/sra.rs:75-149 | A missing tool is `MissingTool` and changes nothing. A satisfied layout without `force` returns the existing candidates and spawns nothing. Otherwise the directory is created and result and files are `DownloadResult` as in `Refetch`: each failing stage returns its own error and stops the run, and success means every tool ran, the layout is satisfied and no `.sra` file is left |
| Core.ReadLength | rsfq/src/core.rs:180-189 | A read returns at most the bytes left and at most `BUFFER_SIZE` (10 MB), and returns zero only at the end of the file |
| Core.Md5Of | rsfq/src/core.rs:172-193 | The only error is the `File not found!` panic, when neither the path nor the search finds a file |
| Core.Md5Sum | rsfq/src/core.rs:172-193 | The digest of the whole file at the path, or of the file the search finds; `None` when that file cannot be opened; a panic when nothing is found |
| Core.DestinationName | rsfq/src/core.rs:102-108 | A destination exists exactly when the URL has a file name, and the destination keeps that file name |
| Core.Judge | rsfq/src/core.rs:133-166 | Only a zero exit is accepted; a failed spawn or a missing exit code panics |
| Core.ForceIgnoresChecksum | rsfq/src/core.rs:144-146 | Under `force` the checksum is never consulted, and a zero exit is accepted |
| Core.ChecksumDecides | rsfq/src/core.rs:148-164 | Without `force`, a zero exit is accepted exactly when the checksum equals the expected one, and retried otherwise |
| Core.AttemptOnce | rsfq/src/core.rs:133-166 | One `aria2c` run, judged on its exit and on the checksum of the files it left |
| Core.RetriedStep | rsfq/src/core.rs:139-160 | A retried attempt extends the run of retried attempts |
| Core.EndedByAttempt | rsfq/src/core.rs:143-166 | An attempt that is not retried ends the download, with no sleep after it |
| Core.EndedByExhaustion | rsfq/src/core.rs:132-169 | When `maxAttempts + 1` attempts are all retried, the download ends without error, after as many sleeps |
| Core.AttemptStep | rsfq/src/core.rs:133-166 | One turn of the retry loop: a retried attempt sleeps and continues; any other attempt ends the download |
| Core.AriaAttempts | rsfq/src/core.rs:132-167 | The attempts take the shape `Finished` describes; errors are panics |
| Core.AcceptedDownloadVerified | rsfq/src/core.rs:144-164 | Without `force`, a download whose last attempt was accepted (the final one allowed included) succeeds and leaves a destination whose checksum is the expected one |
| Core.RetriesRetried | rsfq/src/core.rs:132-167 | The opening retries of a download are all retried, and the attempt after them is not, unless the attempt limit cut them short |
| Core.RanAttempts | rsfq/src/core.rs:132-167 | The number of attempts of a download is determined by the outcomes of its processes: the shape of `Ran` fits exactly one count, `Attempts` |
| Core.Download | rsfq/src/core.rs:93-170 | A URL without a file name panics and changes nothing. An existing destination without `force` returns `None` and changes nothing. Otherwise the attempts are as `Finished` says, and the destination is returned unless an attempt panicked |
| Core.Zip | rsfq/src/core.rs:63 | As many pairs as the shorter sequence, each pairing the elements at one position |
| Core.CheckNameCases | rsfq/src/core.rs:65-77 | A name passes exactly when it has a mate suffix or is the run's `<run_accession>.fastq.gz`. A mismatch exits with status 1; a missing name or accession panics |
| Core.CheckPairCases | rsfq/src/core.rs:65-88 | A pair passes exactly when its name passes and its checksum is not empty; the name is checked first; an empty checksum exits with status 1 |
| Core.SingleNameAccepted | rsfq/src/core.rs:65-69 | A URL whose file name is `<acc>.fastq.gz` passes for the run `acc`, whatever its directory |
| Core.MateNamesAccepted | rsfq/src/core.rs:65 | URLs ending in `_1.fastq.gz` or `_2.fastq.gz` always pass |
| Core.FetchPair | rsfq/src/core.rs:84-170 | A URL without a file name panics. When `download` skips the pair (no file name, or the destination exists without `force`) there is no run and nothing changes. Otherwise `aria2c` runs as `Finished` says: between 1 and `attempts + 1` times, and the files and sleeps are those the attempts leave. The runs and the files equal `PairRun`. Only panics are passed on |
| Core.ChainAt | rsfq/src/core.rs:63-118 | In the chain of downloads of a run, download `j` runs `aria2c` at least once exactly when its destination was missing before it or `force` is set. Its attempts then end as `Ran` says, and the files after it are those they leave. A skipped download changes nothing |
| Core.FetchNext | rsfq/src/core.rs:63-90 | A pair is downloaded only after it passes its check; a failed check is the result and changes nothing; a download extends the `Chain` of file states by one `PairRun` |
| Core.FetchPairs | rsfq/src/core.rs:63-90 | The pairs are handled in order, each after passing its check, and each is downloaded as `PairRun` says on the files the previous ones left (`Chain`). The first pair that fails its check ends the loop with that check's error; success means every pair was handled |
| Core.DownloadFastq | rsfq/src/core.rs:46-91 | As `FastqDownloaded`: a missing `fastq_ftp`, `fastq_md5` or `library_layout` panics, naming the first missing in that order, and changes nothing. A non-PAIRED run succeeds and changes nothing. A PAIRED run handles the zipped pairs in order, each after its check: all on success, otherwise up to the failed check (its error is the result) or a download that panicked. The files between the downloads form a `Chain`: each download runs `aria2c` exactly when its destination was missing before it or `force` is set, and leaves the files its attempts leave |
| Core.FirstRun | rsfq/src/core.rs:28-36 | As `Queried`: an unclassifiable accession exits with status 1 before any request; otherwise the first record of the first successful reply, or exit status 1 after `maxAttempts + 1` failures |
| Core.GetFastqs | rsfq/src/core.rs:25-44 | A list of accessions panics (not implemented) and changes nothing. A single accession is queried as `FirstRun` says; a failed query is the result and changes nothing; otherwise the first run is downloaded into the output directory (default `DOWNLOADS`) exactly as `DownloadFastq` states |
| Text.Split | rsfq/src/provs/ena.rs:122 | At least one piece, none containing the separator |
| Text.JoinSplit | rsfq/src/core.rs:63 | Joining the pieces of a split with the separator gives back the string |
| Text.SplitJoin | rsfq/src/core.rs:63 | Splitting a join of separator-free pieces gives back the pieces |
| Text.SplitCount | rsfq/src/cli.rs:205-208 | A split has one more piece than there are separators |
| Text.Trim | rsfq/src/cli.rs:199 | The result is the input without its leading and trailing whitespace, and neither starts nor ends with whitespace |
| Text.TrimAll | rsfq/src/cli.rs:205-206 | Each string is trimmed, in order |
| Text.Lines | rsfq/src/provs/ena.rs:119 | No line contains a newline; there are no lines exactly when the text is empty |
| Text.LinesAsSplit | rsfq/src/cli.rs:198 | Without carriage returns, the lines are the newline-separated pieces; a final newline adds no line |
| Text.NatToStringValue | rsfq/src/provs/sra.rs:127 | The decimal text of a thread count reads back as that count |
| Paths.FileName | rsfq/src/core.rs:103-105 | A file name is never empty, `.` or `..`, and has no `/` |
| Paths.Extension | rsfq/src/cli.rs:194 | An extension is the text after the last `.` of a file name that does not start with that `.` |
| Paths.JoinPath | rsfq/src/core.rs:102 | A joined path ends with the name, and starts with the directory when the name is relative |
| Paths.FileNameOfJoin | rsfq/src/core.rs:102-108 | A single name joined to any directory is the file name of the result |
| Paths.JoinAppend | rsfq/src/provs/sra.rs:189 | Appending text to a non-empty name appends it to the joined path |
| Paths.JoinInjective | rsfq/src/provs/sra.rs:305-311 | Two names, both relative or both absolute, joined to the same directory give the same path only if they are equal |

## Left out

- `get_fastqs` for a list of accessions is `todo!()` in the source (`core.rs:39-42`). It is modelled as that panic.
- `check_dependencies` and `check_nf` in `utils.rs` are `todo!()` and the core never calls them. They are not part of this model.
- `nf.rs` and `main.rs` are not part of this model. That includes the choice of provider and any fallback from SRA to ENA.
- Cli.Check: does not model the creation of the output directory (`cli.rs:166-170`). Its only failure is an I/O panic, and no other part of the model reads the directories.
- clap's argument definitions, defaults and value parsing are not modelled. `Args` is the parsed record.
- Logging (`log::info!`, `warn!`, `error!`) only writes messages and is left out.
- Core.AriaAttempts and Core.Download: do not model `usize` overflow of the attempt counter when `max_attempts` is `usize::MAX`. Integers are unbounded here, and such a value is not a realistic argument.
- Ena.GetRunInfo: does not model `usize` overflow of its counter, for the same reason.
- HTTP is an oracle of replies (`replies(k)` answers the `k`-th request). The request header and the client configuration are not modelled.
- Sleeps are appended to a log. No clock is modelled.
- Child processes are an oracle (`Os.world`). `aria2c`, `prefetch`, `fasterq-dump` and `pigz` are not modelled beyond their exit status and the files they leave.
- The MD5 digest is an oracle function of the bytes. Hashing the chunks in order is modelled as hashing their concatenation, which `Md5Sum` proves equals the file. The hex formatting is part of the oracle.
- I/O errors are not modelled for `create_dir_all`, for `remove_file`, or for a read failing partway through a file. A file that cannot be opened is modelled as one that is absent from the files.
- The walk of the working directory in `check_fq_path` (`core.rs:195-222`) is the oracle `Os.search`. Its `min_depth(2)` and the failure of `current_dir` are not modelled.
- `Path::exists` is modelled on regular files only. A directory at a candidate path counts as absent.
- `which` is membership in `Os.onPath`.
- The `"ERROR: Invalid file name!"` panic of `to_str` (`core.rs:107`) cannot happen. Strings here are sequences of characters, never invalid UTF-8.
- Core.DownloadFastq: for a PAIRED run states the commands spawned, the files after each download and the number of `aria2c` runs of each, but not the sleeps per download. Core.FetchPair states them for one download, through `Finished`. Core.GetFastqs passes on exactly what Core.DownloadFastq states.
- Core.FirstRun: the pauses between portal requests are returned by `Ena.GetRunInfo`, which states their number and length, but they are not appended to `Os.slept`. The portal is modelled without `Os`, so its sleeps are not in the same log.
- The warning when more than one run is found (`core.rs:31-33`) is a log message only.
