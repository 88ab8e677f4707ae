/**
  The collate_json_reports action: validation of the report list, then either
  a verbatim copy of a single report or the fold of every later report into
  the first one. Reading, parsing, copying and writing files are not
  performed: the files are a map from path to bytes, parsing is a parameter,
  and the action's effect is the content it would put at the destination.
 */
module Collator {
  import opened Wrappers
  import opened JsonValues
  import opened ReportMerge

  newtype byte = x: int | 0 <= x < 256
  type Bytes = seq<byte>
  type Path = string

  /** The files the action can see: a path exists when it has contents. */
  type FileSystem = map<Path, Bytes>

  /** JSON parsing of a file's contents; `None` when they are not a JSON object. */
  type Parser = Bytes -> Option<Report>

  /** Why the list of reports is refused before the action runs. */
  datatype ValidationError = NoReportFiles | ReportNotFound(path: Path)

  /** Why a collation fails. */
  datatype CollateError =
    | Invalid(reason: ValidationError)
    | ParseFailed(path: Path)
    | MergeFailed(cause: MergeError)

  /** What is written to the destination: the copied bytes, or the report to serialise. */
  datatype Output = Copied(bytes: Bytes) | Serialized(report: Report)

  datatype Written = Written(dest: Path, content: Output)

  const NotFoundPrefix: string := "Error: JSON report not found: '"

  /** The user-facing message of a validation error. */
  function Message(e: ValidationError): (m: string)
    ensures e.NoReportFiles? <==> !(NotFoundPrefix <= m)
  {
    match e
    case NoReportFiles => "No JSON report files found"
    case ReportNotFound(p) => NotFoundPrefix + p + "'"
  }

  /** Distinct validation errors have distinct messages: a message names its missing path. */
  lemma MessageIdentifiesError(e1: ValidationError, e2: ValidationError)
    ensures Message(e1) == Message(e2) ==> e1 == e2
  {
    if Message(e1) == Message(e2) && e1.ReportNotFound? && e2.ReportNotFound? {
      var m := Message(e1);
      assert m[|NotFoundPrefix|..|m| - 1] == e1.path;
      assert Message(e2)[|NotFoundPrefix|..|m| - 1] == e2.path;
    }
  }

  /** Every path of the list names an existing file. */
  predicate AllExist(paths: seq<Path>, fs: FileSystem)
  {
    forall i :: 0 <= i < |paths| ==> paths[i] in fs
  }

  /** The index of the first path that does not exist, or the list's length when all do. */
  function FirstMissing(paths: seq<Path>, fs: FileSystem): (i: nat)
    ensures i <= |paths|
    ensures forall j :: 0 <= j < i ==> paths[j] in fs
    ensures i < |paths| ==> paths[i] !in fs
  {
    if paths == [] then 0
    else if paths[0] !in fs then 0
    else 1 + FirstMissing(paths[1..], fs)
  }

  /**
    The check on the `reports` option: an empty list is refused; otherwise the
    first path in list order that does not exist is refused; otherwise it passes.
   */
  function Validate(reports: seq<Path>, fs: FileSystem): (o: Outcome<ValidationError>)
    ensures o == Pass <==> reports != [] && AllExist(reports, fs)
    ensures o == Fail(NoReportFiles) <==> reports == []
    ensures forall i :: 0 <= i < |reports| && reports[i] !in fs && AllExist(reports[..i], fs) ==>
              o == Fail(ReportNotFound(reports[i]))
    ensures o.Fail? && o.error.ReportNotFound? ==>
              exists i :: 0 <= i < |reports| && reports[i] == o.error.path && reports[i] !in fs
                          && AllExist(reports[..i], fs)
  {
    if reports == [] then Fail(NoReportFiles)
    else
      var i := FirstMissing(reports, fs);
      if i == |reports| then Pass else Fail(ReportNotFound(reports[i]))
  }

  /** The validation loop: refuse the empty list, then stop at the first missing path. */
  method VerifyReports(reports: seq<Path>, fs: FileSystem) returns (o: Outcome<ValidationError>)
    ensures o == Validate(reports, fs)
  {
    if reports == [] {
      return Fail(NoReportFiles);
    }
    for i := 0 to |reports|
      invariant AllExist(reports[..i], fs)
    {
      if reports[i] !in fs {
        return Fail(ReportNotFound(reports[i]));
      }
    }
    assert reports[..|reports|] == reports;
    return Pass;
  }

  /**
    The fold over the later report paths: each file is parsed and merged into
    the accumulator in list order; the first failure ends the fold.
   */
  function Fold(acc: Report, paths: seq<Path>, fs: FileSystem, parse: Parser): (r: Result<Report, CollateError>)
    requires AllExist(paths, fs)
    ensures r.Err? ==> !r.error.Invalid?
    ensures r.Err? && r.error.ParseFailed? ==> r.error.path in paths
    decreases paths
  {
    if paths == [] then Ok(acc)
    else match parse(fs[paths[0]])
      case None => Err(ParseFailed(paths[0]))
      case Some(other) =>
        match Merge(acc, other)
        case Err(e) => Err(MergeFailed(e))
        case Ok(next) => Fold(next, paths[1..], fs, parse)
  }

  /**
    The action body once the list has been validated: one report is copied
    byte for byte and never parsed; otherwise the first is the base and the
    rest are folded into it.
   */
  function Collation(reports: seq<Path>, dest: Path, fs: FileSystem, parse: Parser): (r: Result<Written, CollateError>)
    requires reports != [] && AllExist(reports, fs)
    ensures |reports| == 1 ==> r.Ok?
    ensures r.Ok? ==> r.value.dest == dest && (r.value.content.Copied? <==> |reports| == 1)
    ensures r.Err? ==> !r.error.Invalid?
    ensures r.Err? && r.error.ParseFailed? ==> r.error.path in reports
  {
    if |reports| == 1 then Ok(Written(dest, Copied(fs[reports[0]])))
    else match parse(fs[reports[0]])
      case None => Err(ParseFailed(reports[0]))
      case Some(base) =>
        match Fold(base, reports[1..], fs, parse)
        case Err(e) => Err(e)
        case Ok(m) => Ok(Written(dest, Serialized(m)))
  }

  /** The action body as the source runs it: the single-report copy, or a loop over the later reports. */
  method Run(reports: seq<Path>, dest: Path, fs: FileSystem, parse: Parser) returns (r: Result<Written, CollateError>)
    requires reports != [] && AllExist(reports, fs)
    ensures r == Collation(reports, dest, fs, parse)
  {
    if |reports| == 1 {
      return Ok(Written(dest, Copied(fs[reports[0]])));
    }
    var first := parse(fs[reports[0]]);
    if first.None? {
      return Err(ParseFailed(reports[0]));
    }
    var base := first.value;
    var rest := reports[1..];
    for i := 0 to |rest|
      invariant Fold(base, rest[i..], fs, parse) == Fold(first.value, rest, fs, parse)
    {
      assert rest[i..][1..] == rest[i + 1..];
      var report := parse(fs[rest[i]]);
      if report.None? {
        return Err(ParseFailed(rest[i]));
      }
      var merged := MergeReports(base, report.value);
      if merged.Err? {
        return Err(MergeFailed(merged.error));
      }
      base := merged.value;
    }
    return Ok(Written(dest, Serialized(base)));
  }

  /** The whole action: validation of the report list, then the action body. */
  function Collate(reports: seq<Path>, dest: Path, fs: FileSystem, parse: Parser): (r: Result<Written, CollateError>)
    ensures (r.Err? && r.error.Invalid?) <==> Validate(reports, fs).Fail?
    ensures r.Err? && r.error.Invalid? ==> r.error.reason == Validate(reports, fs).error
    ensures r.Ok? ==> r.value.dest == dest
    ensures r.Err? && r.error.ParseFailed? ==> r.error.path in reports
  {
    match Validate(reports, fs)
    case Fail(e) => Err(Invalid(e))
    case Pass => Collation(reports, dest, fs, parse)
  }

  method CollateJsonReports(reports: seq<Path>, dest: Path, fs: FileSystem, parse: Parser)
    returns (r: Result<Written, CollateError>)
    ensures r == Collate(reports, dest, fs, parse)
  {
    var checked := VerifyReports(reports, fs);
    if checked.Fail? {
      return Err(Invalid(checked.error));
    }
    r := Run(reports, dest, fs, parse);
  }

  /**
    A single report is copied verbatim when it exists, whatever its contents
    and whatever the parser would make of them; otherwise it is reported missing.
   */
  lemma SingleReportIsCopied(p: Path, dest: Path, fs: FileSystem, parse: Parser)
    ensures Collate([p], dest, fs, parse)
         == if p in fs then Ok(Written(dest, Copied(fs[p]))) else Err(Invalid(ReportNotFound(p)))
  {
  }

  /** Every path of the list parses to a report. */
  predicate ParsesAll(paths: seq<Path>, fs: FileSystem, parse: Parser)
    requires AllExist(paths, fs)
  {
    forall i :: 0 <= i < |paths| ==> parse(fs[paths[i]]).Some?
  }

  /** The reports the paths parse to, in list order. */
  function Parsed(paths: seq<Path>, fs: FileSystem, parse: Parser): (rs: seq<Report>)
    requires AllExist(paths, fs) && ParsesAll(paths, fs, parse)
    ensures |rs| == |paths|
    ensures forall i :: 0 <= i < |paths| ==> parse(fs[paths[i]]) == Some(rs[i])
  {
    seq(|paths|, i requires 0 <= i < |paths| => parse(fs[paths[i]]).value)
  }

  /**
    The fold over paths succeeds exactly when every path parses and the merge
    fold over the parsed reports succeeds, and then the two results agree.
   */
  lemma {:induction false} FoldIsMergeAll(acc: Report, paths: seq<Path>, fs: FileSystem, parse: Parser)
    requires AllExist(paths, fs)
    ensures Fold(acc, paths, fs, parse).Ok?
        <==> ParsesAll(paths, fs, parse) && MergeAll(acc, Parsed(paths, fs, parse)).Ok?
    ensures Fold(acc, paths, fs, parse).Ok? ==>
              MergeAll(acc, Parsed(paths, fs, parse)) == Ok(Fold(acc, paths, fs, parse).value)
    decreases paths
  {
    if paths != [] {
      var tail := paths[1..];
      assert AllExist(tail, fs);
      match parse(fs[paths[0]]) {
        case None =>
        case Some(other) =>
          match Merge(acc, other) {
            case Err(e) =>
              if ParsesAll(paths, fs, parse) {
                assert Parsed(paths, fs, parse)[0] == other;
              }
            case Ok(next) =>
              FoldIsMergeAll(next, tail, fs, parse);
              assert ParsesAll(paths, fs, parse) <==> ParsesAll(tail, fs, parse) by {
                if ParsesAll(tail, fs, parse) {
                  forall i | 0 < i < |paths| ensures parse(fs[paths[i]]).Some? {
                    assert paths[i] == tail[i - 1];
                  }
                }
              }
              if ParsesAll(paths, fs, parse) {
                var rs := Parsed(paths, fs, parse);
                assert rs[0] == other;
                assert rs[1..] == Parsed(tail, fs, parse);
              }
          }
      }
    }
  }

  /**
    The first `n` paths, when the first parses and the `n - 1` after it parse:
    they all parse, and the first one's report heads their parsed list.
   */
  lemma ConsPrefix(paths: seq<Path>, fs: FileSystem, parse: Parser, n: nat)
    requires 0 < n <= |paths| && AllExist(paths, fs) && parse(fs[paths[0]]).Some?
    requires AllExist(paths[1..][..n - 1], fs) && ParsesAll(paths[1..][..n - 1], fs, parse)
    ensures AllExist(paths[..n], fs) && ParsesAll(paths[..n], fs, parse)
    ensures Parsed(paths[..n], fs, parse)
         == [parse(fs[paths[0]]).value] + Parsed(paths[1..][..n - 1], fs, parse)
  {
    var prefix, rest := paths[..n], paths[1..][..n - 1];
    forall i | 0 < i < n ensures prefix[i] == rest[i - 1] { }
    assert ParsesAll(prefix, fs, parse);
    assert Parsed(prefix, fs, parse) == [parse(fs[paths[0]]).value] + Parsed(rest, fs, parse);
  }

  /**
    A parse failure of the fold names a listed path that does not parse; every
    earlier path parsed and their reports merged without error.
   */
  lemma {:induction false} FoldParseErrorAt(acc: Report, paths: seq<Path>, fs: FileSystem, parse: Parser, p: Path)
    requires AllExist(paths, fs)
    requires Fold(acc, paths, fs, parse) == Err(ParseFailed(p))
    ensures exists i :: 0 <= i < |paths| && paths[i] == p && parse(fs[paths[i]]).None?
                        && AllExist(paths[..i], fs) && ParsesAll(paths[..i], fs, parse)
                        && MergeAll(acc, Parsed(paths[..i], fs, parse)).Ok?
    decreases paths
  {
    if parse(fs[paths[0]]).None? {
      assert paths[..0] == [];
      assert MergeAll(acc, Parsed(paths[..0], fs, parse)) == Ok(acc);
    } else {
      var next := Merge(acc, parse(fs[paths[0]]).value).value;
      var tail := paths[1..];
      assert AllExist(tail, fs);
      FoldParseErrorAt(next, tail, fs, parse, p);
      var j :| 0 <= j < |tail| && tail[j] == p && parse(fs[tail[j]]).None?
               && AllExist(tail[..j], fs) && ParsesAll(tail[..j], fs, parse)
               && MergeAll(next, Parsed(tail[..j], fs, parse)).Ok?;
      ConsPrefix(paths, fs, parse, j + 1);
      assert paths[j + 1] == p;
    }
  }

  /**
    A merge failure of the fold happens at some listed path: every path up to
    and including it parsed, the reports before it merged without error, and
    merging its report raised the error.
   */
  lemma {:induction false} FoldMergeErrorAt(acc: Report, paths: seq<Path>, fs: FileSystem, parse: Parser, e: MergeError)
    requires AllExist(paths, fs)
    requires Fold(acc, paths, fs, parse) == Err(MergeFailed(e))
    ensures exists i :: 0 <= i < |paths|
                        && AllExist(paths[..i + 1], fs) && ParsesAll(paths[..i + 1], fs, parse)
                        && AllExist(paths[..i], fs) && ParsesAll(paths[..i], fs, parse)
                        && MergeAll(acc, Parsed(paths[..i], fs, parse)).Ok?
                        && MergeAll(acc, Parsed(paths[..i + 1], fs, parse)) == Err(e)
    decreases paths
  {
    var other := parse(fs[paths[0]]).value;
    var tail := paths[1..];
    assert tail[..0] == [];
    ConsPrefix(paths, fs, parse, 1);
    match Merge(acc, other) {
      case Err(e0) =>
        assert paths[..0] == [];
        assert MergeAll(acc, Parsed(paths[..1], fs, parse)) == Err(e0);
        assert MergeAll(acc, Parsed(paths[..0], fs, parse)) == Ok(acc);
      case Ok(next) =>
        assert AllExist(tail, fs);
        FoldMergeErrorAt(next, tail, fs, parse, e);
        var j :| 0 <= j < |tail|
                 && AllExist(tail[..j + 1], fs) && ParsesAll(tail[..j + 1], fs, parse)
                 && AllExist(tail[..j], fs) && ParsesAll(tail[..j], fs, parse)
                 && MergeAll(next, Parsed(tail[..j], fs, parse)).Ok?
                 && MergeAll(next, Parsed(tail[..j + 1], fs, parse)) == Err(e);
        ConsPrefix(paths, fs, parse, j + 1);
        ConsPrefix(paths, fs, parse, j + 2);
        ConsFold(acc, other, Parsed(tail[..j], fs, parse));
        ConsFold(acc, other, Parsed(tail[..j + 1], fs, parse));
    }
  }

  /**
    A successful collation of two or more reports serialises the fold of every
    later report, in list order, into the first.
   */
  lemma CollatedIsMergeAll(reports: seq<Path>, dest: Path, fs: FileSystem, parse: Parser)
    requires |reports| >= 2
    requires Collate(reports, dest, fs, parse).Ok?
    ensures AllExist(reports, fs) && ParsesAll(reports, fs, parse)
    ensures MergeAll(Parsed(reports, fs, parse)[0], Parsed(reports, fs, parse)[1..]).Ok?
    ensures Collate(reports, dest, fs, parse).value.content
         == Serialized(MergeAll(Parsed(reports, fs, parse)[0], Parsed(reports, fs, parse)[1..]).value)
  {
    var base := parse(fs[reports[0]]).value;
    var tail := reports[1..];
    assert AllExist(tail, fs);
    FoldIsMergeAll(base, tail, fs, parse);
    forall i | 0 <= i < |reports| ensures parse(fs[reports[i]]).Some? {
      if i > 0 {
        assert reports[i] == tail[i - 1];
      }
    }
    var rs := Parsed(reports, fs, parse);
    assert rs[0] == base;
    assert rs[1..] == Parsed(tail, fs, parse);
  }

  /**
    Last write wins over a whole collation: with two or more reports and a
    non-empty first report, the collated `tests_failures` is the last report's.
   */
  lemma CollatedFailuresAreLast(reports: seq<Path>, dest: Path, fs: FileSystem, parse: Parser)
    requires |reports| >= 2
    requires Collate(reports, dest, fs, parse).Ok?
    requires reports[0] in fs && parse(fs[reports[0]]).Some? && parse(fs[reports[0]]).value != map[]
    ensures reports[|reports| - 1] in fs && parse(fs[reports[|reports| - 1]]).Some?
    ensures Collate(reports, dest, fs, parse).value.content.Serialized?
    ensures TestsFailures in Collate(reports, dest, fs, parse).value.content.report
    ensures Collate(reports, dest, fs, parse).value.content.report[TestsFailures]
         == Lookup(parse(fs[reports[|reports| - 1]]).value, TestsFailures)
  {
    CollatedIsMergeAll(reports, dest, fs, parse);
    var rs := Parsed(reports, fs, parse);
    MergeAllLastWins(rs[0], rs[1..]);
    assert rs[1..][|rs| - 2] == rs[|rs| - 1];
  }

  /**
    With two or more reports, the collated `tests_summary_messages` is the
    first report's, and is absent when the first report has none.
   */
  lemma CollatedSummaryIsFirst(reports: seq<Path>, dest: Path, fs: FileSystem, parse: Parser)
    requires |reports| >= 2
    requires Collate(reports, dest, fs, parse).Ok?
    ensures reports[0] in fs && parse(fs[reports[0]]).Some?
    ensures Collate(reports, dest, fs, parse).value.content.Serialized?
    ensures var first := parse(fs[reports[0]]).value;
            var collated := Collate(reports, dest, fs, parse).value.content.report;
            && (TestsSummaryMessages in collated <==> TestsSummaryMessages in first)
            && (TestsSummaryMessages in first ==> collated[TestsSummaryMessages] == first[TestsSummaryMessages])
  {
    CollatedIsMergeAll(reports, dest, fs, parse);
    var rs := Parsed(reports, fs, parse);
    MergeAllKeepsSummary(rs[0], rs[1..]);
  }

  /**
    A parse failure of a collation names a listed path: there are at least two
    reports, and the named one is the first in list order that does not parse.
   */
  lemma CollateParseErrorNamesPath(reports: seq<Path>, dest: Path, fs: FileSystem, parse: Parser, p: Path)
    requires Collate(reports, dest, fs, parse) == Err(ParseFailed(p))
    ensures |reports| >= 2 && AllExist(reports, fs)
    ensures exists i :: 0 <= i < |reports| && reports[i] == p && parse(fs[reports[i]]).None?
                        && forall j :: 0 <= j < i ==> parse(fs[reports[j]]).Some?
  {
    if parse(fs[reports[0]]).Some? {
      var base := parse(fs[reports[0]]).value;
      var tail := reports[1..];
      assert AllExist(tail, fs);
      FoldParseErrorAt(base, tail, fs, parse, p);
      var k :| 0 <= k < |tail| && tail[k] == p && parse(fs[tail[k]]).None?
               && AllExist(tail[..k], fs) && ParsesAll(tail[..k], fs, parse)
               && MergeAll(base, Parsed(tail[..k], fs, parse)).Ok?;
      forall j | 0 < j < k + 1 ensures parse(fs[reports[j]]).Some? {
        assert reports[j] == tail[..k][j - 1];
      }
      assert reports[k + 1] == p;
    }
  }

  /** A collation failure other than a parse failure of the first report comes from the fold of the rest. */
  lemma CollateFailsInFold(reports: seq<Path>, dest: Path, fs: FileSystem, parse: Parser, err: CollateError)
    requires Collate(reports, dest, fs, parse) == Err(err)
    requires !err.Invalid? && err != ParseFailed(reports[0])
    ensures |reports| >= 2 && AllExist(reports, fs) && AllExist(reports[1..], fs)
    ensures parse(fs[reports[0]]).Some?
    ensures Fold(parse(fs[reports[0]]).value, reports[1..], fs, parse) == Err(err)
  {
  }

  /**
    A merge failure of a collation happens at some later report: every report
    up to it parsed, the ones before it merged into the first without error,
    and merging it raised the error.
   */
  lemma CollateMergeErrorAt(reports: seq<Path>, dest: Path, fs: FileSystem, parse: Parser, e: MergeError)
    requires Collate(reports, dest, fs, parse) == Err(MergeFailed(e))
    ensures |reports| >= 2 && AllExist(reports, fs)
    ensures exists i :: 1 <= i < |reports|
                        && AllExist(reports[..i + 1], fs) && ParsesAll(reports[..i + 1], fs, parse)
                        && AllExist(reports[..i], fs) && ParsesAll(reports[..i], fs, parse)
                        && MergeAll(Parsed(reports[..i], fs, parse)[0], Parsed(reports[..i], fs, parse)[1..]).Ok?
                        && MergeAll(Parsed(reports[..i + 1], fs, parse)[0], Parsed(reports[..i + 1], fs, parse)[1..]) == Err(e)
  {
    CollateFailsInFold(reports, dest, fs, parse, MergeFailed(e));
    var base := parse(fs[reports[0]]).value;
    var tail := reports[1..];
    FoldMergeErrorAt(base, tail, fs, parse, e);
    var k :| 0 <= k < |tail|
             && AllExist(tail[..k + 1], fs) && ParsesAll(tail[..k + 1], fs, parse)
             && AllExist(tail[..k], fs) && ParsesAll(tail[..k], fs, parse)
             && MergeAll(base, Parsed(tail[..k], fs, parse)).Ok?
             && MergeAll(base, Parsed(tail[..k + 1], fs, parse)) == Err(e);
    ConsPrefix(reports, fs, parse, k + 1);
    ConsPrefix(reports, fs, parse, k + 2);
  }
}
