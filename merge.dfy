/**
  The per-report merge step of the JSON report collator and its fold over
  several reports. A report is a parsed JSON object; merging `other` into
  `base` appends `other`'s value to every key of `base` except
  `tests_failures` and `tests_summary_messages`, and replaces
  `tests_failures` by `other`'s value.
 */
module ReportMerge {
  import opened Wrappers
  import opened JsonValues

  const TestsFailures: string := "tests_failures"
  const TestsSummaryMessages: string := "tests_summary_messages"

  /** The keys whose values are concatenated: all but the two exempt ones. */
  predicate Concatenated(k: string)
  {
    k != TestsFailures && k != TestsSummaryMessages
  }

  /** Whether `a.concat(b)` succeeds: an array takes an array, a string takes a string. */
  predicate CanConcat(a: Json, b: Json)
  {
    (a.JArr? && b.JArr?) || (a.JStr? && b.JStr?)
  }

  /** The value `a` holds after `a.concat(b)`. */
  function Concat(a: Json, b: Json): Json
    requires CanConcat(a, b)
  {
    if a.JArr? then JArr(a.items + b.items) else JStr(a.s + b.s)
  }

  /** The concatenation raises an error (TypeError or NoMethodError): the merge is abandoned. */
  datatype MergeError = ConcatTypeError

  /** Every concatenated key of `base` can take `other`'s value for that key. */
  predicate Mergeable(base: Report, other: Report)
  {
    forall k :: k in base && Concatenated(k) ==> CanConcat(base[k], Lookup(other, k))
  }

  /** The concatenation pass alone, over every key of `base`. */
  function ConcatPass(base: Report, other: Report): Report
    requires Mergeable(base, other)
  {
    map k | k in base :: if Concatenated(k) then Concat(base[k], Lookup(other, k)) else base[k]
  }

  /**
    The merge step, written as one concatenation pass followed by a single
    assignment of `tests_failures` (made only when `base` has a key, since the
    source assigns it inside the loop over `base`'s keys).
   */
  function Merge(base: Report, other: Report): (r: Result<Report, MergeError>)
    ensures r.Ok? <==> Mergeable(base, other)
    ensures r.Ok? ==> r.value.Keys == base.Keys + (if base == map[] then {} else {TestsFailures})
    ensures r.Ok? ==> forall k :: k in base && Concatenated(k) ==>
                        r.value[k] == Concat(base[k], Lookup(other, k))
    ensures r.Ok? && base != map[] ==> r.value[TestsFailures] == Lookup(other, TestsFailures)
    ensures r.Ok? && TestsSummaryMessages in base ==>
              r.value[TestsSummaryMessages] == base[TestsSummaryMessages]
    ensures r.Ok? && base == map[] ==> r.value == base
  {
    if !Mergeable(base, other) then Err(ConcatTypeError)
    else if base == map[] then Ok(base)
    else Ok(ConcatPass(base, other)[TestsFailures := Lookup(other, TestsFailures)])
  }

  /**
    merge_reports as the source runs it: a loop over a snapshot of `base`'s
    keys that concatenates each non-exempt key in place and assigns
    `tests_failures` on every iteration. Its result is that of `Merge`, so the
    repeated assignment has the effect of one assignment after the pass.
   */
  method MergeReports(base: Report, other: Report) returns (r: Result<Report, MergeError>)
    ensures r == Merge(base, other)
  {
    var acc := base;
    var keys := base.Keys;
    while keys != {}
      invariant keys <= base.Keys
      invariant acc.Keys == base.Keys + (if keys == base.Keys then {} else {TestsFailures})
      invariant forall k :: k in base && k !in keys && Concatenated(k) ==>
                  CanConcat(base[k], Lookup(other, k)) && acc[k] == Concat(base[k], Lookup(other, k))
      invariant forall k :: k in keys && k != TestsFailures ==> acc[k] == base[k]
      invariant TestsSummaryMessages in base ==> acc[TestsSummaryMessages] == base[TestsSummaryMessages]
      invariant keys == base.Keys ==> acc == base
      invariant keys != base.Keys ==> acc[TestsFailures] == Lookup(other, TestsFailures)
      decreases keys
    {
      var k :| k in keys;
      if Concatenated(k) {
        if !CanConcat(acc[k], Lookup(other, k)) {
          return Err(ConcatTypeError);
        }
        acc := acc[k := Concat(acc[k], Lookup(other, k))];
      }
      acc := acc[TestsFailures := Lookup(other, TestsFailures)];
      keys := keys - {k};
    }
    PassComplete(base, other, acc);
    r := Ok(acc);
  }

  /** Once every key of `base` has been visited, the loop's map is the merge result. */
  lemma PassComplete(base: Report, other: Report, acc: Report)
    requires acc.Keys == base.Keys + (if base == map[] then {} else {TestsFailures})
    requires forall k :: k in base && Concatenated(k) ==>
               CanConcat(base[k], Lookup(other, k)) && acc[k] == Concat(base[k], Lookup(other, k))
    requires TestsSummaryMessages in base ==> acc[TestsSummaryMessages] == base[TestsSummaryMessages]
    requires base == map[] ==> acc == base
    requires base != map[] ==> acc[TestsFailures] == Lookup(other, TestsFailures)
    ensures Merge(base, other) == Ok(acc)
  {
    if base != map[] {
      var m := ConcatPass(base, other)[TestsFailures := Lookup(other, TestsFailures)];
      assert m.Keys == acc.Keys;
      forall k | k in m
        ensures m[k] == acc[k]
      {
      }
      assert m == acc;
    }
  }

  /** The fold: every report of `rs` merged into `base`, in order. */
  function MergeAll(base: Report, rs: seq<Report>): Result<Report, MergeError>
    decreases rs
  {
    if rs == [] then Ok(base)
    else match Merge(base, rs[0])
      case Err(e) => Err(e)
      case Ok(next) => MergeAll(next, rs[1..])
  }

  /** One step of a successful fold: the first report merges, and the rest fold into that. */
  lemma MergeAllStep(base: Report, rs: seq<Report>)
    requires rs != [] && MergeAll(base, rs).Ok?
    ensures Merge(base, rs[0]).Ok?
    ensures MergeAll(base, rs) == MergeAll(Merge(base, rs[0]).value, rs[1..])
  {
  }

  /** Folding a report followed by more reports: merge the first, then fold the rest. */
  lemma ConsFold(base: Report, r: Report, rs: seq<Report>)
    ensures Merge(base, r).Err? ==> MergeAll(base, [r] + rs) == Err(Merge(base, r).error)
    ensures Merge(base, r).Ok? ==> MergeAll(base, [r] + rs) == MergeAll(Merge(base, r).value, rs)
  {
    assert ([r] + rs)[0] == r && ([r] + rs)[1..] == rs;
  }

  /** The array elements the reports of `rs` hold under key `k`, in report order. */
  function Appended(k: string, rs: seq<Report>): seq<Json>
  {
    if rs == [] then [] else ArrayItems(Lookup(rs[0], k)) + Appended(k, rs[1..])
  }

  /**
    Over a fold, an array-valued concatenated key of the first report ends up
    holding its own elements followed by every later report's elements for
    that key, in input order; and each later report must hold an array there.
   */
  lemma {:induction false} MergeAllConcatenates(base: Report, rs: seq<Report>, k: string)
    requires k in base && Concatenated(k) && base[k].JArr?
    requires MergeAll(base, rs).Ok?
    ensures forall i :: 0 <= i < |rs| ==> Lookup(rs[i], k).JArr?
    ensures k in MergeAll(base, rs).value
    ensures MergeAll(base, rs).value[k] == JArr(base[k].items + Appended(k, rs))
    decreases rs
  {
    if rs != [] {
      MergeAllStep(base, rs);
      var next := Merge(base, rs[0]).value;
      var xs, ys := base[k].items, Lookup(rs[0], k).items;
      MergeKeyStep(base, rs[0], k);
      MergeAllConcatenates(next, rs[1..], k);
      assert ArrayItems(Lookup(rs[0], k)) == ys;
      assert Appended(k, rs) == ys + Appended(k, rs[1..]);
      assert xs + (ys + Appended(k, rs[1..])) == (xs + ys) + Appended(k, rs[1..]);
      assert forall i :: 0 < i < |rs| ==> rs[i] == rs[1..][i - 1];
    }
  }

  /** One merge step on one concatenated key. */
  lemma MergeKeyStep(base: Report, other: Report, k: string)
    requires k in base && Concatenated(k) && Merge(base, other).Ok?
    ensures CanConcat(base[k], Lookup(other, k))
    ensures k in Merge(base, other).value
    ensures Merge(base, other).value[k] == Concat(base[k], Lookup(other, k))
  {
  }

  /** The string the reports of `rs` hold under key `k`, joined in report order. */
  function AppendedChars(k: string, rs: seq<Report>): string
  {
    if rs == [] then "" else StringChars(Lookup(rs[0], k)) + AppendedChars(k, rs[1..])
  }

  /**
    The same for a string-valued concatenated key of the first report: it ends
    up holding its own text followed by every later report's text for that key,
    in input order; and each later report must hold a string there.
   */
  lemma {:induction false} MergeAllConcatenatesStrings(base: Report, rs: seq<Report>, k: string)
    requires k in base && Concatenated(k) && base[k].JStr?
    requires MergeAll(base, rs).Ok?
    ensures forall i :: 0 <= i < |rs| ==> Lookup(rs[i], k).JStr?
    ensures k in MergeAll(base, rs).value
    ensures MergeAll(base, rs).value[k] == JStr(base[k].s + AppendedChars(k, rs))
    decreases rs
  {
    if rs != [] {
      MergeAllStep(base, rs);
      var next := Merge(base, rs[0]).value;
      var xs, ys := base[k].s, Lookup(rs[0], k).s;
      MergeKeyStep(base, rs[0], k);
      MergeAllConcatenatesStrings(next, rs[1..], k);
      assert StringChars(Lookup(rs[0], k)) == ys;
      assert AppendedChars(k, rs) == ys + AppendedChars(k, rs[1..]);
      assert xs + (ys + AppendedChars(k, rs[1..])) == (xs + ys) + AppendedChars(k, rs[1..]);
      assert forall i :: 0 < i < |rs| ==> rs[i] == rs[1..][i - 1];
    }
  }

  /**
    Last write wins: after folding at least one report into a non-empty base,
    `tests_failures` is the last report's value.
   */
  lemma {:induction false} MergeAllLastWins(base: Report, rs: seq<Report>)
    requires base != map[] && rs != []
    requires MergeAll(base, rs).Ok?
    ensures TestsFailures in MergeAll(base, rs).value
    ensures MergeAll(base, rs).value[TestsFailures] == Lookup(rs[|rs| - 1], TestsFailures)
    decreases rs
  {
    var next := Merge(base, rs[0]).value;
    assert TestsFailures in next;
    if |rs| > 1 {
      MergeAllLastWins(next, rs[1..]);
    } else {
      assert MergeAll(next, rs[1..]) == Ok(next);
    }
  }

  /** `tests_summary_messages` is never touched: the fold keeps the first report's value. */
  lemma {:induction false} MergeAllKeepsSummary(base: Report, rs: seq<Report>)
    requires MergeAll(base, rs).Ok?
    ensures TestsSummaryMessages in MergeAll(base, rs).value <==> TestsSummaryMessages in base
    ensures TestsSummaryMessages in base ==>
              MergeAll(base, rs).value[TestsSummaryMessages] == base[TestsSummaryMessages]
    decreases rs
  {
    if rs != [] {
      MergeAllKeepsSummary(Merge(base, rs[0]).value, rs[1..]);
    }
  }

  /**
    The fold's key set is the first report's, plus `tests_failures` once a
    report has been merged into a non-empty base: keys only later reports
    have never appear.
   */
  lemma {:induction false} MergeAllKeys(base: Report, rs: seq<Report>)
    requires MergeAll(base, rs).Ok?
    ensures MergeAll(base, rs).value.Keys
         == base.Keys + (if base == map[] || rs == [] then {} else {TestsFailures})
    decreases rs
  {
    if rs != [] {
      var next := Merge(base, rs[0]).value;
      MergeAllKeys(next, rs[1..]);
      assert base != map[] ==> TestsFailures in next;
    }
  }

  /** Merging into an empty base report changes nothing, whatever is merged. */
  lemma {:induction false} MergeAllEmptyBase(rs: seq<Report>)
    ensures MergeAll(map[], rs) == Ok(map[])
  {
    if rs != [] {
      MergeAllEmptyBase(rs[1..]);
    }
  }

  /**
    The fold runs along input order: folding `rs1 + rs2` is folding `rs1`
    and then folding `rs2` into its result, and an error in `rs1` is final.
   */
  lemma {:induction false} MergeAllSplit(base: Report, rs1: seq<Report>, rs2: seq<Report>)
    ensures MergeAll(base, rs1 + rs2)
         == match MergeAll(base, rs1)
            case Err(e) => Err(e)
            case Ok(m) => MergeAll(m, rs2)
    decreases rs1
  {
    if rs1 != [] {
      assert (rs1 + rs2)[0] == rs1[0];
      assert (rs1 + rs2)[1..] == rs1[1..] + rs2;
      match Merge(base, rs1[0]) {
        case Err(e) =>
        case Ok(next) => MergeAllSplit(next, rs1[1..], rs2);
      }
    } else {
      assert rs1 + rs2 == rs2;
    }
  }

  /** The worked example: failures come from the later report, warnings accumulate. */
  lemma MergeExample()
    ensures Merge(
              map[TestsFailures := JObj(map["t1" := JArr([JObj(map["name" := JStr("x")])])]),
                  "warnings" := JArr([JStr("w1")])],
              map[TestsFailures := JObj(map["t2" := JArr([JObj(map["name" := JStr("y")])])]),
                  "warnings" := JArr([JStr("w2")])])
         == Ok(map[TestsFailures := JObj(map["t2" := JArr([JObj(map["name" := JStr("y")])])]),
                   "warnings" := JArr([JStr("w1"), JStr("w2")])])
  {
    var base := map[TestsFailures := JObj(map["t1" := JArr([JObj(map["name" := JStr("x")])])]),
                    "warnings" := JArr([JStr("w1")])];
    var other := map[TestsFailures := JObj(map["t2" := JArr([JObj(map["name" := JStr("y")])])]),
                     "warnings" := JArr([JStr("w2")])];
    var expected := map[TestsFailures := other[TestsFailures],
                        "warnings" := JArr([JStr("w1"), JStr("w2")])];
    assert Concatenated("warnings");
    assert base.Keys == {TestsFailures, "warnings"};
    assert Mergeable(base, other);
    var r := Merge(base, other).value;
    assert r.Keys == expected.Keys;
    assert [JStr("w1")] + [JStr("w2")] == [JStr("w1"), JStr("w2")];
    assert r["warnings"] == expected["warnings"];
    assert r[TestsFailures] == expected[TestsFailures];
    assert forall k :: k in r ==> r[k] == expected[k];
    assert r == expected;
  }
}
