/** The bookkeeping around the shopping classifier: `evaluate`, which turns
    actual and predicted labels into a true positive rate and a true negative
    rate, and the column encoding `load_data` applies to each row of the
    spreadsheet. Rates are exact `real`s; the string-to-number parsers are
    parameters. */
module Shopping {
  import opened Outcomes

  // ---------------------------------------------------------------------
  // evaluate

  /** What `evaluate` has counted: actual positives (`sen_c`), those of them
      predicted positive (`sensitivity` before the division), and the same
      for the negatives (`spe_c`, `specificity`). */
  datatype Counts = Counts(truePos: nat, pos: nat, trueNeg: nat, neg: nat)

  /** One step of the counting loop. A label other than 0 or 1 is skipped. */
  function Count(c: Counts, actual: int, pre: int): Counts {
    if actual == 1 then
      c.(truePos := c.truePos + (if pre == 1 then 1 else 0), pos := c.pos + 1)
    else if actual == 0 then
      c.(trueNeg := c.trueNeg + (if pre == 0 then 1 else 0), neg := c.neg + 1)
    else c
  }

  /** The counts over the first `n` label/prediction pairs. */
  function CountsUpTo(labels: seq<int>, predictions: seq<int>, n: nat): Counts
    requires n <= |labels| && n <= |predictions|
  {
    if n == 0 then Counts(0, 0, 0, 0)
    else Count(CountsUpTo(labels, predictions, n - 1), labels[n - 1], predictions[n - 1])
  }

  /** What `evaluate(labels, predictions)` returns: a label is read for every
      prediction, so too few labels fail; a missing positive or negative
      label makes its rate divide by zero. */
  function Evaluation(labels: seq<int>, predictions: seq<int>): Outcome<(real, real)> {
    if |labels| < |predictions| then Raised(IndexError)
    else
      var c := CountsUpTo(labels, predictions, |predictions|);
      if c.pos == 0 || c.neg == 0 then Raised(ZeroDivisionError)
      else Ok((c.truePos as real / c.pos as real, c.trueNeg as real / c.neg as real))
  }

  /** `evaluate`: walks the predictions with index `i`, counting into floats
      and integers, then divides. */
  method Evaluate(labels: seq<int>, predictions: seq<int>) returns (r: Outcome<(real, real)>)
    ensures r == Evaluation(labels, predictions)
  {
    var sensitivity := 0.0;
    var specificity := 0.0;
    var i := 0;
    var senC := 0;
    var speC := 0;
    for k := 0 to |predictions|
      invariant i == k <= |labels|
      invariant var c := CountsUpTo(labels, predictions, k);
        && sensitivity == c.truePos as real && senC == c.pos
        && specificity == c.trueNeg as real && speC == c.neg
    {
      var pre := predictions[k];
      if i >= |labels| {
        return Raised(IndexError);
      }
      if labels[i] == 1 {
        if pre == 1 {
          sensitivity := sensitivity + 1.0;
        }
        senC := senC + 1;
      } else if labels[i] == 0 {
        if pre == 0 {
          specificity := specificity + 1.0;
        }
        speC := speC + 1;
      }
      i := i + 1;
    }
    if senC == 0 || speC == 0 {
      return Raised(ZeroDivisionError);
    }
    return Ok((sensitivity / senC as real, specificity / speC as real));
  }

  /** The pair positions below `n` whose label is `v`. */
  function Actual(labels: seq<int>, n: nat, v: int): set<nat>
    requires n <= |labels|
  {
    set i: nat | i < n && labels[i] == v
  }

  /** The pair positions below `n` whose label is `v` and predicted as `v`. */
  function Hits(labels: seq<int>, predictions: seq<int>, n: nat, v: int): set<nat>
    requires n <= |labels| && n <= |predictions|
  {
    set i: nat | i < n && labels[i] == v && predictions[i] == v
  }

  /** The counts are the sizes of those position sets: `sen_c` counts the
      actual positives, `sensitivity` those predicted right, and likewise for
      the negatives. */
  lemma CountsAreSizes(labels: seq<int>, predictions: seq<int>, n: nat)
    requires n <= |labels| && n <= |predictions|
    ensures CountsUpTo(labels, predictions, n).pos == |Actual(labels, n, 1)|
    ensures CountsUpTo(labels, predictions, n).truePos == |Hits(labels, predictions, n, 1)|
    ensures CountsUpTo(labels, predictions, n).neg == |Actual(labels, n, 0)|
    ensures CountsUpTo(labels, predictions, n).trueNeg == |Hits(labels, predictions, n, 0)|
  {
    ActualsAreSizes(labels, predictions, n);
    HitsAreSizes(labels, predictions, n);
  }

  lemma {:induction false} ActualsAreSizes(labels: seq<int>, predictions: seq<int>, n: nat)
    requires n <= |labels| && n <= |predictions|
    ensures CountsUpTo(labels, predictions, n).pos == |Actual(labels, n, 1)|
    ensures CountsUpTo(labels, predictions, n).neg == |Actual(labels, n, 0)|
  {
    if n == 0 {
      assert Actual(labels, n, 1) == {} && Actual(labels, n, 0) == {};
    } else {
      ActualsAreSizes(labels, predictions, n - 1);
      ActualStep(labels, n - 1, 1);
      ActualStep(labels, n - 1, 0);
    }
  }

  lemma {:induction false} HitsAreSizes(labels: seq<int>, predictions: seq<int>, n: nat)
    requires n <= |labels| && n <= |predictions|
    ensures CountsUpTo(labels, predictions, n).truePos == |Hits(labels, predictions, n, 1)|
    ensures CountsUpTo(labels, predictions, n).trueNeg == |Hits(labels, predictions, n, 0)|
  {
    if n == 0 {
      assert Hits(labels, predictions, n, 1) == {} && Hits(labels, predictions, n, 0) == {};
    } else {
      HitsAreSizes(labels, predictions, n - 1);
      HitsStep(labels, predictions, n - 1, 1);
      HitsStep(labels, predictions, n - 1, 0);
    }
  }

  lemma ActualStep(labels: seq<int>, n: nat, v: int)
    requires n < |labels|
    ensures Actual(labels, n + 1, v)
         == Actual(labels, n, v) + (if labels[n] == v then {n} else {})
    ensures n !in Actual(labels, n, v)
  {
  }

  lemma HitsStep(labels: seq<int>, predictions: seq<int>, n: nat, v: int)
    requires n < |labels| && n < |predictions|
    ensures Hits(labels, predictions, n + 1, v)
         == Hits(labels, predictions, n, v) + (if labels[n] == v && predictions[n] == v then {n} else {})
    ensures n !in Hits(labels, predictions, n, v)
  {
  }

  /** Each rate is a proportion: between 0 and 1, and, as the docstring of
      `evaluate` asks, right predictions among the actual positives
      (negatives). */
  lemma EvaluationIsProportion(labels: seq<int>, predictions: seq<int>)
    requires Evaluation(labels, predictions).Ok?
    ensures var (sensitivity, specificity) := Evaluation(labels, predictions).value;
      var n := |predictions|;
      && 0.0 <= sensitivity <= 1.0 && 0.0 <= specificity <= 1.0
      && |Actual(labels, n, 1)| > 0 && |Actual(labels, n, 0)| > 0
      && sensitivity == |Hits(labels, predictions, n, 1)| as real / |Actual(labels, n, 1)| as real
      && specificity == |Hits(labels, predictions, n, 0)| as real / |Actual(labels, n, 0)| as real
  {
    var n := |predictions|;
    CountsAreSizes(labels, predictions, n);
    assert Hits(labels, predictions, n, 1) <= Actual(labels, n, 1);
    assert Hits(labels, predictions, n, 0) <= Actual(labels, n, 0);
    SubsetSize(Hits(labels, predictions, n, 1), Actual(labels, n, 1));
    SubsetSize(Hits(labels, predictions, n, 0), Actual(labels, n, 0));
  }

  lemma SubsetSize(a: set<nat>, b: set<nat>)
    requires a <= b
    ensures |a| <= |b|
  {
    assert b == a + (b - a);
  }

  /** A count is positive exactly when a label of that kind occurs among the
      first `n`. */
  lemma {:induction false} CountsSeen(labels: seq<int>, predictions: seq<int>, n: nat)
    requires n <= |labels| && n <= |predictions|
    ensures CountsUpTo(labels, predictions, n).pos > 0 <==> 1 in labels[..n]
    ensures CountsUpTo(labels, predictions, n).neg > 0 <==> 0 in labels[..n]
  {
    if n > 0 {
      CountsSeen(labels, predictions, n - 1);
      assert labels[..n] == labels[..n - 1] + [labels[n - 1]];
    }
  }

  /** `evaluate` returns rates exactly when there are enough labels and the
      labels read contain both a 1 and a 0; it fails with a division by zero
      exactly when they lack one of them. */
  lemma EvaluationDefined(labels: seq<int>, predictions: seq<int>)
    ensures Evaluation(labels, predictions).Ok?
        <==> |predictions| <= |labels| && 1 in labels[..|predictions|] && 0 in labels[..|predictions|]
    ensures Evaluation(labels, predictions) == Raised(ZeroDivisionError)
        <==> |predictions| <= |labels| && (1 !in labels[..|predictions|] || 0 !in labels[..|predictions|])
  {
    if |predictions| <= |labels| {
      CountsSeen(labels, predictions, |predictions|);
    }
  }

  /** On right predictions every right count is the whole count. */
  lemma {:induction false} PerfectCounts(labels: seq<int>, predictions: seq<int>, n: nat)
    requires n <= |labels| && n <= |predictions|
    requires labels[..n] == predictions[..n]
    ensures CountsUpTo(labels, predictions, n).truePos == CountsUpTo(labels, predictions, n).pos
    ensures CountsUpTo(labels, predictions, n).trueNeg == CountsUpTo(labels, predictions, n).neg
  {
    if n > 0 {
      assert labels[..n - 1] == labels[..n][..n - 1];
      assert predictions[..n - 1] == predictions[..n][..n - 1];
      assert labels[n - 1] == labels[..n][n - 1];
      assert predictions[n - 1] == predictions[..n][n - 1];
      PerfectCounts(labels, predictions, n - 1);
    }
  }

  /** When every prediction equals its label, and both kinds of label
      occur, both rates are 1. */
  lemma PerfectPredictions(labels: seq<int>, predictions: seq<int>)
    requires |predictions| <= |labels| && labels[..|predictions|] == predictions
    requires 1 in predictions && 0 in predictions
    ensures Evaluation(labels, predictions) == Ok((1.0, 1.0))
  {
    var n := |predictions|;
    assert predictions[..n] == predictions;
    PerfectCounts(labels, predictions, n);
    CountsSeen(labels, predictions, n);
    var c := CountsUpTo(labels, predictions, n);
    assert c.pos > 0 && c.neg > 0;
    assert c.truePos as real / c.pos as real == 1.0;
    assert c.trueNeg as real / c.neg as real == 1.0;
  }

  /** Labels that are neither 0 nor 1 are not counted: two label sequences
      that agree wherever one of them holds 0 or 1 give the same counts. */
  lemma {:induction false} OtherLabelsIgnored(labels: seq<int>, labels': seq<int>, predictions: seq<int>, n: nat)
    requires n <= |labels| && n <= |labels'| && n <= |predictions|
    requires forall i :: 0 <= i < n && (labels[i] in {0, 1} || labels'[i] in {0, 1}) ==> labels[i] == labels'[i]
    ensures CountsUpTo(labels, predictions, n) == CountsUpTo(labels', predictions, n)
  {
    if n > 0 {
      OtherLabelsIgnored(labels, labels', predictions, n - 1);
    }
  }

  /** Which labels sit past the last prediction does not matter, and only
      labels 0 and 1 are read. */
  lemma EvaluationReadsOnlyBinaryPrefix(labels: seq<int>, labels': seq<int>, predictions: seq<int>)
    requires |predictions| <= |labels| && |predictions| <= |labels'|
    requires forall i :: 0 <= i < |predictions| && (labels[i] in {0, 1} || labels'[i] in {0, 1}) ==> labels[i] == labels'[i]
    ensures Evaluation(labels, predictions) == Evaluation(labels', predictions)
  {
    OtherLabelsIgnored(labels, labels', predictions, |predictions|);
  }

  // ---------------------------------------------------------------------
  // load_data

  /** One evidence value: `int(...)` or `float(...)` of a cell, or a 0/1
      flag. */
  datatype Value = Int(i: int) | Float(x: real)

  /** The columns `load_data` reads with `int()`. */
  predicate IntColumn(i: nat) {
    i == 0 || i == 2 || i == 4 || i == 11 || i == 12 || i == 13 || i == 14
  }

  /** The columns `load_data` reads with `float()`. */
  predicate FloatColumn(i: nat) {
    i == 1 || i == 3 || i == 5 || i == 6 || i == 7 || i == 8 || i == 9
  }

  const MONTH: nat := 10
  const VISITOR_TYPE: nat := 15
  const WEEKEND: nat := 16
  const REVENUE: nat := 17

  /** The 0/1 flag for "the cell is exactly `yes`". */
  function Flag(cell: string, yes: string): int {
    if cell == yes then 1 else 0
  }

  /** What cell `i` adds to the row's evidence: a parsed number, a 0/1 flag
      for the visitor type and the weekend, and nothing for the month (the
      source compares the month string with an integer, which never holds),
      the revenue and any further column. Parsers answer `None` where
      Python's `int()`/`float()` raise. */
  function CellEvidence(i: nat, cell: string, intOf: string -> Option<int>, floatOf: string -> Option<real>)
    : Outcome<seq<Value>>
  {
    if IntColumn(i) then
      match intOf(cell)
      case None => Raised(ValueError)
      case Some(v) => Ok([Int(v)])
    else if FloatColumn(i) then
      match floatOf(cell)
      case None => Raised(ValueError)
      case Some(x) => Ok([Float(x)])
    else if i == VISITOR_TYPE then Ok([Int(Flag(cell, "Returning_Visitor"))])
    else if i == WEEKEND then Ok([Int(Flag(cell, "TRUE"))])
    else Ok([])
  }

  /** What cell `i` adds to the labels: the revenue flag from column 17. */
  function CellLabel(i: nat, cell: string): seq<int> {
    if i == REVENUE then [Flag(cell, "TRUE")] else []
  }

  /** The evidence list of one row and the labels it appends. */
  datatype Encoded = Encoded(evidence: seq<Value>, labels: seq<int>)

  /** The encoding of the first `k` cells of `row`. */
  function RowUpTo(row: seq<string>, k: nat, intOf: string -> Option<int>, floatOf: string -> Option<real>)
    : Outcome<Encoded>
    requires k <= |row|
  {
    if k == 0 then Ok(Encoded([], []))
    else
      match RowUpTo(row, k - 1, intOf, floatOf)
      case Raised(e) => Raised(e)
      case Ok(before) =>
        match CellEvidence(k - 1, row[k - 1], intOf, floatOf)
        case Raised(e) => Raised(e)
        case Ok(vals) => Ok(Encoded(before.evidence + vals, before.labels + CellLabel(k - 1, row[k - 1])))
  }

  /** What `load_data` returns. */
  datatype Data = Data(evidence: seq<seq<Value>>, labels: seq<int>)

  /** The data read from the rows after the header, up to row `k`. */
  function DataUpTo(rows: seq<seq<string>>, k: nat, intOf: string -> Option<int>, floatOf: string -> Option<real>)
    : Outcome<Data>
    requires 1 <= k <= |rows|
  {
    if k == 1 then Ok(Data([], []))
    else
      match DataUpTo(rows, k - 1, intOf, floatOf)
      case Raised(e) => Raised(e)
      case Ok(before) =>
        match RowUpTo(rows[k - 1], |rows[k - 1]|, intOf, floatOf)
        case Raised(e) => Raised(e)
        case Ok(row) => Ok(Data(before.evidence + [row.evidence], before.labels + row.labels))
  }

  /** What `load_data` returns for the spreadsheet `rows`, header first. */
  function Loaded(rows: seq<seq<string>>, intOf: string -> Option<int>, floatOf: string -> Option<real>)
    : Outcome<Data>
  {
    if rows == [] then Ok(Data([], [])) else DataUpTo(rows, |rows|, intOf, floatOf)
  }

  /** Once a cell has raised, the row raises that error. */
  lemma {:induction false} RowRaised(row: seq<string>, j: nat, k: nat, intOf: string -> Option<int>, floatOf: string -> Option<real>)
    requires j <= k <= |row| && RowUpTo(row, j, intOf, floatOf).Raised?
    ensures RowUpTo(row, k, intOf, floatOf) == RowUpTo(row, j, intOf, floatOf)
  {
    if j < k {
      RowRaised(row, j, k - 1, intOf, floatOf);
    }
  }

  /** Once a row has raised, `load_data` raises that error. */
  lemma {:induction false} DataRaised(rows: seq<seq<string>>, j: nat, k: nat, intOf: string -> Option<int>, floatOf: string -> Option<real>)
    requires 1 <= j <= k <= |rows| && DataUpTo(rows, j, intOf, floatOf).Raised?
    ensures DataUpTo(rows, k, intOf, floatOf) == DataUpTo(rows, j, intOf, floatOf)
  {
    if j < k {
      DataRaised(rows, j, k - 1, intOf, floatOf);
    }
  }

  /** The inner loop of `load_data`: the dispatch on the column index. */
  method EncodeRow(row: seq<string>, intOf: string -> Option<int>, floatOf: string -> Option<real>)
    returns (r: Outcome<Encoded>)
    ensures r == RowUpTo(row, |row|, intOf, floatOf)
  {
    var tmpEvidence: seq<Value> := [];
    var labels: seq<int> := [];
    for i := 0 to |row|
      invariant RowUpTo(row, i, intOf, floatOf) == Ok(Encoded(tmpEvidence, labels))
    {
      assert tmpEvidence + [] == tmpEvidence && labels + [] == labels;
      if i == 0 || i == 2 || i == 4 || i == 11 || i == 12 || i == 13 || i == 14 {
        var v := intOf(row[i]);
        if v.None? {
          RowRaised(row, i + 1, |row|, intOf, floatOf);
          return Raised(ValueError);
        }
        tmpEvidence := tmpEvidence + [Int(v.value)];
      } else if i == 1 || i == 3 || i == 5 || i == 6 || i == 7 || i == 8 || i == 9 {
        var x := floatOf(row[i]);
        if x.None? {
          RowRaised(row, i + 1, |row|, intOf, floatOf);
          return Raised(ValueError);
        }
        tmpEvidence := tmpEvidence + [Float(x.value)];
      } else if i == 15 {
        if row[i] == "Returning_Visitor" {
          tmpEvidence := tmpEvidence + [Int(1)];
        } else {
          tmpEvidence := tmpEvidence + [Int(0)];
        }
      } else if i == 16 {
        if row[i] == "TRUE" {
          tmpEvidence := tmpEvidence + [Int(1)];
        } else {
          tmpEvidence := tmpEvidence + [Int(0)];
        }
      } else if i == 17 {
        if row[i] == "TRUE" {
          labels := labels + [1];
        } else {
          labels := labels + [0];
        }
      } else if i == 10 {
        // the month loop compares a string with an integer and appends nothing
      }
    }
    return Ok(Encoded(tmpEvidence, labels));
  }

  /** `load_data` after the file has been read into `rows`: the first row is
      skipped, every other row becomes one evidence list. */
  method LoadData(rows: seq<seq<string>>, intOf: string -> Option<int>, floatOf: string -> Option<real>)
    returns (r: Outcome<Data>)
    ensures r == Loaded(rows, intOf, floatOf)
  {
    var lineCount := 0;
    var evidence: seq<seq<Value>> := [];
    var labels: seq<int> := [];
    for k := 0 to |rows|
      invariant lineCount == if k == 0 then 0 else 1
      invariant k > 0 ==> DataUpTo(rows, k, intOf, floatOf) == Ok(Data(evidence, labels))
      invariant k == 0 ==> evidence == [] && labels == []
    {
      if lineCount == 0 {
        lineCount := lineCount + 1;
        continue;
      }
      var row := EncodeRow(rows[k], intOf, floatOf);
      if row.Raised? {
        DataRaised(rows, k + 1, |rows|, intOf, floatOf);
        return Raised(row.error);
      }
      evidence := evidence + [row.value.evidence];
      labels := labels + row.value.labels;
    }
    return Ok(Data(evidence, labels));
  }

  /** The first `k` cells parse: a numeric column's parser accepts its cell. */
  predicate Parses(row: seq<string>, k: nat, intOf: string -> Option<int>, floatOf: string -> Option<real>)
    requires k <= |row|
  {
    forall i :: 0 <= i < k ==>
      (IntColumn(i) ==> intOf(row[i]).Some?) && (FloatColumn(i) ==> floatOf(row[i]).Some?)
  }

  /** A row fails exactly when some numeric cell does not parse; otherwise
      each of its first 18 cells but the month and the revenue adds one
      value, column 17 adds one label, and further cells add nothing. */
  lemma {:induction false} RowShape(row: seq<string>, k: nat, intOf: string -> Option<int>, floatOf: string -> Option<real>)
    requires k <= |row|
    ensures RowUpTo(row, k, intOf, floatOf).Ok? <==> Parses(row, k, intOf, floatOf)
    ensures RowUpTo(row, k, intOf, floatOf).Ok? ==>
      && |RowUpTo(row, k, intOf, floatOf).value.evidence| == EvidenceWidth(k)
      && |RowUpTo(row, k, intOf, floatOf).value.labels| == (if k > REVENUE then 1 else 0)
  {
    if k > 0 {
      RowShape(row, k - 1, intOf, floatOf);
    }
  }

  /** How many evidence values the first `k` cells of a row give. */
  function EvidenceWidth(k: nat): nat {
    if k <= MONTH then k else if k <= REVENUE then k - 1 else 16
  }

  /** An 18-column row whose numbers parse gives 16 evidence values, in
      column order without the month, and one label; the visitor type, the
      weekend and the revenue are 1 exactly for `Returning_Visitor`, `TRUE`
      and `TRUE`. */
  lemma FullRow(row: seq<string>, intOf: string -> Option<int>, floatOf: string -> Option<real>)
    requires |row| == 18 && Parses(row, 18, intOf, floatOf)
    ensures RowUpTo(row, 18, intOf, floatOf).Ok?
    ensures var e := RowUpTo(row, 18, intOf, floatOf).value;
      && |e.evidence| == 16
      && (forall i :: 0 <= i < 16 && i != 14 && i != 15 ==> IsNumber(e.evidence[i], Column(i), row, intOf, floatOf))
      && (e.evidence[14] == Int(1) <==> row[VISITOR_TYPE] == "Returning_Visitor")
      && (e.evidence[14] == Int(0) <==> row[VISITOR_TYPE] != "Returning_Visitor")
      && (e.evidence[15] == Int(1) <==> row[WEEKEND] == "TRUE")
      && (e.evidence[15] == Int(0) <==> row[WEEKEND] != "TRUE")
      && e.labels == [Flag(row[REVENUE], "TRUE")]
  {
    RowShape(row, 18, intOf, floatOf);
    RowValues(row, 18, intOf, floatOf);
    var e := RowUpTo(row, 18, intOf, floatOf).value.evidence;
    assert CellEvidence(Column(14), row[VISITOR_TYPE], intOf, floatOf) == Ok([e[14]]);
    assert CellEvidence(Column(15), row[WEEKEND], intOf, floatOf) == Ok([e[15]]);
  }

  /** The spreadsheet column evidence position `i` comes from. */
  function Column(i: nat): nat {
    if i < MONTH then i else i + 1
  }

  /** Whether `v` is the parse of `row[c]` by the parser of column `c`. */
  predicate IsNumber(v: Value, c: nat, row: seq<string>, intOf: string -> Option<int>, floatOf: string -> Option<real>)
    requires c < |row|
  {
    (IntColumn(c) && v.Int? && intOf(row[c]) == Some(v.i))
    || (FloatColumn(c) && v.Float? && floatOf(row[c]) == Some(v.x))
  }

  /** Each evidence value of a row that parses, read back to its column:
      position `i` holds the one value column `Column(i)` adds. */
  lemma {:induction false} RowValues(row: seq<string>, k: nat, intOf: string -> Option<int>, floatOf: string -> Option<real>)
    requires k <= |row| && k <= 18 && Parses(row, k, intOf, floatOf)
    ensures EncodesCells(row, k, intOf, floatOf)
  {
    RowShape(row, k, intOf, floatOf);
    if k > 0 {
      RowValues(row, k - 1, intOf, floatOf);
      RowShape(row, k - 1, intOf, floatOf);
      var before := RowUpTo(row, k - 1, intOf, floatOf).value.evidence;
      var vals := CellEvidence(k - 1, row[k - 1], intOf, floatOf).value;
      var e := RowUpTo(row, k, intOf, floatOf).value.evidence;
      assert e == before + vals;
      forall i | 0 <= i < |e|
        ensures CellEvidence(Column(i), row[Column(i)], intOf, floatOf) == Ok([e[i]])
      {
        if i < |before| {
          assert e[i] == before[i];
        } else {
          assert Column(i) == k - 1 && vals == [e[i]];
        }
      }
    }
  }

  /** The first `k <= 18` cells encode, each evidence position holding what
      its column adds. */
  ghost predicate EncodesCells(row: seq<string>, k: nat, intOf: string -> Option<int>, floatOf: string -> Option<real>)
    requires k <= |row| && k <= 18
  {
    RowUpTo(row, k, intOf, floatOf).Ok?
    && var e := RowUpTo(row, k, intOf, floatOf).value.evidence;
    && |e| == EvidenceWidth(k)
    && forall i :: 0 <= i < |e| ==> Column(i) < k && CellEvidence(Column(i), row[Column(i)], intOf, floatOf) == Ok([e[i]])
  }

  /** Every row after the header gives one evidence list, whatever the
      header holds; with 18-column rows there is one label per list. */
  lemma {:induction false} DataShape(rows: seq<seq<string>>, k: nat, intOf: string -> Option<int>, floatOf: string -> Option<real>)
    requires 1 <= k <= |rows|
    ensures DataUpTo(rows, k, intOf, floatOf).Ok? ==> |DataUpTo(rows, k, intOf, floatOf).value.evidence| == k - 1
    ensures DataUpTo(rows, k, intOf, floatOf).Ok? && (forall j :: 1 <= j < k ==> |rows[j]| == 18)
      ==> |DataUpTo(rows, k, intOf, floatOf).value.labels| == k - 1
  {
    if k > 1 {
      DataShape(rows, k - 1, intOf, floatOf);
      RowShape(rows[k - 1], |rows[k - 1]|, intOf, floatOf);
    }
  }

  /** The header row is skipped: replacing it changes nothing. */
  lemma {:induction false} HeaderSkipped(rows: seq<seq<string>>, header: seq<string>, k: nat,
                                         intOf: string -> Option<int>, floatOf: string -> Option<real>)
    requires 1 <= k <= |rows|
    ensures DataUpTo(rows, k, intOf, floatOf) == DataUpTo(rows[0 := header], k, intOf, floatOf)
  {
    if k > 1 {
      HeaderSkipped(rows, header, k - 1, intOf, floatOf);
    }
  }
}
