/**
 * Row helpers of the upload worker (src/workers/dataProcessor.js): the
 * normaliser that maps a parsed row onto the fixed set of upload columns, the
 * required-field check, and the chunking of a list into batches.
 */
module DataProcessor {
  import opened Rows

  /** The columns `transformRowData` produces, in the order it lists them. */
  const OutputFields: seq<string> := [
    "agent", "agency_id",
    "firstname", "dob", "address", "phone", "state", "zip", "email", "gender", "city", "userType",
    "account_name", "account_type",
    "category_name",
    "company_name",
    "policy_number", "policy_start_date", "policy_end_date", "policy_mode", "policy_type",
    "premium_amount", "premium_amount_written", "producer", "csr", "hasActiveClientPolicy"
  ]

  /**
   * The input column each output column is read from. Every column keeps its
   * name except `hasActiveClientPolicy`, which is read from the spaced header
   * `hasActive ClientPolicy`.
   */
  function SourceKey(name: string): string {
    if name == "hasActiveClientPolicy" then "hasActive ClientPolicy" else name
  }

  /**
   * `transformRowData(row)`: exactly the listed columns, each holding the
   * input cell when it is truthy and the empty string otherwise; no other
   * input column survives.
   */
  function TransformRowData(row: Row): (r: Row)
    ensures forall k :: k in r <==> k in OutputFields
    ensures forall k :: k in r && Has(row, SourceKey(k)) ==> r[k] == row[SourceKey(k)]
    ensures forall k :: k in r && !Has(row, SourceKey(k)) ==> r[k] == ""
  {
    map k | k in OutputFields :: Field(row, SourceKey(k))
  }

  /** No column is listed twice. */
  lemma OutputFieldsDistinct()
    ensures forall i, j :: 0 <= i < j < |OutputFields| ==> OutputFields[i] != OutputFields[j]
  {
  }

  /** A sequence without repetitions has as many distinct elements as entries. */
  lemma {:induction false} DistinctCardinality(s: seq<string>)
    requires forall i, j :: 0 <= i < j < |s| ==> s[i] != s[j]
    ensures |set x | x in s| == |s|
  {
    if s != [] {
      DistinctCardinality(s[1..]);
      assert (set x | x in s) == {s[0]} + (set x | x in s[1..]);
      assert s[0] !in (set x | x in s[1..]);
    }
  }

  /** No output column name has a space where the spaced header has its own (position 9). */
  lemma OutputFieldsNoSpaceAt9()
    ensures forall i :: 0 <= i < |OutputFields| && |OutputFields[i]| > 9 ==> OutputFields[i][9] != ' '
  {
  }

  /** The spaced header is not itself an output column, so it never survives the normaliser. */
  lemma SpacedKeyNotOutput()
    ensures "hasActive ClientPolicy" !in OutputFields
  {
    OutputFieldsNoSpaceAt9();
    assert "hasActive ClientPolicy"[9] == ' ';
  }

  /** The normalised row always has exactly 26 columns. */
  lemma TransformHas26Columns(row: Row)
    ensures |TransformRowData(row)| == 26
  {
    OutputFieldsDistinct();
    DistinctCardinality(OutputFields);
    assert TransformRowData(row).Keys == set x | x in OutputFields;
  }

  /**
   * A row that spells the flag column `hasActiveClientPolicy` without the
   * space loses its value: the normalised flag is empty whatever the cell says.
   */
  lemma UnspacedFlagIsDropped(row: Row)
    requires "hasActive ClientPolicy" !in row
    ensures "hasActiveClientPolicy" in TransformRowData(row)
    ensures TransformRowData(row)["hasActiveClientPolicy"] == ""
  {
  }

  /**
   * Normalising twice keeps every column except the flag, which the second
   * pass empties because its own output uses the unspaced name.
   */
  lemma TransformTwice(row: Row)
    ensures TransformRowData(TransformRowData(row)) == TransformRowData(row)["hasActiveClientPolicy" := ""]
  {
    var once := TransformRowData(row);
    var twice := TransformRowData(once);
    var expected := once["hasActiveClientPolicy" := ""];
    TwiceKeys(row);
    forall k | k in twice
      ensures twice[k] == expected[k]
    {
      TransformTwiceAt(row, k);
    }
  }

  /** The second pass has the same columns as the first. */
  lemma TwiceKeys(row: Row)
    ensures TransformRowData(TransformRowData(row)).Keys == TransformRowData(row)["hasActiveClientPolicy" := ""].Keys
  {
    assert "hasActiveClientPolicy" in OutputFields;
  }

  /** One column of the second pass: the flag is emptied, any other column keeps its value. */
  lemma TransformTwiceAt(row: Row, k: string)
    requires k in OutputFields
    ensures var once := TransformRowData(row);
            && k in TransformRowData(once)
            && TransformRowData(once)[k] == (if k == "hasActiveClientPolicy" then "" else once[k])
  {
    if k == "hasActiveClientPolicy" {
      SpacedKeyNotOutput();
    } else {
      assert SourceKey(k) == k;
    }
  }

  const FirstnameRequired := "firstname is required"
  const PolicyNumberRequired := "policy_number is required"

  /**
   * `validateRowData(row)`: no messages exactly when `firstname` and
   * `policy_number` are both truthy; otherwise one message per missing
   * field, the `firstname` one first.
   */
  function ValidateRowData(row: Row): (r: seq<string>)
    ensures r == [] <==> Has(row, "firstname") && Has(row, "policy_number")
    ensures |r| <= 2
    ensures FirstnameRequired in r <==> !Has(row, "firstname")
    ensures PolicyNumberRequired in r <==> !Has(row, "policy_number")
    ensures forall i :: 0 <= i < |r| ==> r[i] == FirstnameRequired || r[i] == PolicyNumberRequired
    ensures !Has(row, "firstname") ==> r[0] == FirstnameRequired
  {
    (if !Has(row, "firstname") then [FirstnameRequired] else [])
    + (if !Has(row, "policy_number") then [PolicyNumberRequired] else [])
  }

  /** Validation gives the same verdict before and after normalisation. */
  lemma ValidateAfterTransform(row: Row)
    ensures ValidateRowData(TransformRowData(row)) == ValidateRowData(row)
  {
    assert "firstname" in OutputFields && "policy_number" in OutputFields;
  }

  /** The batches laid end to end. */
  function Flatten<T>(batches: seq<seq<T>>): (r: seq<T>)
    ensures batches == [] ==> r == []
  {
    if batches == [] then [] else Flatten(batches[..|batches| - 1]) + batches[|batches| - 1]
  }

  lemma FlattenAppend<T>(batches: seq<seq<T>>, b: seq<T>)
    ensures Flatten(batches + [b]) == Flatten(batches) + b
  {
    assert (batches + [b])[..|batches|] == batches;
  }

  /** Joining batches distributes over concatenating two lists of batches. */
  lemma {:induction false} FlattenConcat<T>(a: seq<seq<T>>, b: seq<seq<T>>)
    ensures Flatten(a + b) == Flatten(a) + Flatten(b)
    decreases |b|
  {
    if b == [] {
      assert a + b == a;
    } else {
      var init := b[..|b| - 1];
      var last := b[|b| - 1];
      assert b == init + [last];
      assert a + b == (a + init) + [last];
      FlattenAppend(a + init, last);
      FlattenConcat(a, init);
      FlattenAppend(init, last);
    }
  }

  /**
   * `batchArray(array, batchSize)`: consecutive slices of `batchSize`
   * items, the last one possibly shorter. The loop advances by `batchSize`,
   * so it only ends for a positive size.
   */
  method BatchArray<T>(items: seq<T>, batchSize: int) returns (batches: seq<seq<T>>)
    requires batchSize >= 1
    ensures Flatten(batches) == items
    ensures forall i :: 0 <= i < |batches| ==> 1 <= |batches[i]| <= batchSize
    ensures forall i :: 0 <= i < |batches| - 1 ==> |batches[i]| == batchSize
    ensures (|batches| - 1) * batchSize < |items| <= |batches| * batchSize
    ensures items == [] <==> batches == []
  {
    batches := [];
    var i := 0;
    while i < |items|
      invariant BatchesSoFar(items, batchSize, batches, i)
      decreases |items| - i
    {
      var hi := if i + batchSize <= |items| then i + batchSize else |items|;
      BatchStep(items, batchSize, batches, i);
      batches := batches + [items[i..hi]];
      i := i + batchSize;
    }
    assert items[..|items|] == items;
  }

  /**
   * The loop state after the batches so far: they cover the first `i` items
   * (all of them once `i` passes the end), every batch is non-empty and at
   * most `batchSize` long, and every batch is full while the end is not passed.
   */
  ghost predicate BatchesSoFar<T>(items: seq<T>, batchSize: int, batches: seq<seq<T>>, i: int) {
    && batchSize >= 1
    && |batches| * batchSize == i
    && i < |items| + batchSize
    && Flatten(batches) == items[..if i <= |items| then i else |items|]
    && (forall j :: 0 <= j < |batches| ==> 1 <= |batches[j]| <= batchSize)
    && (i <= |items| ==> forall j :: 0 <= j < |batches| ==> |batches[j]| == batchSize)
    && (forall j :: 0 <= j < |batches| - 1 ==> |batches[j]| == batchSize)
  }

  /** One turn of the loop: the next slice keeps the loop state. */
  lemma BatchStep<T>(items: seq<T>, batchSize: int, batches: seq<seq<T>>, i: int)
    requires BatchesSoFar(items, batchSize, batches, i) && i < |items|
    ensures var hi := if i + batchSize <= |items| then i + batchSize else |items|;
            BatchesSoFar(items, batchSize, batches + [items[i..hi]], i + batchSize)
  {
    var hi := if i + batchSize <= |items| then i + batchSize else |items|;
    FlattenAppend(batches, items[i..hi]);
    assert items[..i] + items[i..hi] == items[..hi];
    assert (|batches| + 1) * batchSize == i + batchSize;
  }
}
