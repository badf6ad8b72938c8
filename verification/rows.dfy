/** The step both query tools share: every result row becomes a dict from
    column name to cell value (agent/spanner_agnet/spanner_tools.py, in
    `run_sql_query` and again in `run_graph_query_viz`). */
module SpannerRows {
  import opened PyValue

  /** One decoded row: a Python dict from column name to value. */
  type Row = seq<(string, Value)>

  /** The dict one row decodes to: `row_dict[field.name] = row[i]` for the
      columns in order, starting from `{}`. */
  function RowDict(fields: seq<string>, cells: seq<Value>): (d: Row)
    requires |fields| <= |cells|
  {
    if fields == [] then []
    else
      var n := |fields| - 1;
      SetItem(RowDict(fields[..n], cells), fields[n], cells[n])
  }

  /** No column name appears twice among the dict's keys. */
  lemma {:induction false} RowDictDistinct(fields: seq<string>, cells: seq<Value>)
    requires |fields| <= |cells|
    ensures DistinctKeys(RowDict(fields, cells))
  {
    if fields != [] {
      RowDictDistinct(fields[..|fields| - 1], cells);
    }
  }

  /** The dict has exactly the column names as keys. */
  lemma {:induction false} RowDictKeys(fields: seq<string>, cells: seq<Value>)
    requires |fields| <= |cells|
    ensures forall f :: f in ToMap(RowDict(fields, cells)) <==> f in fields
  {
    if fields != [] {
      var n := |fields| - 1;
      RowDictKeys(fields[..n], cells);
      assert fields == fields[..n] + [fields[n]];
    }
  }

  /** The decoded result: one dict per row, in row order. */
  function Results(fields: seq<string>, resultSet: seq<seq<Value>>): (rs: seq<Row>)
    requires forall i :: 0 <= i < |resultSet| ==> |fields| <= |resultSet[i]|
    ensures |rs| == |resultSet|
  {
    seq(|resultSet|, i requires 0 <= i < |resultSet| => RowDict(fields, resultSet[i]))
  }

  /** Column order with every repeated name kept at its first position. */
  function FirstOccurrences(fields: seq<string>): seq<string> {
    if fields == [] then []
    else
      var n := |fields| - 1;
      var prefix := FirstOccurrences(fields[..n]);
      if fields[n] in prefix then prefix else prefix + [fields[n]]
  }

  /** A dict iterates over the column names in the order in which each was
      first set. */
  lemma {:induction false} RowDictKeyOrder(fields: seq<string>, cells: seq<Value>)
    requires |fields| <= |cells|
    ensures Keys(RowDict(fields, cells)) == FirstOccurrences(fields)
  {
    if fields != [] {
      var n := |fields| - 1;
      RowDictKeyOrder(fields[..n], cells);
      var d := RowDict(fields[..n], cells);
      SetItemKeys(d, fields[n], cells[n]);
      RowDictKeys(fields[..n], cells);
      assert forall k :: k in Keys(d) <==> k in ToMap(d) by {
        forall k ensures k in Keys(d) <==> k in ToMap(d) {
          ToMapKeys(d, k);
          if k in ToMap(d) {
            var i :| 0 <= i < |d| && d[i].0 == k;
            assert Keys(d)[i] == k;
          }
        }
      }
    }
  }

  /** Column `i` is what the dict holds under its name unless a later column
      has the same name: the later column wins. */
  lemma {:induction false} RowDictLaterColumnWins(fields: seq<string>, cells: seq<Value>, i: nat)
    requires i < |fields| <= |cells|
    requires forall j :: i < j < |fields| ==> fields[j] != fields[i]
    ensures Get(RowDict(fields, cells), fields[i]) == Some(cells[i])
  {
    var n := |fields| - 1;
    if i < n {
      RowDictLaterColumnWins(fields[..n], cells, i);
      assert fields[..n][i] == fields[i];
      var prev := RowDict(fields[..n], cells);
      assert ToMap(RowDict(fields, cells)) == ToMap(prev)[fields[n] := cells[n]];
    }
  }

  /** The inner loop of lines 42-44: `row_dict[field.name] = row[i]` for each
      column in order. */
  method DecodeRow(fields: seq<string>, row: seq<Value>) returns (rowDict: Row)
    requires |fields| <= |row|
    ensures rowDict == RowDict(fields, row)
  {
    rowDict := [];
    for i := 0 to |fields|
      invariant rowDict == RowDict(fields[..i], row)
    {
      rowDict := SetItem(rowDict, fields[i], row[i]);
      assert fields[..i + 1][..i] == fields[..i];
    }
    assert fields[..|fields|] == fields;
  }

  /** Lines 39-47 (and 64-70): one dict per result row, appended in row order. */
  method CollectRows(fields: seq<string>, resultSet: seq<seq<Value>>) returns (results: seq<Row>)
    requires forall i :: 0 <= i < |resultSet| ==> |fields| <= |resultSet[i]|
    ensures results == Results(fields, resultSet)
  {
    results := [];
    for k := 0 to |resultSet|
      invariant |results| == k
      invariant forall m :: 0 <= m < k ==> results[m] == RowDict(fields, resultSet[m])
    {
      var rowDict := DecodeRow(fields, resultSet[k]);
      results := results + [rowDict];
    }
  }
}
