/** The SQL test Lambda: the keyword screen a query must pass, the conversion of a Data API
    result into readable records, and the gating of a request before anything is executed. The
    database call is supplied as a function from the query to its result (`None` when the call
    raises). */
module SqlTest {
  import opened Common
  import opened Text
  import opened Json
  import Lists

  const AllowedPrefixes: seq<string> := ["SELECT", "SHOW", "DESCRIBE", "EXPLAIN", "DELETE", "INSERT", "UPDATE"]
  const CatalogPhrases: seq<string> :=
    ["INFORMATION_SCHEMA.TABLES", "INFORMATION_SCHEMA.COLUMNS", "PG_TABLES", "PG_CLASS"]
  const DangerousKeywords: seq<string> := ["DROP", "TRUNCATE", "ALTER", "CREATE"]

  // ---------------------------------------------------------------------------------------------
  // validate_sql

  /** The three answers of `validate_sql`; `Message` gives the text of each. */
  datatype Verdict = Valid | KeywordForbidden(keyword: string) | DropForbidden

  function Message(v: Verdict): string {
    match v
    case Valid => "Valid"
    case KeywordForbidden(k) => "Operation '" + k + "' is not allowed for security reasons"
    case DropForbidden => "DROP operations are not allowed for security reasons"
  }

  /** `sql.upper().strip()`. */
  function Normalise(sql: string): string {
    PyStrip(Upper(sql))
  }

  predicate StartsWithAny(s: string, ps: seq<string>) {
    exists p | p in ps :: StartsWith(s, p)
  }

  predicate ContainsAny(s: string, ps: seq<string>) {
    exists p | p in ps :: Contains(s, p)
  }

  /** The `for keyword in ...: if keyword in s: return` search: the first keyword, in list order,
      that occurs in `s`. */
  function FirstContained(s: string, ks: seq<string>): (r: Option<string>)
    ensures r.None? <==> forall k | k in ks :: !Contains(s, k)
    ensures r.Some? ==> r.value in ks && Contains(s, r.value)
  {
    if ks == [] then None
    else if Contains(s, ks[0]) then Some(ks[0])
    else FirstContained(s, ks[1..])
  }

  /** The keyword found is the first of the list that the string contains. */
  lemma {:induction false} FirstContainedIsFirst(s: string, ks: seq<string>)
    requires FirstContained(s, ks).Some?
    ensures exists i | 0 <= i < |ks| :: ks[i] == FirstContained(s, ks).value && forall j | 0 <= j < i :: !Contains(s, ks[j])
  {
    if !Contains(s, ks[0]) {
      FirstContainedIsFirst(s, ks[1..]);
      var i :| 0 <= i < |ks[1..]| && ks[1..][i] == FirstContained(s, ks[1..]).value
        && forall j | 0 <= j < i :: !Contains(s, ks[1..][j]);
      assert ks[i + 1] == FirstContained(s, ks).value;
      forall j | 0 <= j < i + 1 ensures !Contains(s, ks[j]) {
        if j > 0 { assert ks[j] == ks[1..][j - 1]; }
      }
    } else {
      assert ks[0] == FirstContained(s, ks).value;
    }
  }

  /** The screen applied to the normalised query `u`. */
  function Screen(u: string): (v: Verdict)
    ensures v.KeywordForbidden? ==> v.keyword in DangerousKeywords && Contains(u, v.keyword)
    ensures v.DropForbidden? ==> Contains(u, "DROP")
  {
    var found := FirstContained(u, DangerousKeywords);
    if !StartsWithAny(u, AllowedPrefixes) && !ContainsAny(u, CatalogPhrases) && found.Some? then
      KeywordForbidden(found.value)
    else if Contains(u, "DROP") then DropForbidden
    else Valid
  }

  /** `validate_sql`. */
  function ValidateSql(sql: string): Verdict {
    Screen(Normalise(sql))
  }

  /** "DROP" anywhere in the upper-cased query, even inside a longer word, is rejected. */
  lemma DropAlwaysRejected(sql: string)
    requires Contains(Normalise(sql), "DROP")
    ensures ValidateSql(sql) != Valid
  {
  }

  /** A query starting with an allowed verb is accepted exactly when it has no "DROP"; the other
      dangerous keywords do not matter there. */
  lemma AllowedVerbs(sql: string)
    requires StartsWithAny(Normalise(sql), AllowedPrefixes)
    ensures ValidateSql(sql) == if Contains(Normalise(sql), "DROP") then DropForbidden else Valid
  {
  }

  /** A query with neither an allowed verb nor a catalog phrase is rejected when it mentions any
      dangerous keyword, naming the first in list order, and accepted otherwise. */
  lemma OtherQueries(sql: string)
    requires !StartsWithAny(Normalise(sql), AllowedPrefixes) && !ContainsAny(Normalise(sql), CatalogPhrases)
    ensures ContainsAny(Normalise(sql), DangerousKeywords) ==>
      ValidateSql(sql) == KeywordForbidden(FirstContained(Normalise(sql), DangerousKeywords).value)
    ensures !ContainsAny(Normalise(sql), DangerousKeywords) ==> ValidateSql(sql) == Valid
  {
    assert "DROP" in DangerousKeywords;
  }

  /** A catalog query skips the keyword screen: only "DROP" rejects it. */
  lemma CatalogQueries(sql: string)
    requires ContainsAny(Normalise(sql), CatalogPhrases)
    ensures ValidateSql(sql) == if Contains(Normalise(sql), "DROP") then DropForbidden else Valid
  {
  }

  /** The message "Valid" is given to a valid query and to no rejection, so the pair
      `validate_sql` returns is determined by its message. */
  lemma MessageValid(v: Verdict)
    ensures v == Valid <==> Message(v) == "Valid"
  {
    if !v.Valid? {
      assert |Message(v)| > 5;
    }
  }

  /** A piece of an upper-cased string is already upper case. */
  lemma UpperSliceFixed(s: string, lo: nat, hi: nat)
    requires lo <= hi <= |s|
    ensures Upper(Upper(s)[lo..hi]) == Upper(s)[lo..hi]
  {
  }

  /** Normalising is idempotent, so screening an already normalised query gives the same
      verdict. */
  lemma NormaliseIdempotent(sql: string)
    ensures Normalise(Normalise(sql)) == Normalise(sql)
    ensures ValidateSql(Normalise(sql)) == ValidateSql(sql)
  {
    NormalisedIsFixed(sql);
  }

  lemma NormalisedIsFixed(sql: string)
    ensures Normalise(Normalise(sql)) == Normalise(sql)
  {
    var u := Upper(sql);
    var n := PyStrip(u);
    StripSlice(u, PyBlanks);
    var lo := |u| - |TrimStart(u, PyBlanks)|;
    UpperSliceFixed(sql, lo, lo + |n|);
    assert Upper(n) == n;
    PyStripIdempotent(u);
  }

  // ---------------------------------------------------------------------------------------------
  // format_response

  /** A column's metadata; only its optional `name` is read. */
  datatype ColumnMeta = ColumnMeta(name: Option<string>)

  /** One field of a Data API record: a dict with one of the typed value keys. */
  type RdsField = map<string, Value>

  /** The parts of a Data API `ExecuteStatement` result the formatter reads; each may be absent. */
  datatype RdsResult = RdsResult(
    records: Option<seq<seq<RdsField>>>,
    numberOfRecordsUpdated: Option<int>,
    columnMetadata: Option<seq<ColumnMeta>>)

  /** A formatted record: a Python dict, as its (key, value) pairs in insertion order. */
  type Row = seq<(string, Value)>

  datatype Formatted = Formatted(records: seq<Row>, numberOfRecordsUpdated: int, columnMetadata: seq<ColumnMeta>)

  function Keys(row: Row): (ks: seq<string>)
    ensures |ks| == |row| && forall i | 0 <= i < |row| :: ks[i] == row[i].0
  {
    seq(|row|, i requires 0 <= i < |row| => row[i].0)
  }

  /** `d[k]` on a formatted record. */
  function Lookup(row: Row, k: string): Option<Value> {
    if row == [] then None
    else if row[|row| - 1].0 == k then Some(row[|row| - 1].1)
    else Lookup(row[..|row| - 1], k)
  }

  /** `d[k] = v`: an existing key keeps its place and takes the new value; a new key goes last. */
  function Assign(row: Row, k: string, v: Value): (r: Row)
    requires Lists.NoDup(Keys(row))
    ensures Lists.NoDup(Keys(r))
    ensures k in Keys(row) ==> Keys(r) == Keys(row)
    ensures k in Keys(row) ==> exists i | 0 <= i < |row| && row[i].0 == k :: r == row[i := (k, v)]
    ensures k !in Keys(row) ==> r == row + [(k, v)]
  {
    if k in Keys(row) then
      var i :| 0 <= i < |row| && row[i].0 == k;
      var r := row[i := (k, v)];
      assert Keys(r) == Keys(row);
      r
    else
      row + [(k, v)]
  }

  /** After `d[k] = v` the key reads `v` and every other key reads as before. */
  lemma AssignLookup(row: Row, k: string, v: Value)
    requires Lists.NoDup(Keys(row))
    ensures Lookup(Assign(row, k, v), k) == Some(v)
    ensures forall k' | k' != k :: Lookup(Assign(row, k, v), k') == Lookup(row, k')
  {
    if k in Keys(row) {
      var i :| 0 <= i < |row| && row[i].0 == k && Assign(row, k, v) == row[i := (k, v)];
      LookupUpdate(row, i, v);
    } else {
      LookupAppend(row, k, v);
    }
  }

  lemma {:induction false} LookupAppend(row: Row, k: string, v: Value)
    ensures Lookup(row + [(k, v)], k) == Some(v)
    ensures forall k' | k' != k :: Lookup(row + [(k, v)], k') == Lookup(row, k')
  {
    assert (row + [(k, v)])[..|row|] == row;
  }

  lemma {:induction false} LookupUpdate(row: Row, i: nat, v: Value)
    requires Lists.NoDup(Keys(row)) && i < |row|
    ensures Lookup(row[i := (row[i].0, v)], row[i].0) == Some(v)
    ensures forall k' | k' != row[i].0 :: Lookup(row[i := (row[i].0, v)], k') == Lookup(row, k')
  {
    var k := row[i].0;
    var r := row[i := (k, v)];
    var n := |row| - 1;
    if i < n {
      assert Keys(row)[i] != Keys(row)[n];
      assert Keys(row[..n]) == Keys(row)[..n];
      LookupUpdate(row[..n], i, v);
      assert r[..n] == row[..n][i := (k, v)];
    } else {
      assert r[..n] == row[..n];
      forall k' | k' != k ensures Lookup(r, k') == Lookup(row, k') {
      }
    }
  }

  /** Column i's name: the metadata name when there is metadata for it (`None` is the `KeyError`
      of an entry without a name), otherwise "column_i". */
  function ColumnName(meta: seq<ColumnMeta>, i: nat): (r: Option<string>)
    ensures i < |meta| ==> r == meta[i].name
    ensures i >= |meta| ==> r == Some("column_" + NatToString(i))
  {
    if i < |meta| then meta[i].name else Some("column_" + NatToString(i))
  }

  /** The value extracted from a field: the first of stringValue, longValue, doubleValue and
      booleanValue present, else `None` for a truthy isNull, else the field's `str()` rendering,
      supplied as `render`. */
  function FieldValue(field: RdsField, render: RdsField -> string): Value
  {
    if "stringValue" in field then field["stringValue"]
    else if "longValue" in field then field["longValue"]
    else if "doubleValue" in field then field["doubleValue"]
    else if "booleanValue" in field then field["booleanValue"]
    else if "isNull" in field && Truthy(field["isNull"]) then JNull
    else JStr(render(field))
  }

  /** The typed value keys are tried in the source's order, and a field with none of them reads
      as `None` when flagged null and as its rendering otherwise. */
  lemma FieldValuePriority(field: RdsField, render: RdsField -> string)
    ensures "stringValue" in field ==> FieldValue(field, render) == field["stringValue"]
    ensures "stringValue" !in field && "longValue" in field ==> FieldValue(field, render) == field["longValue"]
    ensures "stringValue" !in field && "longValue" !in field && "doubleValue" in field ==> FieldValue(field, render) == field["doubleValue"]
    ensures "stringValue" !in field && "longValue" !in field && "doubleValue" !in field && "booleanValue" in field ==>
      FieldValue(field, render) == field["booleanValue"]
    ensures (forall k | k in ["stringValue", "longValue", "doubleValue", "booleanValue"] :: k !in field) ==>
      FieldValue(field, render) == if "isNull" in field && Truthy(field["isNull"]) then JNull else JStr(render(field))
  {
  }

  /** The formatted record of a raw record: its fields assigned in order, by column name. */
  function RowOf(record: seq<RdsField>, meta: seq<ColumnMeta>, render: RdsField -> string): (r: Option<Row>)
    ensures r.Some? ==> Lists.NoDup(Keys(r.value))
  {
    if record == [] then Some([])
    else
      var n := |record| - 1;
      match RowOf(record[..n], meta, render)
      case None => None
      case Some(row) =>
        match ColumnName(meta, n)
        case None => None
        case Some(c) => Some(Assign(row, c, FieldValue(record[n], render)))
  }

  /** Formatting fails exactly when a field falls under a metadata entry without a name. */
  lemma {:induction false} RowOfFails(record: seq<RdsField>, meta: seq<ColumnMeta>, render: RdsField -> string)
    ensures RowOf(record, meta, render).None? <==> exists i | 0 <= i < |record| :: ColumnName(meta, i).None?
  {
    if record != [] {
      var n := |record| - 1;
      var prefix := record[..n];
      RowOfFails(prefix, meta, render);
      if RowOf(prefix, meta, render).None? {
        var i :| 0 <= i < n && ColumnName(meta, i).None?;
        assert 0 <= i < |record|;
      } else if ColumnName(meta, n).None? {
        assert RowOf(record, meta, render).None?;
      } else {
        assert RowOf(record, meta, render).Some?;
        forall i | 0 <= i < |record| ensures ColumnName(meta, i).Some? {
          if i < n {
            assert 0 <= i < |prefix|;
          }
        }
      }
    }
  }

  /** Every column of the record is a key of the formatted record, holding the value of the
      last field with that column name: a later duplicate column overwrites an earlier one. */
  lemma {:induction false} RowOfLastWins(record: seq<RdsField>, meta: seq<ColumnMeta>, render: RdsField -> string, i: nat)
    requires RowOf(record, meta, render).Some? && i < |record|
    requires forall j | i < j < |record| :: ColumnName(meta, j) != ColumnName(meta, i)
    ensures ColumnName(meta, i).Some?
    ensures Lookup(RowOf(record, meta, render).value, ColumnName(meta, i).value) == Some(FieldValue(record[i], render))
  {
    var n := |record| - 1;
    var row := RowOf(record[..n], meta, render).value;
    AssignLookup(row, ColumnName(meta, n).value, FieldValue(record[n], render));
    if i < n {
      assert record[..n][i] == record[i];
      RowOfLastWins(record[..n], meta, render, i);
    }
  }

  /** With pairwise different column names the formatted record has one entry per field, in
      field order. */
  lemma {:induction false} RowOfDistinct(record: seq<RdsField>, meta: seq<ColumnMeta>, render: RdsField -> string)
    requires RowOf(record, meta, render).Some?
    requires forall i, j | 0 <= i < j < |record| :: ColumnName(meta, i) != ColumnName(meta, j)
    ensures forall i | 0 <= i < |record| :: ColumnName(meta, i).Some?
    ensures |RowOf(record, meta, render).value| == |record|
    ensures forall i | 0 <= i < |record| ::
      RowOf(record, meta, render).value[i] == (ColumnName(meta, i).value, FieldValue(record[i], render))
  {
    RowOfFails(record, meta, render);
    if record != [] {
      var n := |record| - 1;
      var prefix := record[..n];
      RowOfDistinct(prefix, meta, render);
      var row := RowOf(prefix, meta, render).value;
      var c := ColumnName(meta, n).value;
      assert c !in Keys(row) by {
        forall i | 0 <= i < |row| ensures Keys(row)[i] != c {
          assert row[i].0 == ColumnName(meta, i).value;
        }
      }
      var v := FieldValue(record[n], render);
      assert RowOf(record, meta, render) == Some(Assign(row, c, v));
      assert Assign(row, c, v) == row + [(c, v)];
      forall i | 0 <= i < n ensures (row + [(c, v)])[i] == (ColumnName(meta, i).value, FieldValue(record[i], render)) {
        assert prefix[i] == record[i];
      }
    }
  }

  /** The formatted records, one per raw record in order; `None` when any of them fails. */
  function RowsOf(records: seq<seq<RdsField>>, meta: seq<ColumnMeta>, render: RdsField -> string): (r: Option<seq<Row>>)
    ensures r.Some? ==> |r.value| == |records|
    ensures r.Some? ==> forall i | 0 <= i < |records| :: RowOf(records[i], meta, render) == Some(r.value[i])
    ensures r.None? ==> exists i | 0 <= i < |records| :: RowOf(records[i], meta, render).None?
  {
    if records == [] then Some([])
    else
      var n := |records| - 1;
      match RowsOf(records[..n], meta, render)
      case None =>
        var i :| 0 <= i < n && RowOf(records[..n][i], meta, render).None?;
        assert records[..n][i] == records[i];
        None
      case Some(rows) =>
        match RowOf(records[n], meta, render)
        case None => None
        case Some(row) =>
          assert forall i | 0 <= i < n :: records[..n][i] == records[i];
          Some(rows + [row])
  }

  /** `format_response`'s result: an absent count reads as 0, absent records and metadata as []. */
  function Format(result: RdsResult, render: RdsField -> string): Option<Formatted> {
    var meta := result.columnMetadata.GetOr([]);
    match RowsOf(result.records.GetOr([]), meta, render)
    case None => None
    case Some(rows) => Some(Formatted(rows, result.numberOfRecordsUpdated.GetOr(0), meta))
  }

  /** `format_response`: the loop over records, and inside it the loop over fields that assigns
      each value to its column. */
  method FormatResponse(result: RdsResult, render: RdsField -> string) returns (out: Option<Formatted>)
    ensures out == Format(result, render)
  {
    var records := result.records.GetOr([]);
    var meta := result.columnMetadata.GetOr([]);
    var rows: seq<Row> := [];
    var k := 0;
    while k < |records|
      invariant 0 <= k <= |records|
      invariant RowsOf(records[..k], meta, render) == Some(rows)
    {
      var row := FormatRecord(records[k], meta, render);
      if row.None? {
        RowsOfPrefixFails(records, k + 1, meta, render, records[k]);
        return None;
      }
      RowsOfSnoc(records, k, meta, render, rows, row.value);
      rows := rows + [row.value];
      k := k + 1;
    }
    assert records[..|records|] == records;
    out := Some(Formatted(rows, result.numberOfRecordsUpdated.GetOr(0), meta));
  }

  lemma RowsOfSnoc(records: seq<seq<RdsField>>, k: nat, meta: seq<ColumnMeta>, render: RdsField -> string, rows: seq<Row>, row: Row)
    requires k < |records|
    requires RowsOf(records[..k], meta, render) == Some(rows) && RowOf(records[k], meta, render) == Some(row)
    ensures RowsOf(records[..k + 1], meta, render) == Some(rows + [row])
  {
    var prefix := records[..k + 1];
    assert prefix[..k] == records[..k];
    assert prefix[k] == records[k];
  }

  /** The inner loop of `format_response`: each field's value assigned to its column name. */
  method FormatRecord(record: seq<RdsField>, meta: seq<ColumnMeta>, render: RdsField -> string) returns (out: Option<Row>)
    ensures out == RowOf(record, meta, render)
  {
    var row: Row := [];
    var i := 0;
    while i < |record|
      invariant 0 <= i <= |record|
      invariant RowOf(record[..i], meta, render) == Some(row)
    {
      var name := ColumnName(meta, i);
      assert record[..i + 1][..i] == record[..i];
      if name.None? {
        RowOfFails(record, meta, render);
        return None;
      }
      row := Assign(row, name.value, FieldValue(record[i], render));
      i := i + 1;
    }
    assert record[..|record|] == record;
    out := Some(row);
  }

  /** A record prefix whose formatting fails makes the whole result fail. */
  lemma RowsOfPrefixFails(records: seq<seq<RdsField>>, m: nat, meta: seq<ColumnMeta>, render: RdsField -> string, part: seq<RdsField>)
    requires 0 < m <= |records| && part <= records[m - 1]
    requires RowOf(part, meta, render).None?
    ensures RowsOf(records, meta, render).None?
  {
    RowOfFails(part, meta, render);
    var i :| 0 <= i < |part| && ColumnName(meta, i).None?;
    assert 0 <= i < |records[m - 1]|;
    RowOfFails(records[m - 1], meta, render);
  }

  /** One output record per input record, in order; the defaults of the absent keys. */
  lemma FormatShape(result: RdsResult, render: RdsField -> string)
    requires Format(result, render).Some?
    ensures var f := Format(result, render).value;
      && |f.records| == |result.records.GetOr([])|
      && (forall i | 0 <= i < |f.records| ::
            RowOf(result.records.GetOr([])[i], result.columnMetadata.GetOr([]), render) == Some(f.records[i]))
      && (result.numberOfRecordsUpdated.None? ==> f.numberOfRecordsUpdated == 0)
      && (result.columnMetadata.None? ==> f.columnMetadata == [])
  {
  }

  /** Without metadata, formatting never fails and the fields land under "column_0",
      "column_1", ... in order. */
  lemma FormatWithoutMetadata(record: seq<RdsField>, render: RdsField -> string)
    ensures RowOf(record, [], render).Some?
    ensures |RowOf(record, [], render).value| == |record|
    ensures forall i | 0 <= i < |record| ::
      RowOf(record, [], render).value[i] == ("column_" + NatToString(i), FieldValue(record[i], render))
  {
    RowOfFails(record, [], render);
    forall i, j | 0 <= i < j < |record| ensures ColumnName([], i) != ColumnName([], j) {
      NatToStringInjective(i, j);
      var a, b := "column_" + NatToString(i), "column_" + NatToString(j);
      assert a[7..] == NatToString(i) && b[7..] == NatToString(j);
    }
    RowOfDistinct(record, [], render);
  }

  // ---------------------------------------------------------------------------------------------
  // handler

  datatype Outcome =
    | InvalidJson
    | MissingSql
    | Rejected(verdict: Verdict)
    | DatabaseError(query: string)
    | Executed(query: string, result: Formatted)
    | InternalError

  function StatusCode(o: Outcome): int {
    match o
    case InvalidJson => 400
    case MissingSql => 400
    case Rejected(_) => 400
    case DatabaseError(_) => 500
    case Executed(_, _) => 200
    case InternalError => 500
  }

  /** Executing a screened query: a failing call or a formatting error is the database error. */
  function Run(query: string, execute: string -> Option<RdsResult>, render: RdsField -> string): (o: Outcome)
    ensures o.DatabaseError? || o.Executed?
    ensures o.query == query
  {
    match execute(query)
    case None => DatabaseError(query)
    case Some(result) =>
      match Format(result, render)
      case None => DatabaseError(query)
      case Some(f) => Executed(query, f)
  }

  /** The `sql` entry of the body (`''` when absent): one that is not a string raises on
      `.strip()` and ends in the catch-all 500; a blank one is refused; the stripped query is
      screened and only a valid one is run. */
  function HandleSql(sql: Value, execute: string -> Option<RdsResult>, render: RdsField -> string): (o: Outcome)
  {
    if !sql.JStr? then InternalError
    else
      var query := PyStrip(sql.s);
      if query == "" then MissingSql
      else
        var verdict := ValidateSql(query);
        if verdict != Valid then Rejected(verdict)
        else Run(query, execute, render)
  }

  /** `handler`: the body is parsed (a value other than a dict raises on `.get` and ends in the
      catch-all 500), then its `sql` entry is handled. */
  function Handle(body: Option<Value>, loads: string -> Option<Value>,
                  execute: string -> Option<RdsResult>, render: RdsField -> string): (o: Outcome)
  {
    match LoadBody(body, loads)
    case None => InvalidJson
    case Some(parsed) =>
      if !parsed.JObj? then InternalError
      else HandleSql(GetOr(parsed.fields, "sql", JStr("")), execute, render)
  }

  /** The status codes the handler answers with. */
  lemma StatusCodes(body: Option<Value>, loads: string -> Option<Value>,
                    execute: string -> Option<RdsResult>, render: RdsField -> string)
    ensures StatusCode(Handle(body, loads, execute, render)) == 200 <==> Handle(body, loads, execute, render).Executed?
    ensures StatusCode(Handle(body, loads, execute, render)) in {200, 400, 500}
  {
  }

  /** A request answered 400 never reached the database: its answer is the same whatever the
      database would do, and a rejection carries a verdict other than `Valid`. */
  lemma BadRequestsNeverExecuted(sql: Value, execute: string -> Option<RdsResult>,
                                 execute': string -> Option<RdsResult>, render: RdsField -> string)
    requires StatusCode(HandleSql(sql, execute, render)) == 400
    ensures HandleSql(sql, execute', render) == HandleSql(sql, execute, render)
    ensures HandleSql(sql, execute, render).Rejected? ==> HandleSql(sql, execute, render).verdict != Valid
  {
    if sql.JStr? {
      var query := PyStrip(sql.s);
      if query != "" && ValidateSql(query) == Valid {
        var o := Run(query, execute, render);
      }
    }
  }

  /** Every request answered 400 is answered so whatever the database would do. */
  lemma RejectedNeverExecuted(body: Option<Value>, loads: string -> Option<Value>,
                              execute: string -> Option<RdsResult>, execute': string -> Option<RdsResult>,
                              render: RdsField -> string)
    requires StatusCode(Handle(body, loads, execute, render)) == 400
    ensures Handle(body, loads, execute', render) == Handle(body, loads, execute, render)
  {
    var parsed := LoadBody(body, loads);
    if parsed.Some? && parsed.value.JObj? {
      BadRequestsNeverExecuted(GetOr(parsed.value.fields, "sql", JStr("")), execute, execute', render);
    }
  }

  /** A blank or whitespace-only `sql` is refused before the screen. */
  lemma BlankSqlRefused(fields: map<string, Value>, loads: string -> Option<Value>,
                        execute: string -> Option<RdsResult>, render: RdsField -> string)
    requires "sql" !in fields || (fields["sql"].JStr? && PyStrip(fields["sql"].s) == "")
    ensures Handle(Some(JObj(fields)), loads, execute, render) == MissingSql
  {
    if "sql" !in fields {
      assert PyStrip("") == "";
    }
  }

  /** What is executed is the stripped query, non-empty and passed by the screen. */
  lemma ExecutedQueriesPassed(sql: Value, execute: string -> Option<RdsResult>, render: RdsField -> string)
    requires HandleSql(sql, execute, render).Executed?
    ensures var o := HandleSql(sql, execute, render);
      && sql.JStr? && o.query == PyStrip(sql.s)
      && o.query != "" && PyStrip(o.query) == o.query && ValidateSql(o.query) == Valid
      && execute(o.query).Some? && Format(execute(o.query).value, render) == Some(o.result)
  {
    PyStripIdempotent(sql.s);
  }
}
