/**
 * JsonSQLRepository (pkg/repository/immudb/jsonSQL.go): documents kept as
 * rows of a SQL table, one column per indexed field plus the raw document
 * in `__value__`. The SQL server is a collaborator that records every
 * request it is sent together with the answer it gave.
 */
module JsonSQL {
  import opened Wrappers
  import opened Text
  import opened Json
  import opened Errors

  /** A column of the collection's table as the COLUMNS() query reports it. */
  datatype Column = Column(name: string, cType: string)

  /** A statement parameter, by the Go type it is bound as. */
  datatype Param = IntParam(i: int) | StrParam(s: string) | TimeParam(t: Instant) | BytesParam(b: string)

  datatype Request =
    | BeginTx
    | Exec(sql: string, params: map<string, Param>)
    | Query(sql: string, params: map<string, Param>)
    | CommitTx

  /** What the server answered: a transaction id, result rows (each a list of values), or an error. */
  datatype Response = Done(txID: nat) | Rows(rows: seq<seq<string>>) | Failure(message: string)

  /**
   * `requests1`/`answers1` extend `requests0`/`answers0` by the requests
   * `reqs`, each with one answer.
   */
  ghost predicate Sent(requests0: seq<Request>, requests1: seq<Request>, answers0: seq<Response>, answers1: seq<Response>,
                       reqs: seq<Request>)
  {
    requests1 == requests0 + reqs && |answers1| == |answers0| + |reqs| && answers1[..|answers0|] == answers0
  }

  /**
   * A connection to the SQL server: `requests` holds every request sent and
   * `answers` the answer to each, in the same order.
   */
  class SqlClient {
    var requests: seq<Request>
    var answers: seq<Response>

    constructor ()
      ensures requests == [] && answers == []
    {
      requests := [];
      answers := [];
    }

    method NewTx() returns (answer: Response)
      modifies this
      ensures requests == old(requests) + [BeginTx] && answers == old(answers) + [answer]
      ensures answer.Done? || answer.Failure?
    {
      var ok: bool := *;
      var message: string := *;
      answer := if ok then Done(0) else Failure(message);
      requests := requests + [BeginTx];
      answers := answers + [answer];
    }

    method SQLExec(sql: string, params: map<string, Param>) returns (answer: Response)
      modifies this
      ensures requests == old(requests) + [Exec(sql, params)] && answers == old(answers) + [answer]
      ensures answer.Done? || answer.Failure?
    {
      var ok: bool := *;
      var id: nat := *;
      var message: string := *;
      answer := if ok then Done(id) else Failure(message);
      requests := requests + [Exec(sql, params)];
      answers := answers + [answer];
    }

    /** A query selecting `width` columns: every row it answers holds `width` values. */
    method SQLQuery(sql: string, params: map<string, Param>, width: nat) returns (answer: Response)
      modifies this
      ensures requests == old(requests) + [Query(sql, params)] && answers == old(answers) + [answer]
      ensures answer.Rows? || answer.Failure?
      ensures answer.Rows? ==> forall i :: 0 <= i < |answer.rows| ==> |answer.rows[i]| == width
    {
      var ok: bool := *;
      var rows: seq<seq<string>> := *;
      var message: string := *;
      if !(forall i :: 0 <= i < |rows| ==> |rows[i]| == width) {
        rows := [];
      }
      answer := if ok then Rows(rows) else Failure(message);
      requests := requests + [Query(sql, params)];
      answers := answers + [answer];
    }

    method Commit() returns (answer: Response)
      modifies this
      ensures requests == old(requests) + [CommitTx] && answers == old(answers) + [answer]
      ensures answer.Done? || answer.Failure?
    {
      var ok: bool := *;
      var message: string := *;
      answer := if ok then Done(0) else Failure(message);
      requests := requests + [CommitTx];
      answers := answers + [answer];
    }
  }

  function TablesSql(collection: string): string
  {
    "select name from Tables() where name like '" + collection + "';"
  }

  const ColumnsSql: string := "SELECT name,type FROM COLUMNS(@name);"

  /** The requests of a successful NewJsonSQLRepository, in order. */
  function OpenRequests(collection: string): (r: seq<Request>)
    ensures |r| == 4 && r[0] == BeginTx && r[3] == CommitTx
  {
    [BeginTx, Query(TablesSql(collection), map[]), Query(ColumnsSql, map["name" := StrParam(collection)]), CommitTx]
  }

  /** The table's columns, one per row of the COLUMNS() answer, in row order. */
  function ColumnsOf(rows: seq<seq<string>>): (r: seq<Column>)
    requires forall i :: 0 <= i < |rows| ==> |rows[i]| == 2
    ensures |r| == |rows|
  {
    seq(|rows|, i requires 0 <= i < |rows| => Column(rows[i][0], rows[i][1]))
  }

  /** The first value of every row, in row order. */
  function FirstValues(rows: seq<seq<string>>): (r: seq<string>)
    requires forall i :: 0 <= i < |rows| ==> |rows[i]| == 1
    ensures |r| == |rows|
  {
    seq(|rows|, i requires 0 <= i < |rows| => rows[i][0])
  }

  /** The parameter a column is bound to, by its SQL type; None for a type WriteBytes does not support. */
  function Bind(cType: string, v: Value): Option<Param>
  {
    if cType == "INTEGER" then Some(IntParam(v.asInt))
    else if cType == "VARCHAR" then Some(StrParam(v.str))
    else if cType == "TIMESTAMP" then Some(TimeParam(v.asTime))
    else None
  }

  predicate Supported(cType: string)
  {
    cType == "INTEGER" || cType == "VARCHAR" || cType == "TIMESTAMP"
  }

  /** The document's own columns: every column but `__value__`, in table order. */
  function DataNames(columns: seq<Column>): (r: seq<string>)
    ensures |r| <= |columns|
  {
    if columns == [] then []
    else
      var c := columns[|columns| - 1];
      DataNames(columns[..|columns| - 1]) + (if c.name == "__value__" then [] else [c.name])
  }

  /** Go's %s on a column value. */
  function ColumnText(c: Column): string
  {
    "{" + c.name + " " + c.cType + "}"
  }

  /**
   * The parameters WriteBytes binds for the columns `columns`, starting from
   * `__value__` bound to the document bytes; the first column that is
   * missing from the document or of an unsupported type is an error.
   */
  function WriteParams(columns: seq<Column>, doc: Document, jBytes: string): Result<map<string, Param>, Error>
  {
    if columns == [] then Ok(map["__value__" := BytesParam(jBytes)])
    else
      var c := columns[|columns| - 1];
      match WriteParams(columns[..|columns| - 1], doc, jBytes)
      case Err(e) => Err(e)
      case Ok(params) =>
        if c.name == "__value__" then Ok(params)
        else if c.name !in doc.paths then Err(Failed("missing field " + ColumnText(c) + " in object"))
        else
          match Bind(c.cType, doc.paths[c.name])
          case None => Err(Failed("unsupported field type " + c.cType))
          case Some(p) => Ok(params[c.name := p])
  }

  /** The UPSERT statement WriteBytes sends for the data columns `names`. */
  function UpsertSql(collection: string, names: seq<string>): string
  {
    "UPSERT INTO " + collection + " (\"" + Join(names, "\",\"") + "\", \"__value__\") VALUES (@"
      + Join(names, ",@") + ",@__value__);"
  }

  function ReadSql(collection: string, query: string): string
  {
    "SELECT __value__ FROM " + collection + (if query != [] then " WHERE " + query else []) + ";"
  }

  function HistorySql(collection: string, query: string): string
  {
    "SELECT __value__ FROM " + collection + (if query != [] then query else " SINCE TX 1 ") + ";"
  }

  class JsonSQLRepository {
    const client: SqlClient
    const collection: string
    const columns: seq<Column>

    constructor (client: SqlClient, collection: string, columns: seq<Column>)
      ensures this.client == client && this.collection == collection && this.columns == columns
    {
      this.client := client;
      this.collection := collection;
      this.columns := columns;
    }

    /**
     * NewJsonSQLRepository: in one transaction, check that exactly one table
     * has the collection's name and read its columns in row order, then
     * commit. The call stops at the first request that fails, or when the
     * table count is not one, and returns that request's error; it succeeds
     * exactly when all four requests do.
     */
    static method New(cli: SqlClient, collection: string) returns (r: Result<JsonSQLRepository, Error>)
      modifies cli
      ensures var k, n := |old(cli.answers)|, |cli.answers| - |old(cli.answers)|;
        && 1 <= n <= 4
        && Sent(old(cli.requests), cli.requests, old(cli.answers), cli.answers, OpenRequests(collection)[..n])
        && (n >= 2 ==> cli.answers[k].Done?)
        && (n >= 3 ==> cli.answers[k + 1].Rows? && |cli.answers[k + 1].rows| == 1)
        && (n == 4 ==> cli.answers[k + 2].Rows?)
        && (r.Ok? <==> n == 4 && cli.answers[k + 3].Done?)
      ensures var k, n := |old(cli.answers)|, |cli.answers| - |old(cli.answers)|;
        n == 1 ==>
          && cli.answers[k].Failure?
          && r == Err(Failed("could not create transaction for sql repository, " + cli.answers[k].message))
      ensures var k, n := |old(cli.answers)|, |cli.answers| - |old(cli.answers)|;
        n == 2 ==>
          || (cli.answers[k + 1].Failure? && r == Err(Failed("coudl not query tables, " + cli.answers[k + 1].message)))
          || (cli.answers[k + 1].Rows? && |cli.answers[k + 1].rows| != 1 && r == Err(Failed("collection does not exist")))
      ensures var k, n := |old(cli.answers)|, |cli.answers| - |old(cli.answers)|;
        n == 3 ==> cli.answers[k + 2].Failure? && r == Err(Failed(cli.answers[k + 2].message))
      ensures var k, n := |old(cli.answers)|, |cli.answers| - |old(cli.answers)|;
        n == 4 && cli.answers[k + 3].Failure? ==>
          r == Err(Failed("could not initialize sql repository, " + cli.answers[k + 3].message))
      ensures r.Ok? ==> fresh(r.value) && r.value.client == cli && r.value.collection == collection
      ensures r.Ok? ==> var cols := cli.answers[|old(cli.answers)| + 2];
        && cols.Rows? && (forall i :: 0 <= i < |cols.rows| ==> |cols.rows[i]| == 2)
        && r.value.columns == ColumnsOf(cols.rows)
    {
      ghost var reqs := OpenRequests(collection);
      assert reqs[..1] == [BeginTx] && reqs[..2] == [BeginTx] + [reqs[1]];
      assert reqs[..3] == reqs[..2] + [reqs[2]] && reqs[..4] == reqs[..3] + [CommitTx];
      var began := cli.NewTx();
      if began.Failure? {
        r := Err(Failed("could not create transaction for sql repository, " + began.message));
      } else {
        var tables := cli.SQLQuery(TablesSql(collection), map[], 1);
        if tables.Failure? {
          r := Err(Failed("coudl not query tables, " + tables.message));
        } else if |tables.rows| != 1 {
          r := Err(Failed("collection does not exist"));
        } else {
          var res := cli.SQLQuery(ColumnsSql, map["name" := StrParam(collection)], 2);
          if res.Failure? {
            r := Err(Failed(res.message));
          } else {
            var rows := res.rows;
            var cols: seq<Column> := [];
            for i := 0 to |rows|
              invariant cols == ColumnsOf(rows[..i])
            {
              cols := cols + [Column(rows[i][0], rows[i][1])];
            }
            assert rows[..|rows|] == rows;
            var committed := cli.Commit();
            if committed.Failure? {
              r := Err(Failed("could not initialize sql repository, " + committed.message));
            } else {
              var repo := new JsonSQLRepository(cli, collection, cols);
              r := Ok(repo);
            }
          }
        }
      }
    }

    /**
     * WriteBytes: bind every data column from the document, then send one
     * UPSERT listing the data columns and `__value__`; the result is the id
     * of the transaction the server reports.
     */
    method WriteBytes(jBytes: string, doc: Document) returns (r: Result<nat, Error>)
      modifies client
      ensures WriteParams(columns, doc, jBytes).Err? ==>
        r == Err(WriteParams(columns, doc, jBytes).error) && unchanged(client)
      ensures WriteParams(columns, doc, jBytes).Ok? ==>
        && Sent(old(client.requests), client.requests, old(client.answers), client.answers,
                [Exec(UpsertSql(collection, DataNames(columns)), WriteParams(columns, doc, jBytes).value)])
        && var answer := client.answers[|client.answers| - 1];
        && (r.Ok? <==> answer.Done?)
        && (r.Ok? ==> r.value == answer.txID)
        && (r.Err? ==> answer.Failure? && r.error == Failed("could not insert into collection, " + answer.message))
    {
      var params := map["__value__" := BytesParam(jBytes)];
      var cSlice: seq<string> := [];
      for i := 0 to |columns|
        invariant WriteParams(columns[..i], doc, jBytes) == Ok(params)
        invariant cSlice == DataNames(columns[..i])
      {
        var c := columns[i];
        assert columns[..i + 1][..i] == columns[..i];
        if c.name != "__value__" {
          cSlice := cSlice + [c.name];
          var gjr := Get(doc, c.name);
          if gjr.None? {
            WriteParamsKeepsError(columns, doc, jBytes, i + 1);
            return Err(Failed("missing field " + ColumnText(c) + " in object"));
          }
          var p := Bind(c.cType, gjr.value);
          if p.None? {
            WriteParamsKeepsError(columns, doc, jBytes, i + 1);
            return Err(Failed("unsupported field type " + c.cType));
          }
          params := params[c.name := p.value];
        }
      }
      assert columns[..|columns|] == columns;
      var res := client.SQLExec(UpsertSql(collection, cSlice), params);
      if res.Failure? {
        return Err(Failed("could not insert into collection, " + res.message));
      }
      r := Ok(res.txID);
    }

    /** Read(query): the `__value__` of every row the query selects, in row order. */
    method Read(query: string) returns (r: Result<seq<string>, Error>)
      modifies client
      ensures Sent(old(client.requests), client.requests, old(client.answers), client.answers,
                   [Query(ReadSql(collection, query), map[])])
      ensures var answer := client.answers[|client.answers| - 1];
        && (r.Ok? <==> answer.Rows?)
        && (r.Ok? ==> (forall i :: 0 <= i < |answer.rows| ==> |answer.rows[i]| == 1) && r.value == FirstValues(answer.rows))
        && (r.Err? ==> answer.Failure? && r.error == Failed(answer.message))
    {
      var res := client.SQLQuery(ReadSql(collection, query), map[], 1);
      if res.Failure? {
        return Err(Failed(res.message));
      }
      var rows := res.rows;
      var ret: seq<string> := [];
      for i := 0 to |rows|
        invariant ret == FirstValues(rows[..i])
      {
        ret := ret + [rows[i][0]];
      }
      assert rows[..|rows|] == rows;
      r := Ok(ret);
    }

    /** History(query): the `__value__` of every row version the query selects, in row order. */
    method History(query: string) returns (r: Result<seq<string>, Error>)
      modifies client
      ensures Sent(old(client.requests), client.requests, old(client.answers), client.answers,
                   [Query(HistorySql(collection, query), map[])])
      ensures var answer := client.answers[|client.answers| - 1];
        && (r.Ok? <==> answer.Rows?)
        && (r.Ok? ==> (forall i :: 0 <= i < |answer.rows| ==> |answer.rows[i]| == 1) && r.value == FirstValues(answer.rows))
        && (r.Err? ==> answer.Failure? && r.error == Failed(answer.message))
    {
      var res := client.SQLQuery(HistorySql(collection, query), map[], 1);
      if res.Failure? {
        return Err(Failed(res.message));
      }
      var rows := res.rows;
      var h: seq<string> := [];
      for i := 0 to |rows|
        invariant h == FirstValues(rows[..i])
      {
        h := h + [rows[i][0]];
      }
      assert rows[..|rows|] == rows;
      r := Ok(h);
    }
  }

  /** Once a column fails, every longer prefix of the columns fails with the same error. */
  lemma {:induction false} WriteParamsKeepsError(columns: seq<Column>, doc: Document, jBytes: string, n: nat)
    requires n <= |columns| && WriteParams(columns[..n], doc, jBytes).Err?
    ensures WriteParams(columns, doc, jBytes) == WriteParams(columns[..n], doc, jBytes)
    decreases |columns| - n
  {
    if n < |columns| {
      assert columns[..n + 1][..n] == columns[..n];
      WriteParamsKeepsError(columns, doc, jBytes, n + 1);
    } else {
      assert columns[..n] == columns;
    }
  }

  /** A column the document can fill: `__value__`, or a field present in the document with a supported type. */
  predicate Bindable(c: Column, doc: Document)
  {
    c.name == "__value__" || (c.name in doc.paths && Supported(c.cType))
  }

  /** The error WriteBytes reports for a column it cannot fill. */
  function ColumnError(c: Column, doc: Document): Error
  {
    if c.name !in doc.paths then Failed("missing field " + ColumnText(c) + " in object")
    else Failed("unsupported field type " + c.cType)
  }

  /**
   * WriteParams succeeds exactly when every column can be filled; its keys
   * are then `__value__` and the data columns, `__value__` holding the bytes.
   * Otherwise it reports the first column that cannot be filled.
   */
  lemma {:induction false} WriteParamsOutcome(columns: seq<Column>, doc: Document, jBytes: string)
    ensures WriteParams(columns, doc, jBytes).Ok? <==> forall i :: 0 <= i < |columns| ==> Bindable(columns[i], doc)
    ensures WriteParams(columns, doc, jBytes).Ok? ==>
      var params := WriteParams(columns, doc, jBytes).value;
      && params.Keys == {"__value__"} + (set n | n in DataNames(columns))
      && params["__value__"] == BytesParam(jBytes)
    ensures WriteParams(columns, doc, jBytes).Err? ==>
      exists k :: 0 <= k < |columns| && !Bindable(columns[k], doc)
        && (forall j :: 0 <= j < k ==> Bindable(columns[j], doc))
        && WriteParams(columns, doc, jBytes).error == ColumnError(columns[k], doc)
  {
    if columns != [] {
      var init := columns[..|columns| - 1];
      var c := columns[|columns| - 1];
      WriteParamsOutcome(init, doc, jBytes);
      assert forall i :: 0 <= i < |init| ==> init[i] == columns[i];
      if WriteParams(init, doc, jBytes).Err? {
        var k :| 0 <= k < |init| && !Bindable(init[k], doc)
          && (forall j :: 0 <= j < k ==> Bindable(init[j], doc))
          && WriteParams(init, doc, jBytes).error == ColumnError(init[k], doc);
        assert !Bindable(columns[k], doc);
      } else if !Bindable(c, doc) {
        assert forall j :: 0 <= j < |columns| - 1 ==> Bindable(columns[j], doc);
      }
    }
  }

  /** Under distinct column names, every data column is bound to its field's value in the column's type. */
  lemma {:induction false} WriteParamsBinds(columns: seq<Column>, doc: Document, jBytes: string, k: nat)
    requires forall i, j :: 0 <= i < j < |columns| ==> columns[i].name != columns[j].name
    requires WriteParams(columns, doc, jBytes).Ok?
    requires k < |columns| && columns[k].name != "__value__"
    ensures columns[k].name in doc.paths && Bind(columns[k].cType, doc.paths[columns[k].name]).Some?
    ensures columns[k].name in WriteParams(columns, doc, jBytes).value
    ensures WriteParams(columns, doc, jBytes).value[columns[k].name]
            == Bind(columns[k].cType, doc.paths[columns[k].name]).value
    decreases |columns|
  {
    var init := columns[..|columns| - 1];
    if k < |columns| - 1 {
      assert init[k] == columns[k];
      WriteParamsBinds(init, doc, jBytes, k);
    }
  }

  /** One piece of every part: `pre + part + post`. */
  function Wrapped(parts: seq<string>, pre: string, post: string): (r: seq<string>)
    ensures |r| == |parts|
    ensures forall i :: 0 <= i < |parts| ==> r[i] == pre + parts[i] + post
  {
    seq(|parts|, i requires 0 <= i < |parts| => pre + parts[i] + post)
  }

  /** Wrapping the join of the parts is joining the wrapped parts. */
  lemma {:induction false} JoinWrapped(parts: seq<string>, pre: string, post: string, sep: string, inner: string)
    requires parts != [] && inner == post + sep + pre
    ensures Join(Wrapped(parts, pre, post), sep) == pre + Join(parts, inner) + post
  {
    var w := Wrapped(parts, pre, post);
    if |parts| > 1 {
      var rest := Join(parts[1..], inner);
      JoinWrapped(parts[1..], pre, post, sep, inner);
      assert w[1..] == Wrapped(parts[1..], pre, post);
      calc {
        Join(w, sep);
        w[0] + sep + Join(w[1..], sep);
        (pre + parts[0] + post) + sep + (pre + rest + post);
        pre + (parts[0] + (post + sep + pre) + rest) + post;
        pre + Join(parts, inner) + post;
      }
    }
  }

  lemma Regroup(head: string, open: string, quote: string, quoted: string, middle: string, at: string, params: string, tail: string)
    ensures head + (open + quote) + quoted + (quote + middle + at) + params + tail
            == head + open + (quote + quoted + quote) + middle + (at + params + []) + tail
  {
  }

  /** The UPSERT's fixed texts around the column list, split at the quotes and the `@`. */
  lemma UpsertLiterals()
    ensures " (\"" == " (" + "\""
    ensures "\", \"__value__\") VALUES (@" == "\"" + ", \"__value__\") VALUES (" + "@"
  {
  }

  /**
   * The UPSERT names every data column double-quoted, then `__value__`, and
   * binds them to parameters of the same names, in the same order.
   */
  lemma UpsertNamesColumns(collection: string, names: seq<string>)
    requires names != []
    ensures UpsertSql(collection, names)
      == "UPSERT INTO " + collection + " (" + Join(Wrapped(names, "\"", "\""), ",") + ", \"__value__\") VALUES ("
         + Join(Wrapped(names, "@", ""), ",") + ",@__value__);"
  {
    JoinWrapped(names, "\"", "\"", ",", "\",\"");
    JoinWrapped(names, "@", "", ",", ",@");
    UpsertLiterals();
    Regroup("UPSERT INTO " + collection, " (", "\"", Join(names, "\",\""), ", \"__value__\") VALUES (", "@",
            Join(names, ",@"), ",@__value__);");
  }

  /** Different filters give different SELECT statements. */
  lemma ReadSqlInjective(collection: string, q1: string, q2: string)
    requires ReadSql(collection, q1) == ReadSql(collection, q2)
    ensures q1 == q2
  {
    var head := "SELECT __value__ FROM " + collection;
    var t1 := ReadSql(collection, q1)[|head|..];
    var t2 := ReadSql(collection, q2)[|head|..];
    assert t1 == (if q1 != [] then " WHERE " + q1 else []) + ";";
    assert t2 == (if q2 != [] then " WHERE " + q2 else []) + ";";
    if q1 != [] && q2 != [] {
      assert q1 == t1[7..|t1| - 1];
      assert q2 == t2[7..|t2| - 1];
    }
  }

  /**
   * A history query is the read statement with the query text appended in
   * place of the WHERE clause; an empty query asks for every transaction
   * since the first.
   */
  lemma HistorySqlAppends(collection: string, query: string)
    ensures query != [] ==> ReadSql(collection, query) == HistorySql(collection, " WHERE " + query)
    ensures HistorySql(collection, []) == HistorySql(collection, " SINCE TX 1 ")
  {
  }

  /** The column definitions of SetupJsonSQLRepository: `name=type` pairs, or the first malformed one. */
  function Definitions(columns: seq<string>): (r: Result<seq<(string, string)>, string>)
    ensures r.Ok? ==> |r.value| == |columns|
  {
    if columns == [] then Ok([])
    else
      var column := columns[|columns| - 1];
      var parts := Split(column, '=');
      match Definitions(columns[..|columns| - 1])
      case Err(bad) => Err(bad)
      case Ok(ds) => if |parts| != 2 then Err(column) else Ok(ds + [(parts[0], parts[1])])
  }

  /**
   * The definitions are well formed exactly when every column holds one
   * `=`; each pair then reassembles into its column, and neither half holds
   * an `=`. Otherwise the malformed column reported is the first.
   */
  lemma {:induction false} DefinitionsOutcome(columns: seq<string>)
    ensures Definitions(columns).Ok? <==> forall i :: 0 <= i < |columns| ==> Count(columns[i], '=') == 1
    ensures Definitions(columns).Ok? ==> forall i :: 0 <= i < |columns| ==>
      var d := Definitions(columns).value[i];
      d.0 + "=" + d.1 == columns[i] && '=' !in d.0 && '=' !in d.1
    ensures Definitions(columns).Err? ==>
      exists k :: 0 <= k < |columns| && Definitions(columns).error == columns[k] && Count(columns[k], '=') != 1
        && forall j :: 0 <= j < k ==> Count(columns[j], '=') == 1
  {
    if columns != [] {
      var init := columns[..|columns| - 1];
      var column := columns[|columns| - 1];
      DefinitionsOutcome(init);
      assert forall i :: 0 <= i < |init| ==> init[i] == columns[i];
      var parts := Split(column, '=');
      if Definitions(init).Err? {
        var k :| 0 <= k < |init| && Definitions(init).error == init[k] && Count(init[k], '=') != 1
          && forall j :: 0 <= j < k ==> Count(init[j], '=') == 1;
        assert columns[k] == init[k];
      } else if |parts| == 2 {
        SplitJoin(column, '=');
        assert Join(parts, "=") == parts[0] + "=" + parts[1];
      }
    }
  }

  /** The column list of CREATE TABLE: `name type,` for every definition. */
  function ColumnDefs(ds: seq<(string, string)>): string
  {
    if ds == [] then [] else ColumnDefs(ds[..|ds| - 1]) + ColumnDef(ds[|ds| - 1])
  }

  function ColumnDef(d: (string, string)): string
  {
    d.0 + " " + d.1 + ","
  }

  /** The indexed column names, in definition order. */
  function Names(ds: seq<(string, string)>): (r: seq<string>)
    ensures |r| == |ds| && forall i :: 0 <= i < |ds| ==> r[i] == ds[i].0
  {
    seq(|ds|, i requires 0 <= i < |ds| => ds[i].0)
  }

  function CreateTableSql(collection: string, primaryKey: string, ds: seq<(string, string)>): string
  {
    "CREATE TABLE IF NOT EXISTS " + collection + " ( " + ColumnDefs(ds) + " __value__ BLOB, PRIMARY KEY (" + primaryKey + "));"
  }

  function CreateIndexSql(collection: string, names: seq<string>): string
  {
    "CREATE INDEX IF NOT EXISTS ON " + collection + "(" + Join(names, ",") + ");"
  }

  /** The requests of a successful SetupJsonSQLRepository, in order. */
  function SetupRequests(collection: string, primaryKey: string, ds: seq<(string, string)>): (r: seq<Request>)
    ensures |r| == 4 && r[0] == BeginTx && r[3] == CommitTx
  {
    [BeginTx, Exec(CreateTableSql(collection, primaryKey, ds), map[]),
     Exec(CreateIndexSql(collection, Names(ds)), map[]), CommitTx]
  }

  /** Once a definition is malformed, every longer list of columns reports the same one. */
  lemma {:induction false} DefinitionsKeepError(columns: seq<string>, n: nat)
    requires n <= |columns| && Definitions(columns[..n]).Err?
    ensures Definitions(columns) == Definitions(columns[..n])
    decreases |columns| - n
  {
    if n < |columns| {
      assert columns[..n + 1][..n] == columns[..n];
      DefinitionsKeepError(columns, n + 1);
    } else {
      assert columns[..n] == columns;
    }
  }

  /**
   * One more column: the statement text and the names to index grow by its
   * definition, or it is the first malformed one.
   */
  lemma TableStep(columns: seq<string>, i: nat, ds: seq<(string, string)>, header: string, sb: string, indexes: seq<string>)
    requires i < |columns| && Definitions(columns[..i]) == Ok(ds)
    requires sb == header + ColumnDefs(ds) && indexes == Names(ds)
    ensures var parts := Split(columns[i], '=');
      && (|parts| != 2 ==> Definitions(columns) == Err(columns[i]))
      && (|parts| == 2 ==>
           var d := (parts[0], parts[1]);
           && Definitions(columns[..i + 1]) == Ok(ds + [d])
           && sb + ColumnDef(d) == header + ColumnDefs(ds + [d])
           && indexes + [d.0] == Names(ds + [d]))
  {
    var parts := Split(columns[i], '=');
    DefinitionStep(columns, i, ds);
    if |parts| == 2 {
      DefsGrow(ds, (parts[0], parts[1]), header, sb, indexes);
    } else {
      DefinitionsKeepError(columns, i + 1);
    }
  }

  /** The definitions of one more column: the next pair, or that column as the error. */
  lemma DefinitionStep(columns: seq<string>, i: nat, ds: seq<(string, string)>)
    requires i < |columns| && Definitions(columns[..i]) == Ok(ds)
    ensures var parts := Split(columns[i], '=');
      Definitions(columns[..i + 1]) == if |parts| == 2 then Ok(ds + [(parts[0], parts[1])]) else Err(columns[i])
  {
    assert columns[..i + 1][..i] == columns[..i];
  }

  /** The statement text and the names to index grow by one definition. */
  lemma DefsGrow(ds: seq<(string, string)>, d: (string, string), header: string, sb: string, indexes: seq<string>)
    requires sb == header + ColumnDefs(ds) && indexes == Names(ds)
    ensures sb + ColumnDef(d) == header + ColumnDefs(ds + [d])
    ensures indexes + [d.0] == Names(ds + [d])
  {
    assert (ds + [d])[..|ds|] == ds;
  }

  /**
   * The CREATE TABLE statement of SetupJsonSQLRepository, built column by
   * column, with the names to index; the first malformed definition is an
   * error.
   */
  method TableStatement(collection: string, primaryKey: string, columns: seq<string>)
    returns (r: Result<(string, seq<string>), Error>)
    ensures Definitions(columns).Err? ==> r == Err(Failed("invalid index definition, " + Definitions(columns).error))
    ensures Definitions(columns).Ok? ==>
      r == Ok((CreateTableSql(collection, primaryKey, Definitions(columns).value), Names(Definitions(columns).value)))
  {
    ghost var header := "CREATE TABLE IF NOT EXISTS " + collection + " ( ";
    var sb := "CREATE TABLE IF NOT EXISTS " + collection + " ( ";
    var indexes: seq<string> := [];
    ghost var ds: seq<(string, string)> := [];
    for i := 0 to |columns|
      invariant Definitions(columns[..i]) == Ok(ds)
      invariant sb == header + ColumnDefs(ds)
      invariant indexes == Names(ds)
    {
      var column := columns[i];
      var splitted := Split(column, '=');
      TableStep(columns, i, ds, header, sb, indexes);
      if |splitted| != 2 {
        return Err(Failed("invalid index definition, " + column));
      }
      sb := sb + ColumnDef((splitted[0], splitted[1]));
      indexes := indexes + [splitted[0]];
      ds := ds + [(splitted[0], splitted[1])];
    }
    assert columns[..|columns|] == columns;
    sb := sb + " __value__ BLOB, PRIMARY KEY (" + primaryKey + "));";
    assert sb == CreateTableSql(collection, primaryKey, ds);
    r := Ok((sb, indexes));
  }

  /**
   * The requests `reqs` were sent in order until the first that failed, and
   * no further: every answer but the last is Done. A failure before the
   * last request ends the process (`log.Fatal`); the last request's failure
   * is returned, and its success is the call's.
   */
  ghost predicate Stopped(requests0: seq<Request>, requests1: seq<Request>, answers0: seq<Response>, answers1: seq<Response>,
                          reqs: seq<Request>, r: Result<(), Error>)
  {
    var k, n := |answers0|, |answers1| - |answers0|;
    && 1 <= n <= |reqs|
    && Sent(requests0, requests1, answers0, answers1, reqs[..n])
    && (forall i :: k <= i < k + n - 1 ==> answers1[i].Done?)
    && (n < |reqs| ==> answers1[k + n - 1].Failure?)
    && (r == Err(Fatal) <==> n < |reqs|)
    && (n == |reqs| ==> (r.Ok? <==> answers1[k + n - 1].Done?))
    && (n == |reqs| && answers1[k + n - 1].Failure? ==> r == Err(Failed(answers1[k + n - 1].message)))
  }

  /** A begin answered Done, then requests sent until one stops: the begin and those requests stopped there. */
  lemma StoppedAfterBegin(requests0: seq<Request>, requests1: seq<Request>, requests2: seq<Request>,
                          answers0: seq<Response>, answers1: seq<Response>, answers2: seq<Response>,
                          all: seq<Request>, reqs: seq<Request>, r: Result<(), Error>)
    requires all == [BeginTx] + reqs
    requires Sent(requests0, requests1, answers0, answers1, [BeginTx]) && answers1[|answers1| - 1].Done?
    requires Stopped(requests1, requests2, answers1, answers2, reqs, r)
    ensures Stopped(requests0, requests2, answers0, answers2, all, r)
  {
    var n := |answers2| - |answers1|;
    assert all[..n + 1] == [BeginTx] + reqs[..n];
    assert answers2[..|answers0|] == answers1[..|answers0|];
  }

  /**
   * SetupJsonSQLRepository: in one transaction, create the collection's
   * table (one column per `name=type` definition, `__value__` and the
   * primary key) and an index on the defined columns. A failure to open the
   * transaction or to execute a statement ends the process.
   */
  method Setup(cli: SqlClient, collection: string, primaryKey: string, columns: seq<string>) returns (r: Result<(), Error>)
    modifies cli
    ensures collection == [] ==> r == Err(Failed("collection cannot be empty")) && unchanged(cli)
    ensures collection != [] && Definitions(columns).Err? ==>
      && Sent(old(cli.requests), cli.requests, old(cli.answers), cli.answers, [BeginTx])
      && r == (if cli.answers[|cli.answers| - 1].Done?
               then Err(Failed("invalid index definition, " + Definitions(columns).error))
               else Err(Fatal))
    ensures collection != [] && Definitions(columns).Ok? ==>
      Stopped(old(cli.requests), cli.requests, old(cli.answers), cli.answers,
              SetupRequests(collection, primaryKey, Definitions(columns).value), r)
    ensures r.Ok? ==> collection != [] && Definitions(columns).Ok?
  {
    if collection == [] {
      r := Err(Failed("collection cannot be empty"));
    } else {
      var began := cli.NewTx();
      if began.Failure? {
        r := Err(Fatal);
      } else {
        var statement := TableStatement(collection, primaryKey, columns);
        if statement.Err? {
          r := Err(statement.error);
        } else {
          ghost var requests1, answers1 := cli.requests, cli.answers;
          r := CreateCollection(cli, collection, statement.value.0, statement.value.1);
          StoppedAfterBegin(old(cli.requests), requests1, cli.requests, old(cli.answers), answers1, cli.answers,
                            SetupRequests(collection, primaryKey, Definitions(columns).value),
                            [Exec(statement.value.0, map[]), Exec(CreateIndexSql(collection, statement.value.1), map[]), CommitTx], r);
        }
      }
    }
  }

  /**
   * The rest of SetupJsonSQLRepository once the table statement is built:
   * create the table, then the index, then commit.
   */
  method CreateCollection(cli: SqlClient, collection: string, sql: string, indexes: seq<string>) returns (r: Result<(), Error>)
    modifies cli
    ensures Stopped(old(cli.requests), cli.requests, old(cli.answers), cli.answers,
                    [Exec(sql, map[]), Exec(CreateIndexSql(collection, indexes), map[]), CommitTx], r)
  {
    var created := cli.SQLExec(sql, map[]);
    if created.Failure? {
      return Err(Fatal);
    }
    var indexed := cli.SQLExec("CREATE INDEX IF NOT EXISTS ON " + collection + "(" + Join(indexes, ",") + ");", map[]);
    if indexed.Failure? {
      return Err(Fatal);
    }
    var committed := cli.Commit();
    if committed.Failure? {
      return Err(Failed(committed.message));
    }
    r := Ok(());
  }
}
