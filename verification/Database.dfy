/** The cursor of `DataBase::fetch_row`.  MySQL is an oracle that says what the n-th query gives. */
module Database {
  import opened Basics

  type Row = seq<Option<string>>

  /** The query is refused, or it has no result set, or it has one: the rows that `mysql_fetch_row`
      hands out before it returns null - at the end of the result or because the connection was
      lost, which the source does not distinguish. */
  datatype Response = Refused(error: string) | NoResult(error: string) | Rows(rows: seq<Row>)

  type Oracle = (nat, string) -> Response

  /** What one call of `fetch_row` gives: a row, null, or an exception. */
  datatype Reply = Got(row: Row) | Null | Thrown(error: string)

  /** `res` is the open result with the rows still to come; `issued` the queries sent so far. */
  datatype Cursor = Cursor(res: Option<seq<Row>>, issued: seq<string>)

  /** The step of the open cursor. */
  function FetchOpen(rows: seq<Row>, issued: seq<string>): (Cursor, Reply) {
    if rows == [] then (Cursor(None, issued), Null)
    else (Cursor(Some(rows[1..]), issued), Got(rows[0]))
  }

  /** One call of `fetch_row(que)`. */
  function Fetch(oracle: Oracle, c: Cursor, que: string): (Cursor, Reply) {
    match c.res
    case Some(rows) => FetchOpen(rows, c.issued)
    case None =>
      var issued := c.issued + [que];
      match oracle(|c.issued|, que)
      case Refused(e) => (Cursor(None, issued), Thrown(e))
      case NoResult(e) => (Cursor(None, issued), Thrown(e))
      case Rows(rows) => FetchOpen(rows, issued)
  }

  class DataBase {
    const oracle: Oracle
    /** `res_` */
    var res: Option<seq<Row>>
    /** `row_` */
    var row: Option<Row>
    var issued: seq<string>
    /** Calls of `mysql_use_result` that gave a result, and of `mysql_free_result`. */
    var opens: nat
    var freed: nat

    /** At most one result is open, and every earlier one has been freed. */
    ghost predicate Valid()
      reads this
    {
      opens == freed + (if res.Some? then 1 else 0)
    }

    ghost function View(): Cursor
      reads this
    {
      Cursor(res, issued)
    }

    constructor (oracle: Oracle)
      ensures Valid() && View() == Cursor(None, []) && this.oracle == oracle
    {
      this.oracle := oracle;
      res, row, issued, opens, freed := None, None, [], 0, 0;
    }

    /** `query` and `mysql_use_result`: a result, or the error that is thrown. */
    method Open(que: string) returns (error: Option<string>)
      requires Valid() && res.None?
      modifies this
      ensures Valid() && issued == old(issued) + [que] && freed == old(freed)
      ensures match oracle(|old(issued)|, que)
        case Refused(e) => error == Some(e) && res == None
        case NoResult(e) => error == Some(e) && res == None
        case Rows(rows) => error == None && res == Some(rows)
    {
      var response := oracle(|issued|, que);
      issued := issued + [que];
      match response
      case Refused(e) => error := Some(e);
      case NoResult(e) => error := Some(e);
      case Rows(rows) =>
        res := Some(rows);
        opens := opens + 1;
        error := None;
    }

    /** `fetch_row`; the call on the fresh result passes a null query, which is never used. */
    method FetchRow(que: Option<string>) returns (reply: Reply)
      requires Valid() && (res.None? ==> que.Some?)
      modifies this
      ensures Valid()
      ensures (View(), reply) ==
        Fetch(oracle, old(View()), if que.Some? then que.value else "")
      ensures reply.Got? ==> res.Some?
      decreases if res.None? then 1 else 0
    {
      if res.None? {
        var error := Open(que.value);
        if error.Some? {
          return Thrown(error.value);
        }
        reply := FetchRow(None);
      } else {
        row := if res.value == [] then None else Some(res.value[0]);
        if row.Some? {
          res := Some(res.value[1..]);
          return Got(row.value);
        } else {
          freed := freed + 1;
          res := None;
          return Null;
        }
      }
    }
  }

  // ----- runs of calls -----

  /** The replies to successive calls with these queries. */
  ghost function Replies(oracle: Oracle, c: Cursor, queries: seq<string>): seq<Reply>
    decreases |queries|
  {
    if queries == [] then []
    else
      var (c', reply) := Fetch(oracle, c, queries[0]);
      [reply] + Replies(oracle, c', queries[1..])
  }

  ghost function After(oracle: Oracle, c: Cursor, queries: seq<string>): Cursor
    decreases |queries|
  {
    if queries == [] then c else After(oracle, Fetch(oracle, c, queries[0]).0, queries[1..])
  }

  /** The replies of one result: its rows, once and in order, and then null. */
  function Block(rows: seq<Row>): (b: seq<Reply>)
    ensures |b| == |rows| + 1 && b[|rows|] == Null
    ensures forall i :: 0 <= i < |rows| ==> b[i] == Got(rows[i])
  {
    seq(|rows|, i requires 0 <= i < |rows| => Got(rows[i])) + [Null]
  }

  /** The reference: no cursor, only whole results.  The n-th query is the text of the call that
      comes when the result before has been read to its null; that result takes as many calls as it
      has rows, and one more, whatever their texts are. */
  ghost function Expected(oracle: Oracle, n: nat, queries: seq<string>): seq<Reply>
    decreases |queries|
  {
    if queries == [] then []
    else match oracle(n, queries[0])
      case Refused(e) => [Thrown(e)] + Expected(oracle, n + 1, queries[1..])
      case NoResult(e) => [Thrown(e)] + Expected(oracle, n + 1, queries[1..])
      case Rows(rows) =>
        if |queries| <= |rows| then Block(rows)[..|queries|]
        else Block(rows) + Expected(oracle, n + 1, queries[|rows| + 1..])
  }

  /** The texts that reach the server. */
  ghost function ExpectedIssued(oracle: Oracle, n: nat, queries: seq<string>): seq<string>
    decreases |queries|
  {
    if queries == [] then []
    else match oracle(n, queries[0])
      case Refused(_) => [queries[0]] + ExpectedIssued(oracle, n + 1, queries[1..])
      case NoResult(_) => [queries[0]] + ExpectedIssued(oracle, n + 1, queries[1..])
      case Rows(rows) =>
        if |queries| <= |rows| then [queries[0]]
        else [queries[0]] + ExpectedIssued(oracle, n + 1, queries[|rows| + 1..])
  }

  lemma BlockHead(row: Row, rows: seq<Row>)
    ensures Block([row] + rows) == [Got(row)] + Block(rows)
  {
  }

  /** The block of a result with one row more in front, cut off or followed by something. */
  lemma BlockGrows(row: Row, rest: seq<Row>, later: seq<Reply>, n: nat)
    ensures 0 < n <= |rest| + 1 ==> Block([row] + rest)[..n] == [Got(row)] + Block(rest)[..n - 1]
    ensures Block([row] + rest) + later == [Got(row)] + (Block(rest) + later)
  {
    BlockHead(row, rest);
    Regroup([Got(row)], Block(rest), later);
  }

  /** One call on an open cursor with a row left. */
  lemma OneRow(oracle: Oracle, row: Row, rows: seq<Row>, issued: seq<string>, queries: seq<string>)
    requires queries != []
    ensures var c, c' := Cursor(Some([row] + rows), issued), Cursor(Some(rows), issued);
      && Replies(oracle, c, queries) == [Got(row)] + Replies(oracle, c', queries[1..])
      && After(oracle, c, queries) == After(oracle, c', queries[1..])
  {
  }

  /** The call that finds no row left. */
  lemma LastCall(oracle: Oracle, issued: seq<string>, queries: seq<string>)
    requires queries != []
    ensures var c, c' := Cursor(Some([]), issued), Cursor(None, issued);
      && Replies(oracle, c, queries) == Block([]) + Replies(oracle, c', queries[1..])
      && After(oracle, c, queries) == After(oracle, c', queries[1..])
  {
    assert Block([]) == [Null];
  }

  /** An open cursor hands out its block, ignores all query texts, and then starts afresh. */
  lemma {:induction false} OpenCursorReads(oracle: Oracle, rows: seq<Row>, issued: seq<string>, queries: seq<string>)
    ensures Replies(oracle, Cursor(Some(rows), issued), queries) ==
      if |queries| <= |rows| then Block(rows)[..|queries|]
      else Block(rows) + Replies(oracle, Cursor(None, issued), queries[|rows| + 1..])
    ensures |queries| <= |rows| ==> After(oracle, Cursor(Some(rows), issued), queries).issued == issued
    ensures |queries| > |rows| ==>
      After(oracle, Cursor(Some(rows), issued), queries) == After(oracle, Cursor(None, issued), queries[|rows| + 1..])
    decreases |queries|
  {
    if queries == [] {
      assert Block(rows)[..0] == [];
    } else if rows == [] {
      LastCall(oracle, issued, queries);
    } else {
      var row, rest := rows[0], rows[1..];
      assert rows == [row] + rest;
      OneRow(oracle, row, rest, issued, queries);
      OpenCursorReads(oracle, rest, issued, queries[1..]);
      if |queries| > |rows| {
        var later := queries[|rows| + 1..];
        assert queries[1..][|rest| + 1..] == later;
        BlockGrows(row, rest, Replies(oracle, Cursor(None, issued), later), |queries|);
      } else {
        BlockGrows(row, rest, [], |queries|);
      }
    }
  }

  /** A closed cursor behaves on its next call as the cursor it opens. */
  lemma FirstCallOpens(oracle: Oracle, rows: seq<Row>, issued: seq<string>, queries: seq<string>)
    requires queries != [] && oracle(|issued|, queries[0]) == Rows(rows)
    ensures Replies(oracle, Cursor(None, issued), queries)
         == Replies(oracle, Cursor(Some(rows), issued + [queries[0]]), queries)
    ensures After(oracle, Cursor(None, issued), queries)
         == After(oracle, Cursor(Some(rows), issued + [queries[0]]), queries)
  {
  }

  /** A call that throws. */
  lemma ThrowingCall(oracle: Oracle, issued: seq<string>, queries: seq<string>)
    requires queries != [] && !oracle(|issued|, queries[0]).Rows?
    ensures var closed := Cursor(None, issued + [queries[0]]);
      && Replies(oracle, Cursor(None, issued), queries)
         == [Thrown(oracle(|issued|, queries[0]).error)] + Replies(oracle, closed, queries[1..])
      && After(oracle, Cursor(None, issued), queries) == After(oracle, closed, queries[1..])
  {
  }

  /** A call that opens a result, up to the null of that result or the end of the calls. */
  lemma ResultIsRead(oracle: Oracle, rows: seq<Row>, issued: seq<string>, queries: seq<string>)
    requires queries != [] && oracle(|issued|, queries[0]) == Rows(rows)
    ensures |queries| <= |rows| ==>
      && Replies(oracle, Cursor(None, issued), queries) == Block(rows)[..|queries|]
      && After(oracle, Cursor(None, issued), queries).issued == issued + [queries[0]]
    ensures |queries| > |rows| ==> var later := queries[|rows| + 1..]; var closed := Cursor(None, issued + [queries[0]]);
      && Replies(oracle, Cursor(None, issued), queries) == Block(rows) + Replies(oracle, closed, later)
      && After(oracle, Cursor(None, issued), queries) == After(oracle, closed, later)
  {
    FirstCallOpens(oracle, rows, issued, queries);
    OpenCursorReads(oracle, rows, issued + [queries[0]], queries);
  }

  /** Cursor correctness, for every oracle and every sequence of calls: the replies are those of the
      reference - every row of each opened result once and in order, then null, then the next query -
      and the texts sent are exactly those of the calls that opened. */
  lemma {:induction false} CursorIsCorrect(oracle: Oracle, issued: seq<string>, queries: seq<string>)
    ensures Replies(oracle, Cursor(None, issued), queries) == Expected(oracle, |issued|, queries)
    ensures After(oracle, Cursor(None, issued), queries).issued == issued + ExpectedIssued(oracle, |issued|, queries)
    decreases |queries|
  {
    if queries != [] {
      var n := |issued|;
      var sent := issued + [queries[0]];
      var response := oracle(n, queries[0]);
      if !response.Rows? {
        ThrowingCall(oracle, issued, queries);
        CursorIsCorrect(oracle, sent, queries[1..]);
        Regroup(issued, [queries[0]], ExpectedIssued(oracle, n + 1, queries[1..]));
      } else {
        ResultIsRead(oracle, response.rows, issued, queries);
        if |queries| > |response.rows| {
          var later := queries[|response.rows| + 1..];
          CursorIsCorrect(oracle, sent, later);
          Regroup(issued, [queries[0]], ExpectedIssued(oracle, n + 1, later));
        }
      }
    }
  }
}
