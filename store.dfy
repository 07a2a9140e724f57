/**
 * The Event Source: the homeserver's event table as a sequence of rows, and
 * the one query the logger issues against it, "messages of the configured
 * rooms received after the watermark, in ascending order of reception".
 */
module EventStore {
  import opened Events

  /** One row of the events table joined with its JSON payload. */
  datatype Row = Row(receivedTs: int, roomId: string, eventType: string, payload: Payload)

  const MessageType: string := "m.room.message"

  /** The WHERE clause of the query. */
  predicate Matches(r: Row, roomIds: set<string>, after: int) {
    r.roomId in roomIds && r.receivedTs > after && r.eventType == MessageType
  }

  predicate SortedByTs(rows: seq<Row>) {
    forall i, j :: 0 <= i < j < |rows| ==> rows[i].receivedTs <= rows[j].receivedTs
  }

  /** The rows of `db` that satisfy the WHERE clause, in store order. */
  function Filter(db: seq<Row>, roomIds: set<string>, after: int): (rows: seq<Row>)
    ensures forall r :: multiset(rows)[r] == if Matches(r, roomIds, after) then multiset(db)[r] else 0
  {
    if db == [] then []
    else
      assert db == [db[0]] + db[1..];
      (if Matches(db[0], roomIds, after) then [db[0]] else []) + Filter(db[1..], roomIds, after)
  }

  /** Places `r` before the first row received no earlier than it. */
  function Insert(r: Row, rows: seq<Row>): (result: seq<Row>)
    requires SortedByTs(rows)
    ensures SortedByTs(result)
    ensures multiset(result) == multiset(rows) + multiset{r}
    ensures result[0] == r || (rows != [] && result[0] == rows[0])
  {
    if rows == [] then [r]
    else if r.receivedTs <= rows[0].receivedTs then
      ConsSorted(r, rows);
      [r] + rows
    else
      assert rows == [rows[0]] + rows[1..];
      SortedTail(rows);
      var rest := Insert(r, rows[1..]);
      ConsSorted(rows[0], rest);
      assert multiset([rows[0]] + rest) == multiset{rows[0]} + multiset(rest);
      [rows[0]] + rest
  }

  lemma SortedTail(rows: seq<Row>)
    requires SortedByTs(rows) && rows != []
    ensures SortedByTs(rows[1..])
    ensures forall k :: 0 <= k < |rows[1..]| ==> rows[0].receivedTs <= rows[1..][k].receivedTs
  {
    forall i, j | 0 <= i < j < |rows[1..]|
      ensures rows[1..][i].receivedTs <= rows[1..][j].receivedTs
    {
      assert rows[1..][i] == rows[i + 1] && rows[1..][j] == rows[j + 1];
    }
  }

  lemma ConsSorted(r: Row, rows: seq<Row>)
    requires SortedByTs(rows)
    requires rows != [] ==> r.receivedTs <= rows[0].receivedTs
    ensures SortedByTs([r] + rows)
  {
    var s := [r] + rows;
    forall i, j | 0 <= i < j < |s|
      ensures s[i].receivedTs <= s[j].receivedTs
    {
      if i == 0 && j > 1 {
        assert s[1] == rows[0] && s[j] == rows[j - 1];
      }
    }
  }

  /**
   * ORDER BY received_ts. The database leaves the order of rows received at the
   * same instant open; this model keeps them in store order.
   */
  function SortByTs(rows: seq<Row>): (result: seq<Row>)
    ensures SortedByTs(result)
    ensures multiset(result) == multiset(rows)
  {
    if rows == [] then []
    else
      assert rows == [rows[0]] + rows[1..];
      Insert(rows[0], SortByTs(rows[1..]))
  }

  /**
   * SELECT received_ts, json FROM events JOIN event_json WHERE room_id IN roomIds
   * AND received_ts > after AND type = 'm.room.message' ORDER BY received_ts.
   */
  function Query(db: seq<Row>, roomIds: set<string>, after: int): (rows: seq<Row>)
    ensures SortedByTs(rows)
    ensures forall r :: multiset(rows)[r] == if Matches(r, roomIds, after) then multiset(db)[r] else 0
  {
    SortByTs(Filter(db, roomIds, after))
  }

  /** A row is fetched exactly when it is in the store and satisfies the WHERE clause. */
  lemma QueryMembership(db: seq<Row>, roomIds: set<string>, after: int, r: Row)
    ensures r in Query(db, roomIds, after) <==> r in db && Matches(r, roomIds, after)
  {
    var rows := Query(db, roomIds, after);
    assert r in rows <==> multiset(rows)[r] > 0;
    assert r in db <==> multiset(db)[r] > 0;
  }

  /** A later watermark fetches a subset: every row fetched after `b` is fetched after `a <= b`. */
  lemma QueryAntitone(db: seq<Row>, roomIds: set<string>, a: int, b: int, r: Row)
    requires a <= b
    requires r in Query(db, roomIds, b)
    ensures r in Query(db, roomIds, a)
  {
    QueryMembership(db, roomIds, b, r);
    QueryMembership(db, roomIds, a, r);
  }

  /** Nothing is fetched when no stored message of these rooms was received after `after`. */
  lemma QueryEmpty(db: seq<Row>, roomIds: set<string>, after: int)
    requires forall r :: r in db ==> !Matches(r, roomIds, after)
    ensures Query(db, roomIds, after) == []
  {
    var rows := Query(db, roomIds, after);
    if rows != [] {
      QueryMembership(db, roomIds, after, rows[0]);
    }
  }

  /**
   * Querying again from the reception time of the last row fetched (or from
   * the same watermark when nothing was fetched) fetches nothing.
   */
  lemma QueryPastLast(db: seq<Row>, roomIds: set<string>, after: int)
    ensures var rows := Query(db, roomIds, after);
      Query(db, roomIds, if rows == [] then after else rows[|rows| - 1].receivedTs) == []
  {
    var rows := Query(db, roomIds, after);
    forall r | r in db && Matches(r, roomIds, after)
      ensures r in rows
    {
      QueryMembership(db, roomIds, after, r);
    }
    forall r | r in rows
      ensures r.receivedTs > after
    {
      QueryMembership(db, roomIds, after, r);
    }
    var next := if rows == [] then after else rows[|rows| - 1].receivedTs;
    NothingAfterLast(db, roomIds, after, rows);
    QueryEmpty(db, roomIds, next);
  }

  lemma NothingAfterLast(db: seq<Row>, roomIds: set<string>, after: int, rows: seq<Row>)
    requires SortedByTs(rows)
    requires forall r :: r in db && Matches(r, roomIds, after) ==> r in rows
    requires forall r :: r in rows ==> r.receivedTs > after
    ensures forall r :: r in db ==> !Matches(r, roomIds, if rows == [] then after else rows[|rows| - 1].receivedTs)
  {
  }
}
