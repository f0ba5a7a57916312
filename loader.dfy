/**
 * The loader: the flat rows read from the sheet become the segment
 * collection, one member per row, under the key of the row's segment column.
 */
module Loader {
  import opened Records

  /** `result.values || []`: a response without rows is read as no rows. */
  function RowsOf(values: Option<seq<Row>>): seq<Row> {
    match values
    case None => []
    case Some(rows) => rows
  }

  /**
   * The collection the loader's loop builds from `rows`: each row, in turn,
   * pushed onto the list of its segment.
   */
  function Group(rows: seq<Row>): (c: Collection)
    decreases |rows|
  {
    if rows == [] then Empty
    else
      var last := rows[|rows| - 1];
      Push(Group(rows[..|rows| - 1]), last.segment, MemberOf(last))
  }

  /**
   * The loader's loop, which creates a segment's list the first time the
   * segment is seen and pushes each row's member onto it.
   */
  method GroupRows(rows: seq<Row>) returns (c: Collection)
    ensures c == Group(rows)
  {
    var order: seq<string> := [];
    var buckets: map<string, seq<Member>> := map[];
    var i := 0;
    while i < |rows|
      invariant 0 <= i <= |rows|
      invariant Collection(order, buckets) == Group(rows[..i])
    {
      var r := rows[i];
      if r.segment !in buckets {
        buckets := buckets[r.segment := []];
        order := order + [r.segment];
      }
      buckets := buckets[r.segment := buckets[r.segment] + [Member(r.name, r.badge, r.date)]];
      assert rows[..i + 1][..i] == rows[..i];
      i := i + 1;
    }
    assert rows[..i] == rows;
    c := Collection(order, buckets);
  }

  /** Every collection the loader builds has its keys listed once each in the key order, and no empty list. */
  lemma {:induction false} GroupValid(rows: seq<Row>)
    ensures Valid(Group(rows))
    decreases |rows|
  {
    if rows != [] {
      GroupValid(rows[..|rows| - 1]);
    }
  }

  /** The distinct values of the segment column. */
  function SegmentsOf(rows: seq<Row>): set<string> {
    set r | r in rows :: r.segment
  }

  lemma SegmentsSnoc(rows: seq<Row>, r: Row)
    ensures SegmentsOf(rows + [r]) == SegmentsOf(rows) + {r.segment}
  {
    assert forall x :: x in rows + [r] <==> x in rows || x == r;
  }

  /** Reference definition of a segment's list: the members of the rows carrying that segment, in row order. */
  function Select(rows: seq<Row>, s: string): seq<Member>
    decreases |rows|
  {
    if rows == [] then []
    else (if rows[0].segment == s then [MemberOf(rows[0])] else []) + Select(rows[1..], s)
  }

  /** The members of all rows, in row order. */
  function Members(rows: seq<Row>): seq<Member>
    decreases |rows|
  {
    if rows == [] then [] else [MemberOf(rows[0])] + Members(rows[1..])
  }

  lemma {:induction false} SelectSnoc(rows: seq<Row>, r: Row, s: string)
    ensures Select(rows + [r], s) == Select(rows, s) + (if r.segment == s then [MemberOf(r)] else [])
    decreases |rows|
  {
    if rows != [] {
      assert (rows + [r])[1..] == rows[1..] + [r];
      SelectSnoc(rows[1..], r, s);
    }
  }

  lemma {:induction false} MembersSnoc(rows: seq<Row>, r: Row)
    ensures Members(rows + [r]) == Members(rows) + [MemberOf(r)]
    decreases |rows|
  {
    if rows != [] {
      assert (rows + [r])[1..] == rows[1..] + [r];
      MembersSnoc(rows[1..], r);
    }
  }

  /**
   * The collection has a key exactly for each segment value that occurs in
   * the rows; in particular no rows give the empty object.
   */
  lemma {:induction false} GroupKeys(rows: seq<Row>)
    ensures Group(rows).buckets.Keys == SegmentsOf(rows)
    ensures rows == [] ==> Group(rows) == Empty
    decreases |rows|
  {
    if rows != [] {
      var front, last := rows[..|rows| - 1], rows[|rows| - 1];
      assert rows == front + [last];
      GroupKeys(front);
      GroupSnoc(front, last);
      SegmentsSnoc(front, last);
    }
  }

  /**
   * Each segment's list holds the members of exactly the rows carrying that
   * segment, in the order the rows come: grouping keeps row order within a
   * segment and puts every row under its own segment only.
   */
  lemma {:induction false} GroupBuckets(rows: seq<Row>, s: string)
    ensures Get(Group(rows), s) == Select(rows, s)
    decreases |rows|
  {
    if rows != [] {
      var front, last := rows[..|rows| - 1], rows[|rows| - 1];
      assert rows == front + [last];
      GroupBuckets(front, s);
      GroupSnoc(front, last);
      SelectSnoc(front, last, s);
    }
  }

  /** One more row: the loader pushes that row's member onto the collection built so far. */
  lemma GroupSnoc(front: seq<Row>, last: Row)
    ensures Group(front + [last]) == Push(Group(front), last.segment, MemberOf(last))
  {
    assert (front + [last])[..|front|] == front;
  }

  /** Each row the loop handles adds exactly its own member to the collection and removes nothing. */
  lemma GroupAddsOne(front: seq<Row>, last: Row)
    ensures multiset(Flatten(Group(front + [last]))) == multiset(Flatten(Group(front))) + multiset{MemberOf(last)}
    ensures |Flatten(Group(front + [last]))| == |Flatten(Group(front))| + 1
  {
    GroupSnoc(front, last);
    GroupValid(front);
    PushAddsOne(Group(front), last.segment, MemberOf(last));
  }

  /**
   * Grouping neither drops nor duplicates a row: the collection, read
   * segment by segment, holds exactly the rows' members.
   */
  lemma {:induction false} GroupConserves(rows: seq<Row>)
    ensures multiset(Flatten(Group(rows))) == multiset(Members(rows))
    decreases |rows|
  {
    if rows != [] {
      var front, last := rows[..|rows| - 1], rows[|rows| - 1];
      assert rows == front + [last];
      GroupConserves(front);
      GroupAddsOne(front, last);
      MembersSnoc(front, last);
    }
  }

  /** The lengths of all lists add up to the number of rows. */
  lemma {:induction false} GroupSize(rows: seq<Row>)
    ensures |Flatten(Group(rows))| == |rows|
    decreases |rows|
  {
    if rows != [] {
      var front, last := rows[..|rows| - 1], rows[|rows| - 1];
      assert rows == front + [last];
      GroupSize(front);
      GroupAddsOne(front, last);
    }
  }

  /** The segment of every row is a key. */
  lemma GroupHasKey(rows: seq<Row>, p: nat)
    requires p < |rows|
    ensures rows[p].segment in Group(rows).buckets
  {
    GroupKeys(rows);
    assert rows[p] in rows;
  }

  /** Every key in the key order is the segment of some row. */
  lemma GroupOrderOccurs(rows: seq<Row>, i: nat)
    requires i < |Group(rows).order|
    ensures exists q :: 0 <= q < |rows| && rows[q].segment == Group(rows).order[i]
  {
    var k := Group(rows).order[i];
    GroupValid(rows);
    GroupKeys(rows);
    assert k in Group(rows).buckets;
    var r :| r in rows && r.segment == k;
    var q :| 0 <= q < |rows| && rows[q] == r;
  }

  /**
   * `order` lists the segments of `rows` in first-appearance order: a
   * segment listed before another one occurs in the rows before every row
   * of that other one.
   */
  ghost predicate FirstAppearanceOrder(rows: seq<Row>, order: seq<string>) {
    forall i, j, p ::
      0 <= i < j < |order| && 0 <= p < |rows| && rows[p].segment == order[j]
      ==> exists q :: 0 <= q < p && rows[q].segment == order[i]
  }

  /** A row already loaded: its segment was listed before, so the earlier keys kept their earlier rows. */
  lemma FirstAppearanceOld(front: seq<Row>, last: Row, i: nat, j: nat, p: nat)
    requires FirstAppearanceOrder(front, Group(front).order)
    requires i < j < |Group(front + [last]).order| && p < |front|
    requires front[p].segment == Group(front + [last]).order[j]
    ensures exists q :: 0 <= q < p && front[q].segment == Group(front + [last]).order[i]
  {
    var c, d := Group(front), Group(front + [last]);
    GroupSnoc(front, last);
    GroupHasKey(front, p);
    assert j < |c.order|;
    assert c.order[i] == d.order[i] && c.order[j] == d.order[j];
  }

  /** The new row: every key listed before its segment was already a key, so it has an earlier row. */
  lemma FirstAppearanceNew(front: seq<Row>, last: Row, i: nat, j: nat)
    requires i < j < |Group(front + [last]).order|
    requires last.segment == Group(front + [last]).order[j]
    ensures exists q :: 0 <= q < |front| && front[q].segment == Group(front + [last]).order[i]
  {
    var c, d := Group(front), Group(front + [last]);
    GroupSnoc(front, last);
    assert i < |c.order|;
    assert c.order[i] == d.order[i];
    GroupOrderOccurs(front, i);
  }

  /** The key order (the tab order) is first-appearance order. */
  lemma {:induction false} GroupFirstAppearance(rows: seq<Row>)
    ensures FirstAppearanceOrder(rows, Group(rows).order)
    decreases |rows|
  {
    if rows != [] {
      var front, last := rows[..|rows| - 1], rows[|rows| - 1];
      assert rows == front + [last];
      GroupFirstAppearance(front);
      var d := Group(front + [last]);
      forall i, j, p | 0 <= i < j < |d.order| && 0 <= p < |rows| && rows[p].segment == d.order[j]
        ensures exists q :: 0 <= q < p && rows[q].segment == d.order[i]
      {
        if p < |front| {
          assert rows[p] == front[p];
          FirstAppearanceOld(front, last, i, j, p);
          var q :| 0 <= q < p && front[q].segment == d.order[i];
          assert rows[q] == front[q];
        } else {
          FirstAppearanceNew(front, last, i, j);
          var q :| 0 <= q < |front| && front[q].segment == d.order[i];
          assert rows[q] == front[q];
        }
      }
    }
  }
}
