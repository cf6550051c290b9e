/** The `sentiment_analysis` table (app/models.py) and the two things the
    request handler does with it: the per-topic newest-first query and the
    all-or-nothing insert of a scored batch (app/routes.py). */
module Store {
  import opened Analysis
  import opened Seqs

  /** One row. `createdAt` is an insertion counter standing in for the
      database-assigned creation time. */
  datatype Record = Record(
    id: nat,
    topic: string,
    title: string,
    content: string,
    sentiment: Label,
    score: real,
    createdAt: nat)

  /** The rows, in insertion order. */
  type Table = seq<Record>

  /** Row `i` got primary key `i + 1` and was the `i`-th insertion: keys and
      creation times are unique and grow with insertion order. */
  predicate Valid(s: Table) {
    forall i :: 0 <= i < |s| ==> s[i].id == i + 1 && s[i].createdAt == i
  }

  /** The row written for result `r` at position `pos` of the table. */
  function Row(pos: nat, topic: string, r: Result): Record {
    Record(pos + 1, topic, r.title, r.content, r.sentiment, r.score, pos)
  }

  /** A row as the handler hands it on: title, content, sentiment, score. */
  function ToResult(r: Record): Result {
    Result(r.title, r.content, r.sentiment, r.score)
  }

  /** The rows as the handler hands them on, in the same order. */
  function ToResults(rs: seq<Record>): (out: seq<Result>)
    ensures |out| == |rs|
    ensures forall i :: 0 <= i < |rs| ==> out[i] == ToResult(rs[i])
    decreases |rs|
  {
    if |rs| == 0 then [] else [ToResult(rs[0])] + ToResults(rs[1..])
  }

  /** The stored rows of a topic, newest first, cut to a limit:
      only rows of `topic`, at most `limit` of them (no bound when `limit` is
      negative, as in SQLite). Which rows and in what order is stated by
      `QueryComplete`, `QueryNewestFirst` and `QueryIsNewestTopicRows`. */
  function QueryByTopic(s: Table, topic: string, limit: int): (r: seq<Record>)
    ensures forall i :: 0 <= i < |r| ==> r[i] in s && r[i].topic == topic
    ensures 0 <= limit ==> |r| <= limit
    decreases |s|
  {
    if |s| == 0 || limit == 0 then []
    else
      var front := s[..|s| - 1];
      var last := s[|s| - 1];
      assert s == front + [last];
      if last.topic == topic then [last] + QueryByTopic(front, topic, limit - 1)
      else QueryByTopic(front, topic, limit)
  }

  /** All of the topic's rows come back when the limit does not cut, and
      nothing comes back exactly when the limit is zero or the topic has no row. */
  lemma {:induction false} QueryComplete(s: Table, topic: string, limit: int)
    ensures var r := QueryByTopic(s, topic, limit);
      limit < 0 || |r| < limit ==> forall x :: x in s && x.topic == topic ==> x in r
    ensures |QueryByTopic(s, topic, limit)| == 0 <==> limit == 0 || forall x :: x in s ==> x.topic != topic
    decreases |s|
  {
    if |s| > 0 && limit != 0 {
      var front := s[..|s| - 1];
      var last := s[|s| - 1];
      assert s == front + [last];
      if last.topic == topic {
        QueryComplete(front, topic, limit - 1);
        assert QueryByTopic(s, topic, limit) == [last] + QueryByTopic(front, topic, limit - 1);
      } else {
        QueryComplete(front, topic, limit);
        assert QueryByTopic(s, topic, limit) == QueryByTopic(front, topic, limit);
      }
    }
  }

  /** The query is newest first. */
  lemma {:induction false} QueryNewestFirst(s: Table, topic: string, limit: int)
    requires Valid(s)
    ensures forall i, j :: 0 <= i < j < |QueryByTopic(s, topic, limit)| ==>
      QueryByTopic(s, topic, limit)[i].createdAt > QueryByTopic(s, topic, limit)[j].createdAt
    decreases |s|
  {
    if |s| > 0 && limit != 0 {
      var front := s[..|s| - 1];
      var last := s[|s| - 1];
      assert s == front + [last];
      assert Valid(front);
      if last.topic == topic {
        QueryNewestFirst(front, topic, limit - 1);
        var r0 := QueryByTopic(front, topic, limit - 1);
        assert forall x :: x in front ==> x.createdAt < last.createdAt;
        assert forall i :: 0 <= i < |r0| ==> r0[i].createdAt < last.createdAt;
        assert QueryByTopic(s, topic, limit) == [last] + r0;
      } else {
        QueryNewestFirst(front, topic, limit);
        assert QueryByTopic(s, topic, limit) == QueryByTopic(front, topic, limit);
      }
    }
  }

  /** All rows of `topic`, in insertion order: an independent reading of `filter_by(topic=topic)`. */
  function TopicRows(s: Table, topic: string): (r: seq<Record>)
    decreases |s|
  {
    if |s| == 0 then []
    else TopicRows(s[..|s| - 1], topic) + (if s[|s| - 1].topic == topic then [s[|s| - 1]] else [])
  }

  /** The query returns the `limit` newest rows of the topic: the topic's rows
      reversed, cut to the limit. Every row of the topic it leaves out is thus
      older than all it returns. */
  lemma {:induction false} QueryIsNewestTopicRows(s: Table, topic: string, limit: int)
    ensures QueryByTopic(s, topic, limit) == Limit(Reverse(TopicRows(s, topic)), limit)
    decreases |s|
  {
    if |s| > 0 && limit != 0 {
      var front := s[..|s| - 1];
      var last := s[|s| - 1];
      var rows := TopicRows(front, topic);
      if last.topic == topic {
        QueryIsNewestTopicRows(front, topic, limit - 1);
        assert TopicRows(s, topic) == rows + [last];
        assert Reverse(rows + [last]) == [last] + Reverse(rows);
        assert Limit([last] + Reverse(rows), limit) == [last] + Limit(Reverse(rows), limit - 1);
      } else {
        QueryIsNewestTopicRows(front, topic, limit);
        assert TopicRows(s, topic) == rows;
      }
    } else if |s| > 0 {
      assert Limit(Reverse(TopicRows(s, topic)), limit) == [];
    }
  }

  /** The session's pending rows: `db.session.add` of one new row per result,
      in order, numbered after the existing rows. */
  function AddAll(s: Table, topic: string, rs: seq<Result>): (s': Table)
    ensures |s'| == |s| + |rs|
    ensures s'[..|s|] == s
    ensures forall j :: |s| <= j < |s'| ==> s'[j] == Row(j, topic, rs[j - |s|])
    decreases |rs|
  {
    if |rs| == 0 then s
    else AddAll(s, topic, rs[..|rs| - 1]) + [Row(|s| + |rs| - 1, topic, rs[|rs| - 1])]
  }

  lemma AddAllRows(s: Table, topic: string, rs: seq<Result>)
    ensures forall j :: |s| <= j < |AddAll(s, topic, rs)| ==>
      AddAll(s, topic, rs)[j].topic == topic && ToResult(AddAll(s, topic, rs)[j]) == rs[j - |s|]
    ensures Valid(s) ==> Valid(AddAll(s, topic, rs))
  {
    var s' := AddAll(s, topic, rs);
    forall j | |s| <= j < |s'|
      ensures s'[j].topic == topic && ToResult(s'[j]) == rs[j - |s|]
    {
      var r := rs[j - |s|];
      assert s'[|s| + (j - |s|)] == Row(j, topic, r);
      assert ToResult(Row(j, topic, r)) == Result(r.title, r.content, r.sentiment, r.score) == r;
    }
    if Valid(s) {
      forall i | 0 <= i < |s'|
        ensures s'[i].id == i + 1 && s'[i].createdAt == i
      {
        if i < |s| {
          assert s'[i] == s'[..|s|][i];
        } else {
          assert s'[|s| + (i - |s|)] == Row(i, topic, rs[i - |s|]);
        }
      }
    }
  }

  /** `db.session.commit()`, or `db.session.rollback()` when the commit fails:
      either every row of the batch is stored, tagged with the topic and
      carrying its result's fields, after the untouched old rows, or the
      table is exactly as before. */
  function Commit(s: Table, topic: string, rs: seq<Result>, succeeds: bool): (s': Table)
    ensures succeeds ==> |s'| == |s| + |rs| && s'[..|s|] == s
    ensures succeeds ==> forall j :: |s| <= j < |s'| ==>
              s'[j].topic == topic && ToResult(s'[j]) == rs[j - |s|]
    ensures !succeeds ==> s' == s
    ensures Valid(s) ==> Valid(s')
  {
    if succeeds then
      AddAllRows(s, topic, rs);
      AddAll(s, topic, rs)
    else s
  }

  /** One more row of the topic at the end: it comes first, and the rest of
      the limit goes to the older rows. */
  lemma QueryStep(t: Table, row: Record, topic: string, limit: int)
    requires row.topic == topic && limit != 0
    ensures QueryByTopic(t + [row], topic, limit) == [row] + QueryByTopic(t, topic, limit - 1)
  {
    assert (t + [row])[..|t|] == t;
  }

  /** A stored row reads back as the result it was written from. */
  lemma ToResultsRowCons(pos: nat, topic: string, r: Result, q: seq<Record>)
    ensures ToResults([Row(pos, topic, r)] + q) == [r] + ToResults(q)
  {
    assert ([Row(pos, topic, r)] + q)[1..] == q;
    assert ToResult(Row(pos, topic, r)) == r;
  }

  lemma AddAllLast(s: Table, topic: string, rs: seq<Result>)
    requires |rs| > 0
    ensures AddAll(s, topic, rs) ==
            AddAll(s, topic, rs[..|rs| - 1]) + [Row(|s| + |rs| - 1, topic, rs[|rs| - 1])]
  {
  }

  /** One batch row more: the newest row goes in front of what the query
      returned for the rest of the batch. */
  lemma BatchStep(s: Table, topic: string, rs: seq<Result>, limit: int, older: seq<Result>)
    requires |rs| > 0 && limit != 0
    requires ToResults(QueryByTopic(AddAll(s, topic, rs[..|rs| - 1]), topic, limit - 1)) ==
             Reverse(rs[..|rs| - 1]) + older
    ensures ToResults(QueryByTopic(AddAll(s, topic, rs), topic, limit)) == Reverse(rs) + older
  {
    var front := rs[..|rs| - 1];
    var last := rs[|rs| - 1];
    var row := Row(|s| + |rs| - 1, topic, last);
    var t0 := AddAll(s, topic, front);
    var q0 := QueryByTopic(t0, topic, limit - 1);
    AddAllLast(s, topic, rs);
    QueryStep(t0, row, topic, limit);
    ToResultsRowCons(|s| + |rs| - 1, topic, last, q0);
    ConsAppend(last, Reverse(front), older);
    ReverseLast(rs);
  }

  /** `QueryAfterInsert` with the limit left for the older rows passed in as
      `rest`, so that the induction hypothesis names it directly. */
  lemma {:induction false} BatchThenOlder(s: Table, topic: string, rs: seq<Result>, limit: int, rest: int)
    requires limit < 0 || |rs| <= limit
    requires rest == limit - |rs|
    ensures ToResults(QueryByTopic(AddAll(s, topic, rs), topic, limit)) ==
            Reverse(rs) + ToResults(QueryByTopic(s, topic, rest))
    decreases |rs|
  {
    if |rs| > 0 {
      BatchThenOlder(s, topic, rs[..|rs| - 1], limit - 1, rest);
      BatchStep(s, topic, rs, limit, ToResults(QueryByTopic(s, topic, rest)));
    } else {
      assert AddAll(s, topic, rs) == s;
    }
  }

  /** Round trip: right after a committed batch, a query for its topic with a
      limit that admits the whole batch returns the batch first, newest
      (last added) first, with the same title, content, sentiment and score,
      followed by what the same query returned before, under the limit left. */
  lemma {:induction false} QueryAfterInsert(s: Table, topic: string, rs: seq<Result>, limit: int)
    requires limit < 0 || |rs| <= limit
    ensures ToResults(QueryByTopic(AddAll(s, topic, rs), topic, limit)) ==
            Reverse(rs) + ToResults(QueryByTopic(s, topic, limit - |rs|))
  {
    var rest := limit - |rs|;
    assert QueryByTopic(s, topic, rest) == QueryByTopic(s, topic, limit - |rs|);
    BatchThenOlder(s, topic, rs, limit, rest);
  }

  /** One batch row more for a topic that had no rows: the newest row goes in
      front, and the rest of the limit goes to the rest of the batch. */
  lemma FirstInsertStep(s: Table, topic: string, rs: seq<Result>, limit: int)
    requires |rs| > 0 && limit != 0
    requires ToResults(QueryByTopic(AddAll(s, topic, rs[..|rs| - 1]), topic, limit - 1)) ==
             Limit(Reverse(rs[..|rs| - 1]), limit - 1)
    ensures ToResults(QueryByTopic(AddAll(s, topic, rs), topic, limit)) == Limit(Reverse(rs), limit)
  {
    var front := rs[..|rs| - 1];
    var last := rs[|rs| - 1];
    var row := Row(|s| + |rs| - 1, topic, last);
    var t0 := AddAll(s, topic, front);
    var q0 := QueryByTopic(t0, topic, limit - 1);
    AddAllLast(s, topic, rs);
    QueryStep(t0, row, topic, limit);
    ToResultsRowCons(|s| + |rs| - 1, topic, last, q0);
    ReverseLast(rs);
    LimitCons(last, Reverse(front), limit);
  }

  /** A batch for a topic with no rows yet: the query afterwards returns
      exactly the batch, newest first, cut to the limit. */
  lemma {:induction false} QueryAfterFirstInsert(s: Table, topic: string, rs: seq<Result>, limit: int)
    requires forall x :: x in s ==> x.topic != topic
    ensures ToResults(QueryByTopic(AddAll(s, topic, rs), topic, limit)) == Limit(Reverse(rs), limit)
    decreases |rs|
  {
    if |rs| > 0 && limit != 0 {
      QueryAfterFirstInsert(s, topic, rs[..|rs| - 1], limit - 1);
      FirstInsertStep(s, topic, rs, limit);
    } else if |rs| == 0 {
      assert AddAll(s, topic, rs) == s;
      QueryComplete(s, topic, limit);
    }
  }

  /** A batch for one topic does not change what a query for another topic returns. */
  lemma {:induction false} QueryOtherTopic(s: Table, topic: string, rs: seq<Result>, other: string, limit: int)
    requires other != topic
    ensures QueryByTopic(AddAll(s, topic, rs), other, limit) == QueryByTopic(s, other, limit)
    decreases |rs|
  {
    if |rs| > 0 && limit != 0 {
      var front := rs[..|rs| - 1];
      var t := AddAll(s, topic, rs);
      assert t[..|t| - 1] == AddAll(s, topic, front);
      QueryOtherTopic(s, topic, front, other, limit);
    }
  }
}
