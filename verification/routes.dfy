/** `analyze_sentiment_route` (app/routes.py): validate the topic, serve the
    stored rows of the topic when there are any, otherwise fetch, score,
    store the batch in one transaction and serve the fresh results. The
    fetcher, the scorer, the stop-word list and the outcome of the commit are
    parameters. */
module Routes {
  import opened Maybe
  import opened Seqs
  import opened Analysis
  import opened Store
  import opened Graphs

  /** Number of records used when the request names none. */
  const DefaultLimit: int := 10

  /** The request parameters the handler reads, from the form (POST) and from
      the query string (GET). `num_records` is already parsed as an integer. */
  datatype Request = Request(
    formTopic: Option<string>,
    argsTopic: Option<string>,
    formLimit: Option<int>,
    argsLimit: Option<int>)

  /** The collaborators the handler calls: the Reddit search (topic, limit),
      the VADER compound score of a text, and the English stop words. */
  datatype Services = Services(
    fetch: (string, int) -> seq<Post>,
    compound: string -> real,
    stopWords: set<string>)

  /** What the handler answers. */
  datatype Outcome =
    | TopicRequired
    | NoPostsFound(topic: string)
    | SaveFailed
    | Page(topic: string, results: seq<Result>, report: Report)

  /** The HTTP status of each outcome. */
  function Status(o: Outcome): int {
    match o
    case TopicRequired => 400
    case NoPostsFound(_) => 200
    case SaveFailed => 500
    case Page(_, _, _) => 200
  }

  /** The JSON body of the outcomes that are not a rendered page. */
  function Message(o: Outcome): string {
    match o
    case TopicRequired => "Topic is required"
    case NoPostsFound(t) => "No posts found for topic '" + t + "' to analyze."
    case SaveFailed => "Failed to save results to database."
    case Page(_, _, _) => ""
  }

  /** The outcome together with the table as the request leaves it. */
  datatype Response = Response(outcome: Outcome, table: Table)

  /** The topic: the form's value, unless it is missing or empty, in which
      case the query string's value. */
  function RequestedTopic(req: Request): (t: Option<string>)
    ensures req.formTopic.Some? && req.formTopic.value != "" ==> t == req.formTopic
    ensures req.formTopic.None? || req.formTopic.value == "" ==> t == req.argsTopic
  {
    if req.formTopic.Some? && req.formTopic.value != "" then req.formTopic else req.argsTopic
  }

  /** The number of records: the form value wins over the query-string
      value, and 10 is used when neither is given. */
  function RequestedLimit(req: Request): (n: int)
    ensures req.formLimit.Some? ==> n == req.formLimit.value
    ensures req.formLimit.None? && req.argsLimit.Some? ==> n == req.argsLimit.value
    ensures req.formLimit.None? && req.argsLimit.None? ==> n == DefaultLimit
  {
    req.formLimit.GetOr(req.argsLimit.GetOr(DefaultLimit))
  }

  /** The topic is usable: present and not empty (`if not topic`). */
  predicate HasTopic(req: Request) {
    RequestedTopic(req).Some? && RequestedTopic(req).value != ""
  }

  /** Rendering the page: the graphs are generated from exactly the results served. */
  function Render(topic: string, results: seq<Result>, s: Table, svc: Services): Response {
    Response(Page(topic, results, GenerateReport(results, topic, svc.stopWords)), s)
  }

  /** One request. Every branch is stated in the contract:
      - without a topic: 400, nothing read or written;
      - stored rows for the topic: they are served, projected, in query
        order, and the table is unchanged;
      - no stored row and nothing fetched: the "no posts" message with
        status 200, table unchanged;
      - otherwise the fetched posts are scored; a failed commit rolls the
        table back and answers 500 with no results; a successful one appends
        exactly one row per result, tagged with the topic, and serves the
        freshly scored results in fetch order.
      The graphs are generated, from the results served, exactly on the two
      branches that serve results. */
  function AnalyzeRoute(req: Request, s: Table, svc: Services, commitSucceeds: bool): (resp: Response)
    ensures !HasTopic(req) <==> resp.outcome == TopicRequired
    ensures !HasTopic(req) ==> resp.table == s && Status(resp.outcome) == 400
    ensures HasTopic(req) ==>
              var topic := RequestedTopic(req).value;
              var stored := QueryByTopic(s, topic, RequestedLimit(req));
              var posts := svc.fetch(topic, RequestedLimit(req));
              var results := AnalyzeSentiment(posts, svc.compound);
              && (|stored| > 0 ==> resp.table == s && resp.outcome.Page? && resp.outcome.results == ToResults(stored))
              && (|stored| == 0 && |posts| == 0 ==> resp.table == s && resp.outcome == NoPostsFound(topic))
              && (|stored| == 0 && |posts| > 0 && !commitSucceeds ==>
                    resp.table == s && resp.outcome == SaveFailed && Status(resp.outcome) == 500)
              && (|stored| == 0 && |posts| > 0 && commitSucceeds ==>
                    && resp.outcome.Page? && resp.outcome.results == results
                    && |resp.table| == |s| + |posts| && resp.table[..|s|] == s
                    && forall j :: |s| <= j < |resp.table| ==>
                         resp.table[j].topic == topic && ToResult(resp.table[j]) == results[j - |s|])
    ensures resp.outcome.Page? ==>
              && resp.outcome.topic == RequestedTopic(req).value
              && resp.outcome.report == GenerateReport(resp.outcome.results, resp.outcome.topic, svc.stopWords)
    ensures Valid(s) ==> Valid(resp.table)
  {
    var limit := RequestedLimit(req);
    if !HasTopic(req) then Response(TopicRequired, s)
    else
      var topic := RequestedTopic(req).value;
      var stored := QueryByTopic(s, topic, limit);
      if |stored| > 0 then Render(topic, ToResults(stored), s, svc)
      else
        var posts := svc.fetch(topic, limit);
        if |posts| == 0 then Response(NoPostsFound(topic), s)
        else
          var results := AnalyzeSentiment(posts, svc.compound);
          if !commitSucceeds then Response(SaveFailed, Commit(s, topic, results, false))
          else Render(topic, results, Commit(s, topic, results, true), svc)
  }

  /** The answers that are not a page, with their status and body: 400
      "Topic is required" without a topic, 200 with the no-posts message
      naming the topic when nothing was fetched, and 500 with the save
      failure message when the commit fails. */
  lemma ErrorAnswers(req: Request, s: Table, svc: Services, commitSucceeds: bool)
    ensures !HasTopic(req) ==>
      var o := AnalyzeRoute(req, s, svc, commitSucceeds).outcome;
      Status(o) == 400 && Message(o) == "Topic is required"
    ensures AnalyzeRoute(req, s, svc, commitSucceeds).outcome.NoPostsFound? ==>
      var o := AnalyzeRoute(req, s, svc, commitSucceeds).outcome;
      HasTopic(req) && Status(o) == 200 &&
      Message(o) == "No posts found for topic '" + RequestedTopic(req).value + "' to analyze."
    ensures AnalyzeRoute(req, s, svc, commitSucceeds).outcome.SaveFailed? ==>
      var o := AnalyzeRoute(req, s, svc, commitSucceeds).outcome;
      HasTopic(req) && !commitSucceeds && Status(o) == 500 &&
      Message(o) == "Failed to save results to database."
  {
  }

  /** The table changes only on a committed cold request, and then only by
      rows of the requested topic appended at the end. */
  lemma TableOnlyGrows(req: Request, s: Table, svc: Services, commitSucceeds: bool)
    ensures var resp := AnalyzeRoute(req, s, svc, commitSucceeds);
      resp.table == s ||
      (&& resp.outcome.Page? && |resp.table| > |s| && resp.table[..|s|] == s
       && forall j :: |s| <= j < |resp.table| ==> resp.table[j].topic == resp.outcome.topic)
  {
  }

  /** Without a topic the answer depends neither on the table nor on any collaborator. */
  lemma MissingTopicIgnoresEverything(req: Request, s1: Table, s2: Table, svc1: Services, svc2: Services, c1: bool, c2: bool)
    requires !HasTopic(req)
    ensures AnalyzeRoute(req, s1, svc1, c1).outcome == AnalyzeRoute(req, s2, svc2, c2).outcome
  {
  }

  /** On a store hit the fetcher, the scorer and the commit are never used:
      any other fetcher, scorer or commit outcome gives the same response. */
  lemma HitIgnoresFetchAndScore(req: Request, s: Table, svc: Services, fetch': (string, int) -> seq<Post>,
                                compound': string -> real, c1: bool, c2: bool)
    requires HasTopic(req) && |QueryByTopic(s, RequestedTopic(req).value, RequestedLimit(req))| > 0
    ensures AnalyzeRoute(req, s, svc, c1) ==
            AnalyzeRoute(req, s, Services(fetch', compound', svc.stopWords), c2)
  {
  }

  /** Read-through: after a committed cold request with a non-zero limit, the
      same request is served from the table whatever the collaborators do
      then, and serves the batch just stored, newest first, cut to the limit,
      leaving the table unchanged. */
  lemma {:induction false} WarmAfterCold(req: Request, s: Table, svc: Services, svc': Services, c': bool)
    requires AnalyzeRoute(req, s, svc, true).outcome.Page?
    requires AnalyzeRoute(req, s, svc, true).table != s
    requires RequestedLimit(req) != 0
    requires svc'.stopWords == svc.stopWords
    ensures var first := AnalyzeRoute(req, s, svc, true);
      var second := AnalyzeRoute(req, first.table, svc', c');
      && second.table == first.table
      && second.outcome.Page?
      && second.outcome.results == Limit(Reverse(first.outcome.results), RequestedLimit(req))
  {
    var topic := RequestedTopic(req).value;
    var limit := RequestedLimit(req);
    var posts := svc.fetch(topic, limit);
    var results := AnalyzeSentiment(posts, svc.compound);
    assert |QueryByTopic(s, topic, limit)| == 0;
    QueryComplete(s, topic, limit);
    QueryAfterFirstInsert(s, topic, results, limit);
    var t := Commit(s, topic, results, true);
    assert t == AddAll(s, topic, results);
    assert |Limit(Reverse(results), limit)| > 0;
    assert |QueryByTopic(t, topic, limit)| > 0;
  }

  /** With a limit of zero the query never finds a row, so every request with
      a topic goes to the fetcher, and every committed non-empty fetch adds
      its rows again. */
  lemma ZeroLimitNeverHits(req: Request, s: Table, svc: Services)
    requires HasTopic(req) && RequestedLimit(req) == 0
    requires |svc.fetch(RequestedTopic(req).value, 0)| > 0
    ensures |AnalyzeRoute(req, s, svc, true).table| == |s| + |svc.fetch(RequestedTopic(req).value, 0)|
  {
  }

  /** The scenario of a cold query for "cats" with limit 5 and three posts
      scoring 0.8, -0.2 and 0.0: three rows are stored and three results are
      served, labelled POSITIVE, NEGATIVE and NEUTRAL. */
  lemma ColdScenario(s: Table, svc: Services, p0: Post, p1: Post, p2: Post)
    requires forall x :: x in s ==> x.topic != "cats"
    requires svc.fetch("cats", 5) == [p0, p1, p2]
    requires svc.compound(p0.content) == 0.8 && svc.compound(p1.content) == -0.2 && svc.compound(p2.content) == 0.0
    ensures var resp := AnalyzeRoute(Request(Some("cats"), None, Some(5), None), s, svc, true);
      && resp.outcome.Page?
      && |resp.table| == |s| + 3
      && Sentiments(resp.outcome.results) == [Positive, Negative, Neutral]
  {
    var req := Request(Some("cats"), None, Some(5), None);
    assert RequestedTopic(req).value == "cats" && RequestedLimit(req) == 5;
    QueryComplete(s, "cats", 5);
    assert |QueryByTopic(s, "cats", 5)| == 0;
    var results := AnalyzeSentiment([p0, p1, p2], svc.compound);
    assert results[0].sentiment == Positive;
    assert results[1].sentiment == Negative;
    assert results[2].sentiment == Neutral;
    assert Sentiments(results) == [Positive, Negative, Neutral];
  }
}
