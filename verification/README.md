# Reddit sentiment analyzer — Dafny model

A model of the logic inside a small Flask service that fetches Reddit posts
for a topic, labels each post POSITIVE, NEGATIVE or NEUTRAL from its VADER
compound score, keeps the labelled posts in a `sentiment_analysis` table, and
renders a bar chart of the labels and a word cloud of the posts' words.

Three pieces are modelled, with the outside world passed in as parameters:

- **The request handler** `analyze_sentiment_route` (module `Routes`): a pure
  function from the request parameters, the table, the collaborators (Reddit
  search, compound scorer, stop words) and whether the commit succeeds, to an
  outcome and the table afterwards. The table (module `Store`) is a sequence
  of rows in insertion order. Its two operations are the per-topic
  newest-first query with a limit and the all-or-nothing insert of a batch.
- **Scoring** `analyze_sentiment` (module `Analysis`): the threshold
  classification of a compound score and the per-post result.
- **Report pre-processing** in `generate_graphs` (modules `Graphs`, `Text`,
  `Counter`): the label counts behind the bar chart; the word pipeline
  (drop empty and placeholder content, join with spaces, lower-case, delete
  non-letters, split, filter, count); and the rule that the word cloud is
  skipped exactly when no word survives.

Modelling choices:

- `created_at` is an insertion counter. A valid table has row `i` with
  primary key `i + 1` and creation time `i` (`Store.Valid`). The database
  clock can give equal times to rows of one batch. The model breaks such ties
  by insertion order, newest first, so a stored batch comes back reversed
  (`Store.QueryAfterInsert`).
- The database is SQLite, the default in `app/__init__.py`. There `LIMIT 0`
  returns nothing and a negative limit means no limit. The model follows both
  (`Seqs.Limit`, `Store.QueryByTopic`). The code accepts any integer limit,
  and the model follows it. With a limit of 0 every request misses the
  table; if the fetcher returns posts for it, they are appended again
  (`Routes.ZeroLimitNeverHits`).
- Whether the commit succeeds is a boolean parameter. On failure the rollback
  leaves the table exactly as it was.
- Characters are ASCII. Whitespace is Python's ASCII whitespace set: tab,
  newline, vertical tab, form feed, carriage return, 0x1C-0x1F and space.
  Both `\s` and `str.split()` use that set.
- The compound score is a `real` from an uninterpreted function of the
  content. The fetcher is an uninterpreted function of (topic, limit). The
  stop words are an abstract set.

## Model

| member | source | states |
|---|---|---|
| Analysis.Classify | app/analysis.py:37-47 | POSITIVE exactly when score ≥ 0.05, NEGATIVE exactly when score ≤ -0.05, NEUTRAL exactly strictly between; the bands are disjoint, so the order of the tests does not matter |
| Analysis.ClassifyBoundaries | app/analysis.py:42-47 | 0.05 is POSITIVE, -0.05 is NEGATIVE, 0.0 and ±0.0499 are NEUTRAL |
| Analysis.ClassifyMonotone | app/analysis.py:42-47 | a higher score never gets a lower-ranked label |
| Analysis.AnalyzeSentiment | app/analysis.py:31-56 | one result per post, in post order; title and content copied; score is the compound score of the content; label is the classification of that score |
| Analysis.AnalyzeSentimentAppend | app/analysis.py:31-56 | scoring is per post: scoring a concatenation is the concatenation of the scorings |
| Analysis.SameContentSameLabel | app/analysis.py:35-47 | two posts with equal content get equal label and score (the label depends only on the score) |
| Store.ToResults | app/routes.py:56-64 | one result per row, in row order, carrying the row's title, content, sentiment and score |
| Store.QueryByTopic | app/routes.py:51 | only rows of the topic, all from the table; at most `limit` when the limit is not negative |
| Store.QueryComplete | app/routes.py:51 | every row of the topic comes back when the limit does not cut (a negative limit never cuts); the answer is empty exactly when the limit is 0 or the topic has no row |
| Store.QueryNewestFirst | app/routes.py:51 | on a valid table the rows come in strictly decreasing creation time |
| Store.QueryIsNewestTopicRows | app/routes.py:51 | the query equals an independent reading: the topic's rows in insertion order, reversed, cut to the limit; so every left-out row is older than all returned |
| Store.AddAll | app/routes.py:79-88 | the pending rows: old rows untouched, then one new row per result in order |
| Store.AddAllRows | app/models.py:10-16 | every added row carries the topic and its result's title, content, sentiment and score; keys and creation times stay unique and ordered |
| Store.Commit | app/routes.py:78-95 | committed: exactly one row per result appended after the untouched old rows, each tagged with the topic and carrying its result; rolled back: the table exactly as before; validity preserved either way |
| Store.QueryAfterInsert | app/routes.py:51-89 | round trip: after a committed batch, a query admitting the whole batch returns the batch, newest first, with equal title, content, sentiment and score, followed by what the query returned before under the limit left over |
| Store.QueryAfterFirstInsert | app/routes.py:51-89 | for a topic with no rows before, the query after the batch is exactly the batch reversed, cut to the limit |
| Store.QueryOtherTopic | app/routes.py:51-89 | a batch for one topic leaves every query for another topic unchanged |
| Counter.Tally | app/graphs.py:45-48 | `Counter`: keys are exactly the distinct elements, each once; each count is the element's multiplicity; the counts add up to the length |
| Counter.TallyKeys | app/graphs.py:45-48 | the keys are exactly the elements counted, in both directions |
| Counter.TallyFirstOccurrenceOrder | app/graphs.py:46-47 | keys come in the order of their first occurrences |
| Counter.TallyEmpty | app/graphs.py:94 | a tally is empty exactly when nothing was counted |
| Graphs.SentimentCounts | app/graphs.py:43-48 | each present label listed once, no absent label listed, each height the number of results with that label, heights sum to the number of results |
| Graphs.LabelCountsPartition | app/graphs.py:43-48 | the POSITIVE, NEGATIVE and NEUTRAL counts add up to the number of results |
| Graphs.TextContents | app/graphs.py:81 | only non-empty, non-placeholder content is joined |
| Text.Clean | app/graphs.py:83 | after lower-casing and deleting non-letters, only lower-case letters and whitespace remain |
| Text.CleanChar | app/graphs.py:83 | one character: a letter is kept lower-cased, whitespace is kept, anything else is deleted |
| Text.CleanAppend | app/graphs.py:83 | normalising a concatenation is the concatenation of the normalised pieces, so with `CleanChar` the result is fixed character by character, in order |
| Text.Split | app/graphs.py:84 | words are non-empty, hold no whitespace, and are made of characters of the text |
| Text.SplitWord | app/graphs.py:84 | a non-empty text without whitespace is exactly one word, itself |
| Text.SplitBlank | app/graphs.py:84 | a text of whitespace only has no words; with `SplitWord` and `SplitAround` this fixes the words of every text as its maximal non-whitespace runs |
| Text.SplitKeepsNonSpace | app/graphs.py:84 | the words, concatenated, are the text without its whitespace |
| Text.SplitAround | app/graphs.py:81-84 | a whitespace separator splits the text into the words of each side: no word spans it |
| Text.CleanAround | app/graphs.py:81-83 | normalising a joined text normalises each side and keeps the separator |
| Text.SplitCleanJoin | app/graphs.py:81-84 | the words of the space-joined contents are the words of each content, in order |
| Graphs.KeepMeaningful | app/graphs.py:88 | keeps exactly the words that are alphabetic, not stop words and longer than two characters |
| Graphs.KeepMeaningfulOne | app/graphs.py:88 | a single word is kept exactly when it is meaningful; with `KeepMeaningfulAppend` this fixes the filter on every list, in order |
| Graphs.KeepMeaningfulCounts | app/graphs.py:88 | each meaningful word is kept as many times as it occurs, every other word zero times |
| Graphs.FilteredWords | app/graphs.py:81-88 | every counted word is lower-case ASCII letters only, longer than two characters, not a stop word |
| Graphs.FilteredWordsPerResult | app/graphs.py:81-84 | the counted words are the concatenation of each result's own words |
| Graphs.PlaceholderAddsNoWords | app/graphs.py:81 | a result with empty or placeholder content can be dropped without changing the counted words |
| Graphs.GenerateReport | app/graphs.py:43-98 | each present label has one bar, no absent label has one, heights count the labels and sum to the number of results; the word cloud is absent exactly when no word survives; otherwise its words are exactly the surviving words, each once, with its number of occurrences |
| Routes.RequestedTopic | app/routes.py:38 | a non-empty form topic wins; a missing or empty one falls back to the query-string topic |
| Routes.RequestedLimit | app/routes.py:40 | the form limit wins over the query-string limit; 10 when neither is given |
| Routes.AnalyzeRoute | app/routes.py:38-105 | 400 without a topic and table untouched; on a hit the stored rows projected in query order, table unchanged; empty fetch gives the no-posts message, table unchanged; failed commit gives 500, table unchanged, no results; committed batch appends one row per result and serves the fresh results in fetch order; graphs from exactly the results served; validity preserved |
| Routes.ErrorAnswers | app/routes.py:43-95 | without a topic: 400 "Topic is required"; nothing fetched: 200 with the no-posts message naming the topic; failed commit: 500 "Failed to save results to database." |
| Routes.TableOnlyGrows | app/routes.py:47-95 | the table changes only on a served cold request, and only by rows of the topic appended at the end |
| Routes.MissingTopicIgnoresEverything | app/routes.py:38-45 | without a topic the outcome depends on neither the table nor any collaborator |
| Routes.HitIgnoresFetchAndScore | app/routes.py:53-64 | on a hit, any other fetcher, scorer or commit outcome gives the same response |
| Routes.WarmAfterCold | app/routes.py:51-90 | after a committed cold request with a non-zero limit, the same request is a hit serving the batch reversed and cut to the limit, whatever the collaborators do |
| Routes.ZeroLimitNeverHits | app/routes.py:40-89 | with limit 0 every committed non-empty fetch is appended again |
| Routes.ColdScenario | app/routes.py:66-90 | cold "cats" with limit 5 and scores 0.8, -0.2, 0.0: three rows stored, labels POSITIVE, NEGATIVE, NEUTRAL |

## Left out

- Store.QueryAfterInsert, Store.QueryAfterFirstInsert, Routes.WarmAfterCold: rows of one batch usually share one `created_at` second (the column defaults to the database's current time, app/models.py:16), and the database decides the order of such ties; SQLite typically keeps insertion order. The newest-first order of a batch in these lemmas follows from the insertion counter standing in for `created_at` and is not something the program promises.

- HTTP layer: Flask routing, `jsonify` and `render_template` are not modelled. Outcomes are a datatype with a status code and message (`Routes.Status`, `Routes.Message`).
- The one-hour response cache in front of the handler (app/routes.py:31, app/__init__.py). It is framework behaviour with a timeout and no visible logic.
- The SQLAlchemy session internals, schema creation, the 255-character `topic` and 10-character `sentiment` column sizes, and the `id`/`created_at` assignment mechanics. Only the store's contract is modelled.
- The Reddit fetch (app/fetch_reddit_data.py) is an arbitrary function of (topic, limit). Its placeholder content "No Content Available" appears only as the constant `Graphs.NoContent`.
- VADER's `polarity_scores` is an uninterpreted function to `real`. Floating-point representation of the score is not modelled.
- The drawing and I/O: matplotlib/seaborn bar chart, WordCloud rendering (including its 200-word cap), file writes, `create_directory` and base64 encoding. An exception raised there would propagate out of the handler; the model cannot fail there.
- The `int()` parse of `num_records`: a non-numeric value raises before the topic is checked. The model takes the limits already as integers.
- Routes.RequestedLimit: a `num_records` given as an empty string in the form is not modelled. `dict.get` would return it and `int("")` would raise.
- Text.Clean: covers only ASCII characters. Non-ASCII characters count as neither letter nor whitespace, so they are deleted. Python would lower-case non-ASCII upper-case letters and would split on non-ASCII whitespace.
- Concurrent cold queries for one topic can both insert their batch. This is a concurrency concern the code does not address.
- Logging (app/logger.py), NLTK downloads and environment configuration (app.py).
