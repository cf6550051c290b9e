/** What `generate_graphs` (app/graphs.py) computes before drawing: the
    per-label counts behind the bar chart, and the word frequencies behind
    the word cloud, which is skipped when no word survives the filter. */
module Graphs {
  import opened Maybe
  import opened Seqs
  import opened Analysis
  import opened Counter
  import opened Text

  /** The content the fetcher substitutes for a post without self-text
      (app/fetch_reddit_data.py:42); it is kept out of the word cloud. */
  const NoContent: string := "No Content Available"

  /** Words of this length or shorter are dropped. */
  const MaxShortWord: nat := 2

  /** The labels of the results, in order. */
  function Sentiments(rs: seq<Result>): (ls: seq<Label>)
    ensures |ls| == |rs|
    ensures forall i :: 0 <= i < |rs| ==> ls[i] == rs[i].sentiment
  {
    seq(|rs|, i requires 0 <= i < |rs| => rs[i].sentiment)
  }

  /** Number of results carrying label `l`. */
  function CountLabel(rs: seq<Result>, l: Label): nat
    decreases |rs|
  {
    if |rs| == 0 then 0 else (if rs[0].sentiment == l then 1 else 0) + CountLabel(rs[1..], l)
  }

  lemma {:induction false} CountLabelIsMultiplicity(rs: seq<Result>, l: Label)
    ensures multiset(Sentiments(rs))[l] == CountLabel(rs, l)
    decreases |rs|
  {
    if |rs| > 0 {
      assert Sentiments(rs) == [rs[0].sentiment] + Sentiments(rs[1..]);
      CountLabelIsMultiplicity(rs[1..], l);
    }
  }

  /** Every result carries exactly one of the three labels. */
  lemma {:induction false} LabelCountsPartition(rs: seq<Result>)
    ensures CountLabel(rs, Positive) + CountLabel(rs, Negative) + CountLabel(rs, Neutral) == |rs|
    decreases |rs|
  {
    if |rs| > 0 {
      LabelCountsPartition(rs[1..]);
    }
  }

  /** `Counter(sentiments)`: the bar chart's labels and heights. Each label
      present among the results appears once, no absent label appears, each
      height is the number of results with that label, and the heights add up
      to the number of results. */
  function SentimentCounts(rs: seq<Result>): (bars: seq<(Label, nat)>)
    ensures forall i :: 0 <= i < |bars| ==> bars[i].1 == CountLabel(rs, bars[i].0) && bars[i].1 > 0
    ensures forall l: Label :: l in Keys(bars) <==> exists i :: 0 <= i < |rs| && rs[i].sentiment == l
    ensures DistinctKeys(bars)
    ensures Sum(bars) == |rs|
  {
    SentimentTallyCounts(rs);
    SentimentTallyKeys(rs);
    Tally(Sentiments(rs))
  }

  /** The tally's heights are the label counts. */
  lemma SentimentTallyCounts(rs: seq<Result>)
    ensures forall i :: 0 <= i < |Tally(Sentiments(rs))| ==>
      Tally(Sentiments(rs))[i].1 == CountLabel(rs, Tally(Sentiments(rs))[i].0) && Tally(Sentiments(rs))[i].1 > 0
  {
    var bars := Tally(Sentiments(rs));
    forall i | 0 <= i < |bars|
      ensures bars[i].1 == CountLabel(rs, bars[i].0) && bars[i].1 > 0
    {
      CountLabelIsMultiplicity(rs, bars[i].0);
    }
  }

  lemma InSentiments(rs: seq<Result>, l: Label)
    ensures l in Sentiments(rs) <==> exists i :: 0 <= i < |rs| && rs[i].sentiment == l
  {
    var ls := Sentiments(rs);
    if l in ls {
      var i :| 0 <= i < |ls| && ls[i] == l;
      assert rs[i].sentiment == l;
    }
  }

  /** The tally's labels are those of the results. */
  lemma SentimentTallyKeys(rs: seq<Result>)
    ensures forall l: Label :: l in Keys(Tally(Sentiments(rs))) <==> exists i :: 0 <= i < |rs| && rs[i].sentiment == l
  {
    TallyKeys(Sentiments(rs));
    forall l: Label
      ensures l in Keys(Tally(Sentiments(rs))) <==> exists i :: 0 <= i < |rs| && rs[i].sentiment == l
    {
      InSentiments(rs, l);
    }
  }

  /** Content that takes part in the word cloud: not empty and not the placeholder. */
  predicate HasText(c: string) {
    c != "" && c != NoContent
  }

  /** The contents that go into the word cloud, in result order: empty
      content and the fetcher's placeholder are skipped. */
  function TextContents(rs: seq<Result>): (cs: seq<string>)
    ensures forall i :: 0 <= i < |cs| ==> HasText(cs[i])
    decreases |rs|
  {
    if |rs| == 0 then []
    else if HasText(rs[0].content) then [rs[0].content] + TextContents(rs[1..])
    else TextContents(rs[1..])
  }

  /** The word filter: letters only, not a stop word, longer than two characters. */
  predicate Meaningful(w: string, stopWords: set<string>) {
    IsAlpha(w) && w !in stopWords && |w| > MaxShortWord
  }

  /** The word filter applied to each word in order: an occurrence is kept
      exactly when the word is meaningful (`KeepMeaningfulOne`,
      `KeepMeaningfulAppend`, `KeepMeaningfulCounts`). */
  function KeepMeaningful(ws: seq<string>, stopWords: set<string>): (r: seq<string>)
    ensures forall w :: w in r <==> w in ws && Meaningful(w, stopWords)
    decreases |ws|
  {
    if |ws| == 0 then []
    else if Meaningful(ws[0], stopWords) then [ws[0]] + KeepMeaningful(ws[1..], stopWords)
    else KeepMeaningful(ws[1..], stopWords)
  }

  lemma {:induction false} KeepMeaningfulAppend(a: seq<string>, b: seq<string>, stopWords: set<string>)
    ensures KeepMeaningful(a + b, stopWords) == KeepMeaningful(a, stopWords) + KeepMeaningful(b, stopWords)
    decreases |a|
  {
    if |a| > 0 {
      assert (a + b)[1..] == a[1..] + b;
      KeepMeaningfulAppend(a[1..], b, stopWords);
    } else {
      assert a + b == b;
    }
  }

  /** The filter looks at one word at a time: a single word is kept exactly
      when it is meaningful. */
  lemma KeepMeaningfulOne(w: string, stopWords: set<string>)
    ensures KeepMeaningful([w], stopWords) == if Meaningful(w, stopWords) then [w] else []
  {
    assert [w][1..] == [];
  }

  /** Every occurrence of a meaningful word is kept once, and no other word is kept. */
  lemma {:induction false} KeepMeaningfulCounts(ws: seq<string>, stopWords: set<string>)
    ensures forall w :: multiset(KeepMeaningful(ws, stopWords))[w] ==
                        if Meaningful(w, stopWords) then multiset(ws)[w] else 0
    decreases |ws|
  {
    if |ws| > 0 {
      KeepMeaningfulCounts(ws[1..], stopWords);
      assert ws == [ws[0]] + ws[1..];
      assert multiset(ws) == multiset{ws[0]} + multiset(ws[1..]);
    }
  }

  /** The words counted for the word cloud: the kept contents joined with
      single spaces, lower-cased, stripped of everything but letters and
      whitespace, split on whitespace, and filtered. Each surviving word is
      made of lower-case ASCII letters only, is longer than two characters and
      is not a stop word. */
  function FilteredWords(rs: seq<Result>, stopWords: set<string>): (ws: seq<string>)
    ensures forall i :: 0 <= i < |ws| ==>
              |ws[i]| > MaxShortWord && ws[i] !in stopWords &&
              forall k :: 0 <= k < |ws[i]| ==> IsLowerLetter(ws[i][k])
  {
    var text := Clean(Join(TextContents(rs)));
    var words := Split(text);
    var ws := KeepMeaningful(words, stopWords);
    forall i | 0 <= i < |ws|
      ensures Meaningful(ws[i], stopWords)
    {
      assert ws[i] in ws;
    }
    forall i, k | 0 <= i < |ws| && 0 <= k < |ws[i]|
      ensures IsLowerLetter(ws[i][k])
    {
      assert ws[i] in ws;
      var j :| 0 <= j < |words| && words[j] == ws[i];
      assert words[j][k] in text && !IsSpace(words[j][k]);
    }
    ws
  }

  /** The words one piece of content contributes on its own. */
  function ContentWords(c: string, stopWords: set<string>): seq<string> {
    if HasText(c) then KeepMeaningful(Split(Clean(c)), stopWords) else []
  }

  /** The words of each result's content, concatenated in result order. */
  function WordsByResult(rs: seq<Result>, stopWords: set<string>): seq<string>
    decreases |rs|
  {
    if |rs| == 0 then [] else ContentWords(rs[0].content, stopWords) + WordsByResult(rs[1..], stopWords)
  }

  lemma {:induction false} FilterEachContent(rs: seq<Result>, stopWords: set<string>)
    ensures KeepMeaningful(SplitCleanEach(TextContents(rs)), stopWords) == WordsByResult(rs, stopWords)
    decreases |rs|
  {
    if |rs| > 0 {
      FilterEachContent(rs[1..], stopWords);
      var c := rs[0].content;
      if HasText(c) {
        var cs := TextContents(rs[1..]);
        assert ([c] + cs)[1..] == cs;
        KeepMeaningfulAppend(Split(Clean(c)), SplitCleanEach(cs), stopWords);
      }
    }
  }

  /** Joining with a single space never glues two contents into one word:
      the counted words are exactly the words of each result's content on
      its own, in result order. */
  lemma FilteredWordsPerResult(rs: seq<Result>, stopWords: set<string>)
    ensures FilteredWords(rs, stopWords) == WordsByResult(rs, stopWords)
  {
    SplitCleanJoin(TextContents(rs));
    FilterEachContent(rs, stopWords);
  }

  lemma {:induction false} WordsByResultSkip(rs: seq<Result>, i: nat, stopWords: set<string>)
    requires i < |rs| && !HasText(rs[i].content)
    ensures WordsByResult(rs, stopWords) == WordsByResult(rs[..i] + rs[i + 1..], stopWords)
    decreases i
  {
    if i == 0 {
      assert rs[..0] + rs[1..] == rs[1..];
    } else {
      var tail := rs[1..];
      WordsByResultSkip(tail, i - 1, stopWords);
      var rest := tail[..i - 1] + tail[i..];
      assert rs[..i] + rs[i + 1..] == [rs[0]] + rest;
      assert ([rs[0]] + rest)[1..] == rest;
    }
  }

  /** Empty and placeholder content adds no word: dropping such a result
      leaves the counted words unchanged. */
  lemma PlaceholderAddsNoWords(rs: seq<Result>, i: nat, stopWords: set<string>)
    requires i < |rs| && !HasText(rs[i].content)
    ensures FilteredWords(rs, stopWords) == FilteredWords(rs[..i] + rs[i + 1..], stopWords)
  {
    FilteredWordsPerResult(rs, stopWords);
    FilteredWordsPerResult(rs[..i] + rs[i + 1..], stopWords);
    WordsByResultSkip(rs, i, stopWords);
  }

  /** What the bar chart and the word cloud are drawn from. */
  datatype Report = Report(
    chartTitle: string,
    bars: seq<(Label, nat)>,
    wordCloud: Option<seq<(string, nat)>>)

  /** `generate_graphs(results, topic)` up to the drawing: the bar chart is
      always drawn; the word cloud is drawn from the word frequencies exactly
      when some word survives the filter, and each frequency is the number of
      times its word occurs among the counted words. */
  function GenerateReport(rs: seq<Result>, topic: string, stopWords: set<string>): (rep: Report)
    ensures forall i :: 0 <= i < |rep.bars| ==> rep.bars[i].1 == CountLabel(rs, rep.bars[i].0) && rep.bars[i].1 > 0
    ensures forall l: Label :: l in Keys(rep.bars) <==> exists i :: 0 <= i < |rs| && rs[i].sentiment == l
    ensures DistinctKeys(rep.bars)
    ensures Sum(rep.bars) == |rs|
    ensures rep.wordCloud.None? <==> |FilteredWords(rs, stopWords)| == 0
    ensures rep.wordCloud.Some? ==>
              && DistinctKeys(rep.wordCloud.value)
              && (forall w :: w in Keys(rep.wordCloud.value) <==> w in FilteredWords(rs, stopWords))
              && forall i :: 0 <= i < |rep.wordCloud.value| ==>
                   rep.wordCloud.value[i].1 == multiset(FilteredWords(rs, stopWords))[rep.wordCloud.value[i].0]
  {
    var counts := Tally(FilteredWords(rs, stopWords));
    TallyEmpty(FilteredWords(rs, stopWords));
    TallyKeys(FilteredWords(rs, stopWords));
    Report(
      "Distribution of Sentiments for Reddit Posts on \"" + topic + "\"",
      SentimentCounts(rs),
      if |counts| > 0 then Some(counts) else None)
  }
}
