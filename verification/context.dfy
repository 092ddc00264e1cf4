/** The context line of a search result (SemanticSearch.ts:193-212): the sentence of the
    chunk's text that contains the most words of the query, or else the first 200
    characters of the text followed by "...". */
module Context {
  import opened Wrappers
  import opened Text

  /** `query.toLowerCase().split(/\s+/)`; a query that starts or ends with white space, and
      the empty query, give an empty word */
  function QueryWords(query: string): (words: seq<string>)
    ensures |words| >= 1
  {
    SplitRuns(Lower(query), IsSpace)
  }

  predicate IsSentenceEnd(c: char)
  {
    c == '.' || c == '!' || c == '?'
  }

  /** `text.split(/[.!?]+/)` */
  function Sentences(text: string): (ss: seq<string>)
    ensures |ss| >= 1
  {
    SplitRuns(text, IsSentenceEnd)
  }

  /** `queryWords.filter(word => lowerSentence.includes(word)).length` */
  function MatchCount(words: seq<string>, lowered: string): (n: nat)
    ensures n <= |words|
  {
    if |words| == 0 then 0
    else (if Includes(lowered, words[0]) then 1 else 0) + MatchCount(words[1..], lowered)
  }

  /** The number of query words each sentence contains */
  function Counts(words: seq<string>, ss: seq<string>): (counts: seq<nat>)
    ensures |counts| == |ss|
    ensures forall i :: 0 <= i < |ss| ==> counts[i] == MatchCount(words, Lower(ss[i]))
  {
    seq(|ss|, i requires 0 <= i < |ss| => MatchCount(words, Lower(ss[i])))
  }

  /** The position the loop settles on: the first sentence with the greatest count, if that
      count is not zero */
  function Best(counts: seq<nat>): (b: Option<nat>)
    ensures b.None? <==> forall i :: 0 <= i < |counts| ==> counts[i] == 0
    ensures b.Some? ==> b.value < |counts| && counts[b.value] > 0
    ensures b.Some? ==> forall i :: 0 <= i < |counts| ==> counts[i] <= counts[b.value]
    ensures b.Some? ==> forall i :: 0 <= i < b.value ==> counts[i] < counts[b.value]
    decreases |counts|
  {
    if |counts| == 0 then None
    else
      var init := counts[..|counts| - 1];
      var last := counts[|counts| - 1];
      var b := Best(init);
      assert forall i :: 0 <= i < |init| ==> init[i] == counts[i];
      if last > (if b.Some? then init[b.value] else 0) then Some(|counts| - 1) else b
  }

  /** `text.substring(0, 200) + "..."` */
  function Fallback(text: string): string
  {
    (if |text| <= 200 then text else text[..200]) + "..."
  }

  /** `extractContext(text, query)`: the trimmed best sentence, unless that is empty */
  function ContextOf(text: string, query: string): (r: string)
  {
    var ss := Sentences(text);
    match Best(Counts(QueryWords(query), ss))
    case Some(i) => if Trim(ss[i]) != "" then Trim(ss[i]) else Fallback(text)
    case None => Fallback(text)
  }

  /** The loop of `extractContext` finds the first sentence with the most query words */
  method ExtractContext(text: string, query: string) returns (r: string)
    ensures r == ContextOf(text, query)
  {
    var words := QueryWords(query);
    var sentences := Sentences(text);
    ghost var counts := Counts(words, sentences);
    var bestSentence := "";
    var maxMatches := 0;
    ghost var best: Option<nat> := None;
    for i := 0 to |sentences|
      invariant best == Best(counts[..i])
      invariant best.None? ==> maxMatches == 0 && bestSentence == ""
      invariant best.Some? ==>
        (best.value < i && maxMatches == counts[best.value] && bestSentence == Trim(sentences[best.value]))
    {
      assert counts[..i + 1][..i] == counts[..i];
      var matches := MatchCount(words, Lower(sentences[i]));
      if matches > maxMatches {
        maxMatches := matches;
        bestSentence := Trim(sentences[i]);
        best := Some(i);
      }
    }
    assert counts[..|sentences|] == counts;
    r := if bestSentence != "" then bestSentence else Fallback(text);
  }

  /** Every string includes the empty word */
  lemma IncludesEmpty(s: string)
    ensures Includes(s, "")
  {
    assert OccursAt(s, "", 0);
  }

  /** A query with an empty word counts a match in every sentence, so the context is the
      first sentence unless that trims to nothing */
  lemma {:induction false} EmptyWordMatches(words: seq<string>, lowered: string)
    requires "" in words
    ensures MatchCount(words, lowered) >= 1
    decreases |words|
  {
    if words[0] == "" {
      IncludesEmpty(lowered);
    } else {
      EmptyWordMatches(words[1..], lowered);
    }
  }

  /** With the empty query every sentence counts one match, so the first sentence is the
      context unless it trims to nothing */
  lemma EmptyQueryFirstSentence(text: string)
    ensures var first := Trim(Sentences(text)[0]);
      ContextOf(text, "") == if first != "" then first else Fallback(text)
  {
    assert Lower("") == "";
    assert QueryWords("") == [""];
    var counts := Counts([""], Sentences(text));
    forall i | 0 <= i < |counts|
      ensures counts[i] == 1
    {
      IncludesEmpty(Lower(Sentences(text)[i]));
    }
    assert Best(counts).Some?;
  }

  /** When no sentence holds a query word, the context is the start of the text */
  lemma NoMatchFallback(text: string, query: string)
    requires forall i :: 0 <= i < |Sentences(text)| ==> MatchCount(QueryWords(query), Lower(Sentences(text)[i])) == 0
    ensures ContextOf(text, query) == Fallback(text)
  {
  }
}
