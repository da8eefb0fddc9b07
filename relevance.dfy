/** The relevance scorer `calculateRelevanceScore`: an exact title match scores 100, a
    prefix match 90, and otherwise every query word must match some title word, exactly
    or as a substring in either direction, for a score built from the match ratios and
    the item's popularity. */
module Relevance {
  import opened Wrappers
  import opened Text
  import opened Media

  const ExactTitleScore := 100
  const PrefixTitleScore := 90

  /** How a query word matched the first title word it matched. */
  datatype MatchKind = ExactWord | PartialWord

  /** The two counters of the word loop: `exactWordMatches` and `matchingWords`. */
  datatype Tally = Tally(exact: nat, partial: nat)

  /** A title word matches a query word when they are equal or one includes the other. */
  predicate WordsMatch(queryWord: string, titleWord: string) {
    titleWord == queryWord || Contains(titleWord, queryWord) || Contains(queryWord, titleWord)
  }

  /** The inner loop: the kind of the first title word that matches `queryWord`, if any. */
  function FirstMatch(queryWord: string, titleWords: seq<string>): (m: Option<MatchKind>)
    ensures m.None? <==> forall k :: 0 <= k < |titleWords| ==> !WordsMatch(queryWord, titleWords[k])
    decreases |titleWords|
  {
    if titleWords == [] then None
    else if titleWords[0] == queryWord then Some(ExactWord)
    else if Contains(titleWords[0], queryWord) || Contains(queryWord, titleWords[0]) then Some(PartialWord)
    else
      assert forall k :: 1 <= k < |titleWords| ==> titleWords[k] == titleWords[1..][k - 1];
      FirstMatch(queryWord, titleWords[1..])
  }

  /** The outer loop: both counters after all of `queryWords`, or `None` when some query
      word matches no title word (the early `return 0`). */
  function TallyWords(queryWords: seq<string>, titleWords: seq<string>): (t: Option<Tally>)
    ensures t.Some? ==> t.value.exact + t.value.partial == |queryWords|
    decreases |queryWords|
  {
    if queryWords == [] then Some(Tally(0, 0))
    else
      match TallyWords(queryWords[..|queryWords| - 1], titleWords)
      case None => None
      case Some(t) =>
        match FirstMatch(queryWords[|queryWords| - 1], titleWords)
        case None => None
        case Some(kind) => Some(Count(t, kind))
  }

  /** One more query word counted as `kind`. */
  function Count(t: Tally, kind: MatchKind): Tally {
    match kind
    case ExactWord => Tally(t.exact + 1, t.partial)
    case PartialWord => Tally(t.exact, t.partial + 1)
  }

  /** One step of the outer loop. */
  lemma TallyStep(queryWords: seq<string>, titleWords: seq<string>, i: nat, t: Tally, kind: MatchKind)
    requires i < |queryWords|
    requires TallyWords(queryWords[..i], titleWords) == Some(t)
    requires FirstMatch(queryWords[i], titleWords) == Some(kind)
    ensures TallyWords(queryWords[..i + 1], titleWords) == Some(Count(t, kind))
  {
    assert queryWords[..i + 1][..i] == queryWords[..i];
  }

  /** `Math.round`: to the nearest integer, halves toward positive infinity. */
  function Round(x: real): (n: int)
    ensures x - 0.5 < n as real <= x + 0.5
  {
    (x + 0.5).Floor
  }

  function MinReal(a: real, b: real): real {
    if a <= b then a else b
  }

  /** `Math.min(popularity / 100, 1) * 10`. */
  function PopularityBoost(popularity: real): (boost: real)
    ensures boost <= 10.0
    ensures popularity >= 0.0 ==> boost >= 0.0
  {
    MinReal(popularity / 100.0, 1.0) * 10.0
  }

  /** The word-matching part of the scorer, for a non-empty list of query words. */
  function WordScore(queryWords: seq<string>, titleWords: seq<string>, popularity: real): (score: int)
    requires queryWords != []
  {
    match TallyWords(queryWords, titleWords)
    case None => 0
    case Some(t) =>
      var total := |queryWords| as real;
      var exactMatchRatio := t.exact as real / total;
      var partialMatchRatio := t.partial as real / total;
      if exactMatchRatio + partialMatchRatio < 0.6 then 0
      else Round(exactMatchRatio * 60.0 + partialMatchRatio * 30.0 + PopularityBoost(popularity))
  }

  /** The score of a title (before lowercasing) against a raw search query. */
  function RelevanceScore(title: string, searchQuery: string, popularity: real): (score: int)
  {
    var t := ToLower(title);
    var q := Trim(ToLower(searchQuery));
    if t == q then ExactTitleScore
    else if StartsWith(t, q) then PrefixTitleScore
    else
      WordsOfNonBlank(q);
      WordScore(Words(q), Split(t, ' '), popularity)
  }

  /** `calculateRelevanceScore(item, searchQuery)` as a value. */
  function ItemScore(item: SearchItem, searchQuery: string): int {
    RelevanceScore(DisplayTitle(item), searchQuery, item.popularity)
  }

  /** The scorer as the source runs it: nested loops over query and title words that
      update two counters, leave the inner loop at the first hit and return early. */
  method CalculateRelevanceScore(item: SearchItem, searchQuery: string) returns (score: int)
    ensures score == ItemScore(item, searchQuery)
  {
    var title := ToLower(DisplayTitle(item));
    var query := Trim(ToLower(searchQuery));
    if title == query {
      return ExactTitleScore;
    }
    if StartsWith(title, query) {
      return PrefixTitleScore;
    }
    var queryWords := Words(query);
    var titleWords := Split(title, ' ');
    ScoreOnWordPath(DisplayTitle(item), searchQuery, item.popularity);
    score := ScoreWords(queryWords, titleWords, item.popularity);
  }

  /** The word loops of the scorer, reached only with at least one query word: for each
      query word, the title words are scanned up to the first one that matches it. */
  method ScoreWords(queryWords: seq<string>, titleWords: seq<string>, popularity: real) returns (score: int)
    requires queryWords != []
    ensures score == WordScore(queryWords, titleWords, popularity)
  {
    var matchingWords, exactWordMatches := 0, 0;
    for i := 0 to |queryWords|
      invariant TallyWords(queryWords[..i], titleWords) == Some(Tally(exactWordMatches, matchingWords))
    {
      var queryWord := queryWords[i];
      ghost var before := Tally(exactWordMatches, matchingWords);
      ghost var kind := ExactWord;
      var wordFound := false;
      for j := 0 to |titleWords|
        invariant !wordFound
        invariant FirstMatch(queryWord, titleWords) == FirstMatch(queryWord, titleWords[j..])
        invariant before == Tally(exactWordMatches, matchingWords)
      {
        var titleWord := titleWords[j];
        assert titleWords[j..] == [titleWord] + titleWords[j + 1..];
        if titleWord == queryWord {
          exactWordMatches := exactWordMatches + 1;
          wordFound := true;
          kind := ExactWord;
          assert FirstMatch(queryWord, titleWords) == Some(kind);
          break;
        } else if Contains(titleWord, queryWord) || Contains(queryWord, titleWord) {
          matchingWords := matchingWords + 1;
          wordFound := true;
          kind := PartialWord;
          assert FirstMatch(queryWord, titleWords) == Some(kind);
          break;
        }
      }
      if !wordFound {
        // a query word that no title word matches rejects the item outright
        assert FirstMatch(queryWord, titleWords) == None;
        UnmatchedWordRejects(queryWords, titleWords, i);
        return 0;
      }
      assert FirstMatch(queryWord, titleWords) == Some(kind);
      assert Tally(exactWordMatches, matchingWords) == Count(before, kind);
      TallyStep(queryWords, titleWords, i, before, kind);
    }
    assert queryWords[..|queryWords|] == queryWords;
    var totalQueryWords := |queryWords|;
    var exactMatchRatio := exactWordMatches as real / totalQueryWords as real;
    var partialMatchRatio := matchingWords as real / totalQueryWords as real;
    if exactMatchRatio + partialMatchRatio < 0.6 {
      score := 0;
    } else {
      var s := exactMatchRatio * 60.0 + partialMatchRatio * 30.0;
      var popularityBoost := MinReal(popularity / 100.0, 1.0) * 10.0;
      s := s + popularityBoost;
      score := Round(s);
    }
  }

  /** Past the exact and prefix tests, the score is the word score. */
  lemma ScoreOnWordPath(title: string, searchQuery: string, popularity: real)
    requires ToLower(title) != Trim(ToLower(searchQuery))
    requires !StartsWith(ToLower(title), Trim(ToLower(searchQuery)))
    ensures Words(Trim(ToLower(searchQuery))) != []
    ensures RelevanceScore(title, searchQuery, popularity) ==
      WordScore(Words(Trim(ToLower(searchQuery))), Split(ToLower(title), ' '), popularity)
  {
    WordsOfNonBlank(Trim(ToLower(searchQuery)));
  }

  /** The early return: one query word without a match rejects the whole query. */
  lemma {:induction false} UnmatchedWordRejects(queryWords: seq<string>, titleWords: seq<string>, i: nat)
    requires i < |queryWords| && FirstMatch(queryWords[i], titleWords).None?
    ensures TallyWords(queryWords, titleWords).None?
  {
    TallyNoneIff(queryWords, titleWords);
  }

  /** The counters fail exactly when some query word matches no title word. */
  lemma {:induction false} TallyNoneIff(queryWords: seq<string>, titleWords: seq<string>)
    ensures TallyWords(queryWords, titleWords).None? <==>
      exists i :: 0 <= i < |queryWords| && FirstMatch(queryWords[i], titleWords).None?
    decreases |queryWords|
  {
    if queryWords != [] {
      var n := |queryWords| - 1;
      var prefix := queryWords[..n];
      TallyNoneIff(prefix, titleWords);
      assert TallyWords(queryWords, titleWords).None? <==>
        TallyWords(prefix, titleWords).None? || FirstMatch(queryWords[n], titleWords).None?;
      PrefixUnmatched(queryWords, prefix, titleWords);
    }
  }

  lemma PrefixUnmatched(queryWords: seq<string>, prefix: seq<string>, titleWords: seq<string>)
    requires queryWords != [] && prefix == queryWords[..|queryWords| - 1]
    ensures (exists i :: 0 <= i < |queryWords| && FirstMatch(queryWords[i], titleWords).None?) <==>
      (exists i :: 0 <= i < |prefix| && FirstMatch(prefix[i], titleWords).None?) ||
      FirstMatch(queryWords[|queryWords| - 1], titleWords).None?
  {
    assert forall i :: 0 <= i < |prefix| ==> prefix[i] == queryWords[i];
  }

  /** First hit, not best hit: the kind is decided by the first title word that matches. */
  lemma {:induction false} FirstMatchIsFirstHit(queryWord: string, titleWords: seq<string>, j: nat)
    requires j < |titleWords| && WordsMatch(queryWord, titleWords[j])
    requires forall k :: 0 <= k < j ==> !WordsMatch(queryWord, titleWords[k])
    ensures FirstMatch(queryWord, titleWords) ==
      Some(if titleWords[j] == queryWord then ExactWord else PartialWord)
    decreases j
  {
    if j > 0 {
      assert !WordsMatch(queryWord, titleWords[0]);
      forall k | 0 <= k < j - 1 ensures !WordsMatch(queryWord, titleWords[1..][k]) {
        assert titleWords[1..][k] == titleWords[k + 1];
      }
      FirstMatchIsFirstHit(queryWord, titleWords[1..], j - 1);
    }
  }

  /** A query word is counted as partial when a longer title word containing it comes
      before a title word equal to it. */
  lemma FirstHitExample()
    ensures FirstMatch("bat", ["batman", "bat"]) == Some(PartialWord)
  {
    assert "batman"[0..3] == "bat";
    ContainsAtSomePosition("batman", "bat");
    assert OccursAt("batman", "bat", 0);
  }

  /** Every query word is counted once, so when the loop completes the two ratios add
      up to one and the test for less than 60% never rejects anything. */
  lemma MatchThresholdUnreachable(queryWords: seq<string>, titleWords: seq<string>)
    requires queryWords != [] && TallyWords(queryWords, titleWords).Some?
    ensures var t := TallyWords(queryWords, titleWords).value;
      var total := |queryWords| as real;
      t.exact as real / total + t.partial as real / total == 1.0
  {
    var t := TallyWords(queryWords, titleWords).value;
    var total := |queryWords| as real;
    assert t.exact as real + t.partial as real == total;
    RatiosOfWhole(t.exact as real, t.partial as real, total);
  }

  lemma RatiosOfWhole(a: real, b: real, total: real)
    requires total > 0.0 && a + b == total
    ensures a / total + b / total == 1.0
  {
    assert a / total + b / total == (a + b) / total;
  }

  /** On the word path the score is the weighted formula: the 60% test is dead code. */
  lemma WordScoreOfTally(queryWords: seq<string>, titleWords: seq<string>, popularity: real)
    requires queryWords != [] && TallyWords(queryWords, titleWords).Some?
    ensures var t := TallyWords(queryWords, titleWords).value;
      var total := |queryWords| as real;
      WordScore(queryWords, titleWords, popularity) ==
        Round(t.exact as real / total * 60.0 + t.partial as real / total * 30.0 + PopularityBoost(popularity))
  {
    MatchThresholdUnreachable(queryWords, titleWords);
  }

  /** A word-matched item with a non-negative popularity scores between 30 and 70. */
  lemma WordScoreRange(queryWords: seq<string>, titleWords: seq<string>, popularity: real)
    requires queryWords != [] && TallyWords(queryWords, titleWords).Some?
    requires popularity >= 0.0
    ensures 30 <= WordScore(queryWords, titleWords, popularity) <= 70
  {
    MatchThresholdUnreachable(queryWords, titleWords);
    var t := TallyWords(queryWords, titleWords).value;
    var total := |queryWords| as real;
    var e := t.exact as real / total;
    var p := t.partial as real / total;
    assert e >= 0.0 && p >= 0.0 && e + p == 1.0;
    var x := e * 60.0 + p * 30.0 + PopularityBoost(popularity);
    assert 30.0 <= x <= 70.0;
  }

  /** The word score never exceeds 70, whatever the popularity. */
  lemma WordScoreAtMost70(queryWords: seq<string>, titleWords: seq<string>, popularity: real)
    requires queryWords != []
    ensures WordScore(queryWords, titleWords, popularity) <= 70
  {
    if TallyWords(queryWords, titleWords).Some? {
      MatchThresholdUnreachable(queryWords, titleWords);
      var t := TallyWords(queryWords, titleWords).value;
      var total := |queryWords| as real;
      var e := t.exact as real / total;
      var p := t.partial as real / total;
      assert e >= 0.0 && p >= 0.0 && e + p == 1.0;
    }
  }

  /** 100 exactly when the lowercased title equals the lowercased, trimmed query. */
  lemma ExactTitleIff(title: string, searchQuery: string, popularity: real)
    ensures RelevanceScore(title, searchQuery, popularity) == 100 <==>
      ToLower(title) == Trim(ToLower(searchQuery))
  {
    var t := ToLower(title);
    var q := Trim(ToLower(searchQuery));
    if t != q && !StartsWith(t, q) {
      WordsOfNonBlank(q);
      WordScoreAtMost70(Words(q), Split(t, ' '), popularity);
    }
  }

  /** 90 exactly when the lowercased title starts with, but is not, the query. */
  lemma PrefixTitleIff(title: string, searchQuery: string, popularity: real)
    ensures RelevanceScore(title, searchQuery, popularity) == 90 <==>
      ToLower(title) != Trim(ToLower(searchQuery)) &&
      StartsWith(ToLower(title), Trim(ToLower(searchQuery)))
  {
    var t := ToLower(title);
    var q := Trim(ToLower(searchQuery));
    if t != q && !StartsWith(t, q) {
      WordsOfNonBlank(q);
      WordScoreAtMost70(Words(q), Split(t, ' '), popularity);
    }
  }

  /** A query word that no title word matches, by equality or by inclusion either way,
      rejects an item that is not a prefix match, whatever the other words do. With a
      non-negative popularity that is the only way to score 0. */
  lemma ZeroScoreIff(title: string, searchQuery: string, popularity: real)
    requires popularity >= 0.0
    ensures var t := ToLower(title);
      var q := Trim(ToLower(searchQuery));
      RelevanceScore(title, searchQuery, popularity) == 0 <==>
        !StartsWith(t, q) &&
        exists i :: 0 <= i < |Words(q)| && FirstMatch(Words(q)[i], Split(t, ' ')).None?
  {
    var t := ToLower(title);
    var q := Trim(ToLower(searchQuery));
    if t != q && !StartsWith(t, q) {
      WordsOfNonBlank(q);
      TallyNoneIff(Words(q), Split(t, ' '));
      if TallyWords(Words(q), Split(t, ' ')).Some? {
        WordScoreRange(Words(q), Split(t, ' '), popularity);
      }
    }
  }

  /** With a non-negative popularity the score is 100, 90, 0 or lies in [30, 70]; so a
      word-matched item always ranks below every prefix and exact title match. */
  lemma ScoreLevels(title: string, searchQuery: string, popularity: real)
    requires popularity >= 0.0
    ensures var score := RelevanceScore(title, searchQuery, popularity);
      score == 100 || score == 90 || score == 0 || 30 <= score <= 70
  {
    var t := ToLower(title);
    var q := Trim(ToLower(searchQuery));
    if t != q && !StartsWith(t, q) {
      WordsOfNonBlank(q);
      if TallyWords(Words(q), Split(t, ' ')).Some? {
        WordScoreRange(Words(q), Split(t, ' '), popularity);
      }
    }
  }

  lemma RoundMonotone(x: real, y: real)
    requires x <= y
    ensures Round(x) <= Round(y)
  {
  }

  /** For a fixed title and query the score never decreases as popularity grows. */
  lemma ScoreMonotoneInPopularity(title: string, searchQuery: string, p1: real, p2: real)
    requires p1 <= p2
    ensures RelevanceScore(title, searchQuery, p1) <= RelevanceScore(title, searchQuery, p2)
  {
    var t := ToLower(title);
    var q := Trim(ToLower(searchQuery));
    if t != q && !StartsWith(t, q) {
      WordsOfNonBlank(q);
      var qws := Words(q);
      var tws := Split(t, ' ');
      if TallyWords(qws, tws).Some? {
        MatchThresholdUnreachable(qws, tws);
        var tally := TallyWords(qws, tws).value;
        var total := |qws| as real;
        var base := tally.exact as real / total * 60.0 + tally.partial as real / total * 30.0;
        assert PopularityBoost(p1) <= PopularityBoost(p2);
        RoundMonotone(base + PopularityBoost(p1), base + PopularityBoost(p2));
      }
    }
  }

  /** An empty title word (from an empty title, a leading or trailing space, or two spaces
      in a row) is included in every query word, so no query word goes unmatched. */
  lemma {:induction false} EmptyTitleWordMatchesEveryWord(queryWords: seq<string>, titleWords: seq<string>)
    requires [] in titleWords
    ensures TallyWords(queryWords, titleWords).Some?
  {
    var k :| 0 <= k < |titleWords| && titleWords[k] == [];
    forall i | 0 <= i < |queryWords| ensures FirstMatch(queryWords[i], titleWords).Some? {
      assert WordsMatch(queryWords[i], titleWords[k]);
    }
    TallyNoneIff(queryWords, titleWords);
  }

  /** Hence an item whose title has an empty word scores at least 30 on every query. */
  lemma EmptyTitleWordAcceptsEveryQuery(title: string, searchQuery: string, popularity: real)
    requires popularity >= 0.0
    requires [] in Split(ToLower(title), ' ')
    ensures RelevanceScore(title, searchQuery, popularity) >= 30
  {
    var t := ToLower(title);
    var q := Trim(ToLower(searchQuery));
    if t != q && !StartsWith(t, q) {
      WordsOfNonBlank(q);
      EmptyTitleWordMatchesEveryWord(Words(q), Split(t, ' '));
      WordScoreRange(Words(q), Split(t, ' '), popularity);
    }
  }

  /** An item with neither a title nor a name matches any non-blank query. */
  lemma UntitledItemExample(title: string, query: string)
    requires title == "" && query == "zzz"
    ensures RelevanceScore(title, query, 0.0) == 30
  {
    UntitledQuery(query);
    UntitledSingleWord(title, query);
  }

  /** An item with neither a title nor a name and popularity 0 scores 30 against any
      query that is a single word once trimmed. */
  lemma UntitledSingleWord(title: string, searchQuery: string)
    requires title == []
    requires Words(Trim(ToLower(searchQuery))) == [Trim(ToLower(searchQuery))]
    ensures RelevanceScore(title, searchQuery, 0.0) == 30
  {
    var q := Trim(ToLower(searchQuery));
    assert q in Words(q);
    assert ToLower(title) == [];
    assert Split(ToLower(title), ' ') == [[]];
    ScoreOnWordPath(title, searchQuery, 0.0);
    OneWordAgainstEmptyTitle(q);
    OnePartial([q], [[]]);
  }

  /** A single non-empty query word is a partial match of the one empty title word. */
  lemma OneWordAgainstEmptyTitle(w: string)
    requires w != []
    ensures TallyWords([w], [[]]) == Some(Tally(0, 1))
  {
    assert FirstMatch(w, [[]]) == Some(PartialWord);
    assert [w][..0] == [];
  }

  /** One query word, matched partially, with popularity 0: 30 points. */
  lemma OnePartial(queryWords: seq<string>, titleWords: seq<string>)
    requires |queryWords| == 1 && TallyWords(queryWords, titleWords) == Some(Tally(0, 1))
    ensures WordScore(queryWords, titleWords, 0.0) == 30
  {
    WordScoreOfTally(queryWords, titleWords, 0.0);
    RoundWhole(30);
  }

  lemma UntitledQuery(q: string)
    requires q == "zzz"
    ensures Trim(ToLower(q)) == q && Words(q) == [q]
  {
    assert forall i :: 0 <= i < |q| ==> q[i] == 'z';
    ToLowerUnchanged(q);
    TrimUnchanged(q);
    SplitWithoutSeparator(q, ' ');
  }

  /** "Batman" against the query "batman": an exact match after lowercasing. */
  lemma ExactTitleExample()
    ensures RelevanceScore("Batman", "batman", 50.0) == 100
  {
    var q := "batman";
    assert ToLower("Batman") == q by {
      forall i | 0 <= i < |q| ensures ToLower("Batman")[i] == q[i] {
      }
    }
    ToLowerUnchanged(q);
    TrimUnchanged(q);
  }

  /** "Batman Begins" against "bat man begins": "bat" and "man" are partial matches of
      "batman" and "begins" is an exact match, so the score is
      round(60 * 1/3 + 30 * 2/3 + 0.8 * 10) = 48. */
  lemma WordMatchExample(title: string, query: string)
    requires title == "Batman Begins" && query == "bat man begins"
    ensures RelevanceScore(title, query, 80.0) == 48
  {
    ExampleTitle();
    ExampleQuery();
    assert |"batman begins"| < |"bat man begins"|;
    ScoreOnWordPath(title, query, 80.0);
    ExampleTally();
    OneExactTwoPartial(["bat", "man", "begins"], ["batman", "begins"]);
  }

  /** With one exact and two partial matches out of three query words and a popularity
      of 80, the formula gives 60/3 + 60/3 + 8 = 48. */
  lemma OneExactTwoPartial(queryWords: seq<string>, titleWords: seq<string>)
    requires |queryWords| == 3 && TallyWords(queryWords, titleWords) == Some(Tally(1, 2))
    ensures WordScore(queryWords, titleWords, 80.0) == 48
  {
    WordScoreOfTally(queryWords, titleWords, 80.0);
    assert PopularityBoost(80.0) == 8.0;
    var x := 1.0 / 3.0 * 60.0 + 2.0 / 3.0 * 30.0 + PopularityBoost(80.0);
    assert x == 48.0;
    RoundWhole(48);
  }

  lemma RoundWhole(n: int)
    ensures Round(n as real) == n
  {
  }

  lemma ExampleTitle()
    ensures ToLower("Batman Begins") == "batman begins"
    ensures Split("batman begins", ' ') == ["batman", "begins"]
  {
    var t := "batman begins";
    assert ToLower("Batman Begins") == t by {
      forall i | 0 <= i < |t| ensures ToLower("Batman Begins")[i] == t[i] {
      }
    }
    var tws := ["batman", "begins"];
    assert Join(["begins"], ' ') == "begins";
    assert Join(tws, ' ') == t;
    SplitJoin(tws, ' ');
  }

  lemma ExampleQuery()
    ensures Trim(ToLower("bat man begins")) == "bat man begins"
    ensures Words("bat man begins") == ["bat", "man", "begins"]
  {
    var q := "bat man begins";
    ToLowerUnchanged(q);
    TrimUnchanged(q);
    ExampleQueryWords(q);
  }

  lemma ExampleQueryWords(q: string)
    requires q == "bat man begins"
    ensures Words(q) == ["bat", "man", "begins"]
  {
    var qws := ["bat", "man", "begins"];
    assert Join(["begins"], ' ') == "begins";
    assert Join(["man", "begins"], ' ') == "man begins";
    assert Join(qws, ' ') == q;
    SplitJoin(qws, ' ');
    Seqs.FilterKeepsAll(qws, IsNonEmpty);
  }

  lemma ExampleTally()
    ensures TallyWords(["bat", "man", "begins"], ["batman", "begins"]) == Some(Tally(1, 2))
  {
    var tws := ["batman", "begins"];
    var qws := ["bat", "man", "begins"];
    ExampleMatches(tws);
    assert qws[..0] == [];
    TallyStep(qws, tws, 0, Tally(0, 0), PartialWord);
    TallyStep(qws, tws, 1, Tally(0, 1), PartialWord);
    TallyStep(qws, tws, 2, Tally(0, 2), ExactWord);
    assert qws[..3] == qws;
  }

  lemma ExampleMatches(tws: seq<string>)
    requires tws == ["batman", "begins"]
    ensures FirstMatch("bat", tws) == Some(PartialWord)
    ensures FirstMatch("man", tws) == Some(PartialWord)
    ensures FirstMatch("begins", tws) == Some(ExactWord)
  {
    assert OccursAt("batman", "bat", 0);
    ContainsAtSomePosition("batman", "bat");
    assert OccursAt("batman", "man", 3);
    ContainsAtSomePosition("batman", "man");
    ExampleBeginsMatch(tws);
  }

  lemma ExampleBeginsMatch(tws: seq<string>)
    requires tws == ["batman", "begins"]
    ensures FirstMatch("begins", tws) == Some(ExactWord)
  {
    var bat, beg := "batman", "begins";
    ContainsSameLength(bat, beg);
    ContainsSameLength(beg, bat);
    assert bat[1] != beg[1];
    assert FirstMatch("begins", tws[1..]) == Some(ExactWord);
  }
}
