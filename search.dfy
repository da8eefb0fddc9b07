/** The search pipeline that runs once both catalogue searches have answered: tag each
    result with its catalogue, keep the results with a poster, score them against the
    query, drop the irrelevant ones, rank them and keep the best twelve. */
module Search {
  import opened Wrappers
  import Seqs
  import opened Text
  import opened Media
  import Relevance

  /** Queries whose trimmed form is shorter than this are not searched. */
  const MinQueryLength := 2
  /** At most this many results are returned. */
  const MaxResults := 12

  /** Either catalogue search failed, or its answer carried no `results` list. */
  datatype SearchError = SearchFailed

  /** A search result together with the catalogue it came from (`media_type`). */
  datatype Tagged = Tagged(item: SearchItem, mediaType: MediaType)

  /** A tagged result together with its relevance score (`relevanceScore`). */
  datatype Candidate = Candidate(item: SearchItem, mediaType: MediaType, relevanceScore: int)

  function Tag(items: seq<SearchItem>, mediaType: MediaType): seq<Tagged> {
    seq(|items|, i requires 0 <= i < |items| => Tagged(items[i], mediaType))
  }

  predicate HasPoster(t: Tagged) {
    IsTruthy(t.item.posterPath)
  }

  /** `calculateRelevanceScore(item, query)` as a function of the item: the pipeline
      below is written for any scorer and applied to this one. */
  function Scorer(query: string): SearchItem -> int {
    item => Relevance.ItemScore(item, query)
  }

  function Score(scoreOf: SearchItem -> int, t: Tagged): Candidate {
    Candidate(t.item, t.mediaType, scoreOf(t.item))
  }

  function ScoreAll(scoreOf: SearchItem -> int, tagged: seq<Tagged>): (r: seq<Candidate>)
    ensures |r| == |tagged|
    ensures forall i :: 0 <= i < |r| ==> r[i] == Score(scoreOf, tagged[i])
  {
    seq(|tagged|, i requires 0 <= i < |tagged| => Score(scoreOf, tagged[i]))
  }

  predicate IsRelevant(c: Candidate) {
    c.relevanceScore > 0
  }

  /** The poster filter, the scoring and the relevance filter, in that order. */
  function Screen(scoreOf: SearchItem -> int, tagged: seq<Tagged>): seq<Candidate> {
    Seqs.Filter(ScoreAll(scoreOf, Seqs.Filter(tagged, HasPoster)), IsRelevant)
  }

  /** A candidate survives the screen exactly when it is the scored form of a tagged
      result that has a poster and a positive score. */
  lemma ScreenMembers(scoreOf: SearchItem -> int, tagged: seq<Tagged>)
    ensures forall c :: c in Screen(scoreOf, tagged) ==>
      IsRelevant(c) && IsTruthy(c.item.posterPath) &&
      c.relevanceScore == scoreOf(c.item) &&
      Tagged(c.item, c.mediaType) in tagged
    ensures forall t :: t in tagged && HasPoster(t) && IsRelevant(Score(scoreOf, t)) ==>
      Score(scoreOf, t) in Screen(scoreOf, tagged)
  {
    var withPoster := Seqs.Filter(tagged, HasPoster);
    var scored := ScoreAll(scoreOf, withPoster);
    forall c | c in Screen(scoreOf, tagged)
      ensures c.relevanceScore == scoreOf(c.item) && Tagged(c.item, c.mediaType) in withPoster
    {
      var i :| 0 <= i < |scored| && scored[i] == c;
      assert withPoster[i] == Tagged(c.item, c.mediaType);
    }
    forall t | t in withPoster ensures Score(scoreOf, t) in scored {
      var i :| 0 <= i < |withPoster| && withPoster[i] == t;
      assert scored[i] == Score(scoreOf, t);
    }
  }

  /** The candidates of both catalogues that reach the ranking: movies first, then series. */
  function Eligible(query: string, movies: seq<SearchItem>, tvShows: seq<SearchItem>): seq<Candidate> {
    Screen(Scorer(query), Tag(movies, Movie) + Tag(tvShows, Tv))
  }

  /** Equal score and equal popularity: the comparator returns 0 for such a pair. */
  predicate SameRank(a: Candidate, b: Candidate) {
    a.relevanceScore == b.relevanceScore && a.item.popularity == b.item.popularity
  }

  /** `a` sorts strictly before `b`: a higher score, or the same score and a higher
      popularity. */
  predicate Outranks(a: Candidate, b: Candidate) {
    a.relevanceScore > b.relevanceScore ||
    (a.relevanceScore == b.relevanceScore && a.item.popularity > b.item.popularity)
  }

  /** No candidate is outranked by one that comes after it. */
  predicate RankOrdered(s: seq<Candidate>) {
    forall i, j :: 0 <= i < j < |s| ==> !Outranks(s[j], s[i])
  }

  /** Puts `x` in front of the first candidate that does not outrank it. */
  function InsertByRank(x: Candidate, t: seq<Candidate>): (r: seq<Candidate>)
    ensures multiset(r) == multiset(t) + multiset{x}
  {
    if t == [] || !Outranks(t[0], x) then [x] + t
    else
      assert t == [t[0]] + t[1..];
      [t[0]] + InsertByRank(x, t[1..])
  }

  /** The comparator sort of the candidates, as the stable sort of the language runtime
      performs it: by score, then by popularity, both descending, ties in list order. */
  function SortByRelevance(s: seq<Candidate>): (r: seq<Candidate>)
    ensures multiset(r) == multiset(s)
  {
    if s == [] then []
    else
      assert s == [s[0]] + s[1..];
      InsertByRank(s[0], SortByRelevance(s[1..]))
  }

  /** The candidates of `s` that rank the same as `c`, in their order in `s`. */
  function Ties(s: seq<Candidate>, c: Candidate): seq<Candidate> {
    if s == [] then [] else TieOf(s[0], c) + Ties(s[1..], c)
  }

  /** `[x]` when `x` ranks the same as `c`, otherwise nothing. */
  function TieOf(x: Candidate, c: Candidate): seq<Candidate> {
    if SameRank(x, c) then [x] else []
  }

  /** The sorted candidates, cut to the first `MaxResults`. */
  function TopRanked(eligible: seq<Candidate>): (r: seq<Candidate>)
    ensures |r| <= MaxResults
    ensures multiset(r) <= multiset(eligible)
  {
    var sorted := SortByRelevance(eligible);
    var r := Seqs.Take(sorted, MaxResults);
    assert sorted == r + sorted[|r|..];
    r
  }

  /** A missing, empty or (once trimmed) one-character query is answered with no results. */
  predicate IsRejectedQuery(query: string) {
    query == [] || |Trim(query)| < MinQueryLength
  }

  /** The whole search once both catalogue answers are in: `None` stands for a search
      that failed or an answer without a `results` list, either of which makes the
      search fail. A rejected query is answered before any search is made. */
  function SearchMovies(query: string, moviesResponse: Option<seq<SearchItem>>, tvResponse: Option<seq<SearchItem>>):
    (r: Result<seq<Candidate>, SearchError>)
    ensures IsRejectedQuery(query) ==> r == Success([])
    ensures r.Failure? <==> !IsRejectedQuery(query) && (moviesResponse.None? || tvResponse.None?)
    ensures r.Success? ==> |r.value| <= MaxResults
  {
    if IsRejectedQuery(query) then Success([])
    else if moviesResponse.None? || tvResponse.None? then Failure(SearchFailed)
    else Success(TopRanked(Eligible(query, moviesResponse.value, tvResponse.value)))
  }

  // ---------------------------------------------------------------------------
  // The sort

  lemma {:induction false} InsertKeepsOrder(x: Candidate, t: seq<Candidate>)
    requires RankOrdered(t)
    ensures RankOrdered(InsertByRank(x, t))
    decreases |t|
  {
    if t == [] || !Outranks(t[0], x) {
      var r := [x] + t;
      forall i, j | 0 <= i < j < |r| ensures !Outranks(r[j], r[i]) {
        if i == 0 && j > 1 {
          assert !Outranks(t[j - 1], t[0]);
        }
      }
    } else {
      InsertKeepsOrder(x, t[1..]);
      var rest := InsertByRank(x, t[1..]);
      var r := [t[0]] + rest;
      forall i, j | 0 <= i < j < |r| ensures !Outranks(r[j], r[i]) {
        if i == 0 {
          var y := rest[j - 1];
          assert y in multiset(rest);
          if y != x {
            assert y in t[1..];
            var k :| 0 <= k < |t[1..]| && t[1..][k] == y;
            assert t[k + 1] == y;
          }
        } else {
          assert r[i] == rest[i - 1] && r[j] == rest[j - 1];
        }
      }
    }
  }

  lemma {:induction false} SortOrdered(s: seq<Candidate>)
    ensures RankOrdered(SortByRelevance(s))
    decreases |s|
  {
    if s != [] {
      SortOrdered(s[1..]);
      InsertKeepsOrder(s[0], SortByRelevance(s[1..]));
    }
  }

  lemma TiesCons(x: Candidate, t: seq<Candidate>, c: Candidate)
    ensures Ties([x] + t, c) == TieOf(x, c) + Ties(t, c)
  {
    assert ([x] + t)[0] == x;
    assert ([x] + t)[1..] == t;
  }

  lemma {:induction false} InsertTies(x: Candidate, t: seq<Candidate>, c: Candidate)
    ensures Ties(InsertByRank(x, t), c) == TieOf(x, c) + Ties(t, c)
    decreases |t|
  {
    if t == [] || !Outranks(t[0], x) {
      TiesCons(x, t, c);
    } else {
      var rest := InsertByRank(x, t[1..]);
      InsertTies(x, t[1..], c);
      assert InsertByRank(x, t) == [t[0]] + rest;
      TiesCons(t[0], rest, c);
      assert t == [t[0]] + t[1..];
      TiesCons(t[0], t[1..], c);
      TiesCommute(t[0], x, c, Ties(t[1..], c));
    }
  }

  /** A candidate that outranks `x` cannot rank the same as `c` when `x` does, so the
      two may be listed in either order. */
  lemma TiesCommute(y: Candidate, x: Candidate, c: Candidate, u: seq<Candidate>)
    requires Outranks(y, x)
    ensures TieOf(y, c) + (TieOf(x, c) + u) == TieOf(x, c) + (TieOf(y, c) + u)
  {
    if SameRank(x, c) {
      assert TieOf(y, c) == [];
    } else {
      assert TieOf(x, c) == [];
    }
  }

  /** Stability: candidates that rank the same keep their relative order. */
  lemma {:induction false} SortTies(s: seq<Candidate>, c: Candidate)
    ensures Ties(SortByRelevance(s), c) == Ties(s, c)
    decreases |s|
  {
    if s != [] {
      SortTies(s[1..], c);
      InsertTies(s[0], SortByRelevance(s[1..]), c);
      assert s == [s[0]] + s[1..];
      TiesCons(s[0], s[1..], c);
    }
  }

  lemma {:induction false} TiesAppend(a: seq<Candidate>, b: seq<Candidate>, c: Candidate)
    ensures Ties(a + b, c) == Ties(a, c) + Ties(b, c)
    decreases |a|
  {
    if a == [] {
      assert a + b == b;
    } else {
      TiesAppend(a[1..], b, c);
      assert a + b == [a[0]] + (a[1..] + b);
      TiesCons(a[0], a[1..] + b, c);
      var h, ta, tb := TieOf(a[0], c), Ties(a[1..], c), Ties(b, c);
      assert h + (ta + tb) == (h + ta) + tb;
    }
  }

  lemma TiesPrefix(s: seq<Candidate>, k: nat, c: Candidate)
    requires k <= |s|
    ensures Ties(s[..k], c) <= Ties(s, c)
  {
    assert s == s[..k] + s[k..];
    TiesAppend(s[..k], s[k..], c);
  }

  // ---------------------------------------------------------------------------
  // The pipeline

  lemma ScoreAllAppend(scoreOf: SearchItem -> int, a: seq<Tagged>, b: seq<Tagged>)
    ensures ScoreAll(scoreOf, a + b) == ScoreAll(scoreOf, a) + ScoreAll(scoreOf, b)
  {
    var l, r := ScoreAll(scoreOf, a + b), ScoreAll(scoreOf, a) + ScoreAll(scoreOf, b);
    forall i | 0 <= i < |l| ensures l[i] == r[i] {
      if i < |a| {
        assert (a + b)[i] == a[i];
      } else {
        assert (a + b)[i] == b[i - |a|];
      }
    }
  }

  lemma ScreenAppend(scoreOf: SearchItem -> int, a: seq<Tagged>, b: seq<Tagged>)
    ensures Screen(scoreOf, a + b) == Screen(scoreOf, a) + Screen(scoreOf, b)
  {
    Seqs.FilterAppend(a, b, HasPoster);
    var pa := Seqs.Filter(a, HasPoster);
    var pb := Seqs.Filter(b, HasPoster);
    ScoreAllAppend(scoreOf, pa, pb);
    Seqs.FilterAppend(ScoreAll(scoreOf, pa), ScoreAll(scoreOf, pb), IsRelevant);
  }

  /** The kept candidates come out best first. */
  lemma TopRankedOrdered(eligible: seq<Candidate>)
    ensures RankOrdered(TopRanked(eligible))
  {
    var sorted := SortByRelevance(eligible);
    SortOrdered(eligible);
    assert TopRanked(eligible) == sorted[..|TopRanked(eligible)|];
  }

  /** A candidate is left out only when `MaxResults` candidates are kept and none of
      them ranks below it; as many candidates are kept as there are, up to `MaxResults`. */
  lemma TopRankedKeepsBest(eligible: seq<Candidate>)
    ensures |TopRanked(eligible)| == if |eligible| < MaxResults then |eligible| else MaxResults
    ensures forall x :: x in eligible ==>
      x in TopRanked(eligible) ||
      (|TopRanked(eligible)| == MaxResults && forall c :: c in TopRanked(eligible) ==> !Outranks(x, c))
  {
    var sorted := SortByRelevance(eligible);
    var r := TopRanked(eligible);
    SortOrdered(eligible);
    assert |sorted| == |eligible| by {
      assert |multiset(sorted)| == |multiset(eligible)|;
    }
    assert r == sorted[..|r|];
    forall x | x in eligible
      ensures x in r || (|r| == MaxResults && forall c :: c in r ==> !Outranks(x, c))
    {
      assert x in multiset(sorted);
      var k :| 0 <= k < |sorted| && sorted[k] == x;
      if k < |r| {
        assert r[k] == x;
      } else {
        forall c | c in r ensures !Outranks(x, c) {
          var i :| 0 <= i < |r| && r[i] == c;
          assert sorted[i] == c;
        }
      }
    }
  }

  /** Kept candidates that rank the same appear in their order in `eligible`. */
  lemma TopRankedTies(eligible: seq<Candidate>, c: Candidate)
    ensures Ties(TopRanked(eligible), c) <= Ties(eligible, c)
  {
    var sorted := SortByRelevance(eligible);
    SortTies(eligible, c);
    assert TopRanked(eligible) == sorted[..|TopRanked(eligible)|];
    TiesPrefix(sorted, |TopRanked(eligible)|, c);
  }

  /** Every result has a poster, a positive score that is its relevance to the query,
      and comes from the answer of the catalogue it is tagged with. */
  lemma SearchResultsWellFormed(query: string, moviesResponse: Option<seq<SearchItem>>,
                                tvResponse: Option<seq<SearchItem>>, r: seq<Candidate>)
    requires SearchMovies(query, moviesResponse, tvResponse) == Success(r)
    ensures |r| <= MaxResults
    ensures forall c :: c in r ==>
      IsTruthy(c.item.posterPath) && c.relevanceScore > 0 &&
      c.relevanceScore == Relevance.ItemScore(c.item, query) &&
      (c.mediaType == Movie ==> moviesResponse.Some? && c.item in moviesResponse.value) &&
      (c.mediaType == Tv ==> tvResponse.Some? && c.item in tvResponse.value)
  {
    if !IsRejectedQuery(query) {
      var movies, tvShows := moviesResponse.value, tvResponse.value;
      var tagged := Tag(movies, Movie) + Tag(tvShows, Tv);
      ScreenMembers(Scorer(query), tagged);
      forall c | c in r
        ensures c in Screen(Scorer(query), tagged)
        ensures c.mediaType == Movie ==> c.item in movies
        ensures c.mediaType == Tv ==> c.item in tvShows
      {
        assert c in multiset(Screen(Scorer(query), tagged));
        TaggedOrigin(movies, tvShows, Tagged(c.item, c.mediaType));
      }
    }
  }

  lemma TaggedOrigin(movies: seq<SearchItem>, tvShows: seq<SearchItem>, t: Tagged)
    requires t in Tag(movies, Movie) + Tag(tvShows, Tv)
    ensures t.mediaType == Movie ==> t.item in movies
    ensures t.mediaType == Tv ==> t.item in tvShows
  {
    if t in Tag(movies, Movie) {
      var i :| 0 <= i < |movies| && Tag(movies, Movie)[i] == t;
    } else {
      var i :| 0 <= i < |tvShows| && Tag(tvShows, Tv)[i] == t;
    }
  }

  /** The results come out best first. */
  lemma SearchResultsOrdered(query: string, moviesResponse: Option<seq<SearchItem>>,
                             tvResponse: Option<seq<SearchItem>>, r: seq<Candidate>)
    requires SearchMovies(query, moviesResponse, tvResponse) == Success(r)
    ensures RankOrdered(r)
  {
    if !IsRejectedQuery(query) {
      TopRankedOrdered(Eligible(query, moviesResponse.value, tvResponse.value));
    }
  }

  /** Nothing eligible is left out unless twelve results are returned and none of them
      ranks below it; and the results are as many as the eligible candidates, up to twelve. */
  lemma SearchResultsTopRanked(query: string, movies: seq<SearchItem>, tvShows: seq<SearchItem>, r: seq<Candidate>)
    requires SearchMovies(query, Some(movies), Some(tvShows)) == Success(r)
    requires !IsRejectedQuery(query)
    ensures |r| == if |Eligible(query, movies, tvShows)| < MaxResults then |Eligible(query, movies, tvShows)| else MaxResults
    ensures forall x :: x in Eligible(query, movies, tvShows) ==>
      x in r || (|r| == MaxResults && forall c :: c in r ==> !Outranks(x, c))
  {
    TopRankedKeepsBest(Eligible(query, movies, tvShows));
  }

  /** Results that rank the same appear in the order the catalogues listed them, movies
      before series. */
  lemma SearchTiesInListOrder(query: string, movies: seq<SearchItem>, tvShows: seq<SearchItem>,
                              r: seq<Candidate>, c: Candidate)
    requires SearchMovies(query, Some(movies), Some(tvShows)) == Success(r)
    requires !IsRejectedQuery(query)
    ensures Ties(r, c) <= Ties(Screen(Scorer(query), Tag(movies, Movie)), c) + Ties(Screen(Scorer(query), Tag(tvShows, Tv)), c)
  {
    var eligible := Eligible(query, movies, tvShows);
    ScreenAppend(Scorer(query), Tag(movies, Movie), Tag(tvShows, Tv));
    TiesAppend(Screen(Scorer(query), Tag(movies, Movie)), Screen(Scorer(query), Tag(tvShows, Tv)), c);
    TopRankedTies(eligible, c);
  }
}
