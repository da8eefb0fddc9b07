# Movie search service: relevance, ranking and streaming providers

This project models the core of the movie and series search service of a small React
application (`src/services/tmdbService.js`). The core has three parts:

- **The relevance scorer** (`calculateRelevanceScore`). It rates a search result's title
  against the user's query:
  - 100 for an exact title match;
  - 90 when the title starts with the query;
  - otherwise a score built from how each query word matches the title words, plus a
    popularity boost.

  A query word that matches no title word rejects the result with 0.
- **The search pipeline** (`searchMovies`, once both catalogue searches have answered).
  It tags the movie and series results with their catalogue and keeps those with a
  poster. Then it scores them, keeps the relevant ones, ranks them by score and then by
  popularity, and returns at most twelve.
- **The watch-provider pipeline** (`getWatchProviders`, once the lookup has answered).
  It takes the United States subscription offers only and sorts them by name length. It
  keeps one offer per streaming brand (`getBaseName`), points every kept offer to the
  region's page, and returns at most six.

Modules, one file each:

- `wrappers.dfy`: `Option` and `Result`.
- `seqs.dfy`: `filter` and `slice`.
- `text.dfy`: the JavaScript string built-ins the service uses.
- `media.dfy`: search results and their display title.
- `relevance.dfy`: the scorer.
- `search.dfy`: the search pipeline.
- `providers.dfy`: the provider pipeline.

Each part takes the form of its source:

- The scorer's nested loops are the method `Relevance.CalculateRelevanceScore`, with its
  word loops in `Relevance.ScoreWords`. `ScoreWords` is proved equal to the function
  `Relevance.WordScore`, and `CalculateRelevanceScore` to `Relevance.ItemScore`, which is
  `Relevance.RelevanceScore` applied to the item's display title and popularity. The
  properties are proved about these functions.
- The search pipeline is a chain of array methods, so it is a chain of functions.
- The provider pipeline is the method `Providers.GetWatchProviders`. Its deduplication
  loop, with the set of base names seen so far, is `Providers.DeduplicateByBaseName`. Its
  link-stamping `forEach` is `Providers.SetLinks`. All three are proved equal to the
  functions `Providers.ResolveProviders`, `Providers.Dedup` and `Providers.StampLink`.

Where the code departs from what its comments and names suggest, the model follows the
code:

- The query is split on the space character only, not on any whitespace.
- The link is stamped only when it is truthy and at least one provider is kept.
- The test that "at least 60% of the query words match" is in the model, but it can never
  reject anything. Any unmatched word has already returned 0, so when the test is reached
  the two ratios always add up to one (`Relevance.MatchThresholdUnreachable`).

Other behaviours the proofs bring out:

- A query word takes the kind of the first title word it matches, not the best one
  (`Relevance.FirstHitExample`).
- An empty title word matches every query word, so a title with a double space, or an
  item without a title, scores at least 30 on every query when its popularity is not
  negative (`Relevance.EmptyTitleWordAcceptsEveryQuery`).
- A provider name is filed under the first brand of the table it mentions, so
  "Paramount+ Amazon Channel" counts as `amazon` (`Providers.BaseNameFirstBrand`).

## Model

| member | source | states |
|---|---|---|
| Seqs.Filter | src/services/tmdbService.js:96-102 | `filter` keeps exactly the elements that pass the test, each as often as before at most (the order follows from `Seqs.FilterAppend`) |
| Seqs.FilterAppend | src/services/tmdbService.js:96-97 | filtering the concatenation of two lists is concatenating their filtered forms, so the kept elements stay in order |
| Seqs.Take | src/services/tmdbService.js:110 | `slice(0, n)` is the prefix of length min(length, `n`): the first `n` elements, or the whole list when it is shorter |
| Text.ToLowerChar | src/services/tmdbService.js:16-17 | a lowercased character is never an ASCII capital, and non-capitals are unchanged |
| Text.ToLower | src/services/tmdbService.js:16-17 | `toLowerCase` keeps the length and lowercases character by character |
| Text.ToLowerIdempotent | src/services/tmdbService.js:146 | lowercasing twice is lowercasing once |
| Text.ToLowerUnchanged | src/services/tmdbService.js:17 | a string without capitals is its own lowercase form |
| Text.TrimStart | src/services/tmdbService.js:17 | the result is a suffix of the input, everything removed is whitespace, and it does not start with whitespace |
| Text.TrimEnd | src/services/tmdbService.js:17 | the result is a prefix of the input, everything removed is whitespace, and it does not end with whitespace |
| Text.Trim | src/services/tmdbService.js:17 | `trim` never lengthens, and its result neither starts nor ends with whitespace |
| Text.TrimUnchanged | src/services/tmdbService.js:17 | a string that neither starts nor ends with whitespace is its own trimmed form |
| Text.TrimRemovesOnlyWhitespace | src/services/tmdbService.js:17 | `trim` removes a whitespace prefix and a whitespace suffix and nothing else |
| Text.IsTruthy | src/services/tmdbService.js:97 | JavaScript truthiness of an optional string: present and not empty; `Media.DisplayTitle`, `Search.HasPoster` and `Providers.Linked` use it |
| Text.IsWhitespace | src/services/tmdbService.js:17 | the characters `trim` removes; `Text.TrimRemovesOnlyWhitespace` and `Text.TrimUnchanged` use it |
| Text.StartsWith | src/services/tmdbService.js:23 | `startsWith`; its meaning as an occurrence at position 0, and that it implies `includes`, is `Text.StartsWithAtZero` |
| Text.StartsWithAtZero | src/services/tmdbService.js:23 | a string starts with a prefix exactly when the prefix occurs at position 0, and then the string includes it |
| Text.Contains | src/services/tmdbService.js:39 | every string includes the empty string |
| Text.ContainsAtSomePosition | src/services/tmdbService.js:39 | `includes` holds exactly when the substring occurs at some position |
| Text.NoLongerSubstring | src/services/tmdbService.js:39 | no string includes a longer string |
| Text.ContainsSameLength | src/services/tmdbService.js:35-39 | between strings of equal length, `includes` is equality |
| Text.Split | src/services/tmdbService.js:26-27 | `split` gives at least one piece and no piece contains the separator |
| Text.JoinSplit | src/services/tmdbService.js:26-27 | joining the pieces of a split with the separator gives back the string |
| Text.SplitJoin | src/services/tmdbService.js:26-27 | splitting the join of separator-free pieces gives back the pieces |
| Text.SplitAfterWord | src/services/tmdbService.js:26-27 | a separator-free word in front of a text is glued to the first piece of the text |
| Text.SplitWithoutSeparator | src/services/tmdbService.js:26-27 | a string without the separator splits into itself alone |
| Text.Words | src/services/tmdbService.js:26 | the query words are exactly the non-empty pieces of the split on spaces |
| Text.WordsOfNonBlank | src/services/tmdbService.js:26 | a string that does not begin with a space has at least one query word |
| Media.DisplayTitle | src/services/tmdbService.js:16 | the display title is `title` when that is truthy, else `name` or empty, and it is empty exactly when neither is truthy |
| Relevance.FirstMatch | src/services/tmdbService.js:34-44 | the inner loop finds no match exactly when no title word equals, includes or is included in the query word |
| Relevance.WordsMatch | src/services/tmdbService.js:35-39 | a title word matches a query word when the two are equal or one includes the other; `Relevance.FirstMatch` and `Relevance.FirstMatchIsFirstHit` use it |
| Relevance.MinReal | src/services/tmdbService.js:65 | `Math.min` of two exact reals; `Relevance.PopularityBoost` states its bounds |
| Relevance.TallyWords | src/services/tmdbService.js:32-49 | when the outer loop completes, every query word is counted once, as exact or as partial |
| Relevance.TallyStep | src/services/tmdbService.js:32-49 | one pass of the outer loop adds the kind of the query word's first match to the counters |
| Relevance.Round | src/services/tmdbService.js:68 | `Math.round` lands within one half of its argument |
| Relevance.PopularityBoost | src/services/tmdbService.js:65 | the popularity boost is at most 10, and not negative for a non-negative popularity |
| Relevance.WordScore | src/services/tmdbService.js:26-68 | the word-matching score; `Relevance.ScoreWords` computes it, and `Relevance.WordScoreOfTally`, `Relevance.UnmatchedWordRejects`, `Relevance.MatchThresholdUnreachable`, `Relevance.WordScoreRange` and `Relevance.WordScoreAtMost70` state its properties |
| Relevance.RelevanceScore | src/services/tmdbService.js:15-69 | the scorer's value for a title, query and popularity; its properties are `Relevance.ExactTitleIff`, `Relevance.PrefixTitleIff`, `Relevance.ZeroScoreIff`, `Relevance.ScoreLevels` and `Relevance.ScoreMonotoneInPopularity` |
| Relevance.ItemScore | src/services/tmdbService.js:15-17 | `calculateRelevanceScore(item, query)`: `RelevanceScore` of the item's display title and popularity; `Relevance.CalculateRelevanceScore` computes it |
| Relevance.CalculateRelevanceScore | src/services/tmdbService.js:15-69 | the nested loops with their early exits compute the scorer's value `ItemScore` |
| Relevance.ScoreWords | src/services/tmdbService.js:26-68 | the word loops, ratios, threshold and rounding compute `WordScore` |
| Relevance.ScoreOnWordPath | src/services/tmdbService.js:20-27 | past the exact and prefix tests there is at least one query word, and the score is the word score |
| Relevance.UnmatchedWordRejects | src/services/tmdbService.js:45-48 | one query word without a match makes the loops give up, however the other words match |
| Relevance.TallyNoneIff | src/services/tmdbService.js:32-49 | the loops give up exactly when some query word matches no title word |
| Relevance.FirstMatchIsFirstHit | src/services/tmdbService.js:34-43 | a query word takes the kind of the first title word it matches |
| Relevance.FirstHitExample | src/services/tmdbService.js:34-43 | "bat" against ["batman", "bat"] counts as partial, although an equal word follows |
| Relevance.MatchThresholdUnreachable | src/services/tmdbService.js:52-59 | when the loops complete, the exact and partial ratios add up to one, so the 60% test never rejects |
| Relevance.WordScoreOfTally | src/services/tmdbService.js:52-68 | the word score is the rounded weighted ratios plus the popularity boost |
| Relevance.WordScoreRange | src/services/tmdbService.js:52-68 | a fully matched query with a non-negative popularity scores between 30 and 70 |
| Relevance.WordScoreAtMost70 | src/services/tmdbService.js:52-68 | the word score never exceeds 70, whatever the popularity |
| Relevance.ExactTitleIff | src/services/tmdbService.js:16-20 | the score is 100 exactly when the lowercased title equals the lowercased, trimmed query |
| Relevance.PrefixTitleIff | src/services/tmdbService.js:16-23 | the score is 90 exactly when the lowercased title starts with the query but is not equal to it |
| Relevance.ZeroScoreIff | src/services/tmdbService.js:23-49 | with a non-negative popularity, the score is 0 exactly when the title does not start with the query and some query word matches no title word |
| Relevance.ScoreLevels | src/services/tmdbService.js:15-69 | with a non-negative popularity the score is 100, 90, 0 or between 30 and 70, so word matches always rank below prefix and exact matches |
| Relevance.RoundMonotone | src/services/tmdbService.js:68 | `Math.round` is monotone |
| Relevance.ScoreMonotoneInPopularity | src/services/tmdbService.js:61-68 | for a fixed title and query the score never decreases as popularity grows |
| Relevance.EmptyTitleWordMatchesEveryWord | src/services/tmdbService.js:27-44 | an empty title word matches every query word, so the loops always complete |
| Relevance.EmptyTitleWordAcceptsEveryQuery | src/services/tmdbService.js:15-69 | with a non-negative popularity, a title with an empty word scores at least 30 on every query |
| Relevance.UntitledSingleWord | src/services/tmdbService.js:16-68 | an item without a title or name and with popularity 0 scores 30 against any one-word query |
| Relevance.UntitledItemExample | src/services/tmdbService.js:16-68 | an untitled item scores 30 against the query "zzz" |
| Relevance.ExactTitleExample | src/services/tmdbService.js:16-20 | "Batman" scores 100 against the query "batman" |
| Relevance.WordMatchExample | src/services/tmdbService.js:15-69 | "Batman Begins" with popularity 80 scores 48 against "bat man begins" |
| Relevance.OneExactTwoPartial | src/services/tmdbService.js:52-68 | one exact and two partial matches of three words, with popularity 80, score 48 |
| Search.Tag | src/services/tmdbService.js:85-93 | the `map` that marks each result with its catalogue; `Search.TaggedOrigin` and `Search.SearchResultsWellFormed` use it |
| Search.TaggedOrigin | src/services/tmdbService.js:85-96 | a result tagged as a movie comes from the movie results, and one tagged as a series from the series results |
| Search.HasPoster | src/services/tmdbService.js:97 | the poster filter's test, a truthy `poster_path`; `Search.ScreenMembers` uses it |
| Search.Scorer | src/services/tmdbService.js:100 | the scorer applied to each result, `ItemScore` for the query |
| Search.Score | src/services/tmdbService.js:98-101 | a result with its relevance score attached; `Search.ScoreAll` maps it over the results |
| Search.IsRelevant | src/services/tmdbService.js:102 | the relevance filter's test, a positive score; `Search.ScreenMembers` uses it |
| Search.ScoreAll | src/services/tmdbService.js:98-101 | the scoring `map` keeps every result in place and attaches its score |
| Search.Screen | src/services/tmdbService.js:97-102 | the poster filter, the scoring `map` and the relevance filter in a row; `Search.ScreenMembers` and `Search.ScreenAppend` state what it keeps |
| Search.Eligible | src/services/tmdbService.js:96-102 | the screened movies followed by the screened series; `Search.SearchResultsWellFormed` and `Search.SearchTiesInListOrder` state what it holds |
| Search.ScreenMembers | src/services/tmdbService.js:96-102 | a candidate passes the poster filter, scoring and relevance filter exactly when it is a scored result with a poster and a positive score |
| Search.ScreenAppend | src/services/tmdbService.js:96-102 | screening the movies followed by the series is screening each and concatenating |
| Search.InsertByRank | src/services/tmdbService.js:103-109 | one insertion step of the sort adds the candidate and loses none |
| Search.SortByRelevance | src/services/tmdbService.js:103-109 | the sort is a permutation of its input |
| Search.SameRank | src/services/tmdbService.js:103-109 | the pairs the comparator returns 0 for: the same score and the same popularity; `Search.SortTies` keeps their order |
| Search.Outranks | src/services/tmdbService.js:103-109 | the comparator puts `a` strictly before `b`: a higher score, or the same score and a higher popularity |
| Search.RankOrdered | src/services/tmdbService.js:103-109 | no candidate is outranked by one after it; `Search.SortOrdered` and `Search.TopRankedOrdered` prove it of the sort |
| Search.InsertKeepsOrder | src/services/tmdbService.js:103-109 | inserting into a ranked list keeps it ranked |
| Search.SortOrdered | src/services/tmdbService.js:103-109 | no sorted candidate is outranked, by score and then popularity, by one after it |
| Search.InsertTies | src/services/tmdbService.js:103-109 | an insertion step places the inserted candidate in front of every candidate that ranks the same as it |
| Search.SortTies | src/services/tmdbService.js:103-109 | the sort is stable: candidates that rank the same keep their relative order |
| Search.TiesAppend | src/services/tmdbService.js:96 | the equally ranked candidates of a concatenation are those of each part, in order |
| Search.TiesPrefix | src/services/tmdbService.js:110 | a prefix keeps the equally ranked candidates in their order |
| Search.TopRanked | src/services/tmdbService.js:103-110 | at most twelve candidates are kept, all of them eligible |
| Search.TopRankedOrdered | src/services/tmdbService.js:103-110 | the kept candidates come out best first |
| Search.TopRankedKeepsBest | src/services/tmdbService.js:103-110 | min(count, 12) candidates are kept, and a candidate is left out only when twelve are kept and none ranks below it |
| Search.TopRankedTies | src/services/tmdbService.js:103-110 | kept candidates that rank the same appear in their original order |
| Search.IsRejectedQuery | src/services/tmdbService.js:74 | a missing or empty query, or one shorter than two characters once trimmed; `Search.SearchMovies` answers it with no results |
| Search.SearchMovies | src/services/tmdbService.js:72-117 | a missing or too-short query gives no results; otherwise the search fails exactly when either catalogue answer is missing; success has at most twelve results |
| Search.SearchResultsWellFormed | src/services/tmdbService.js:85-102 | every result has a poster and a positive score equal to its relevance to the query, and comes from the catalogue it is tagged with |
| Search.SearchResultsOrdered | src/services/tmdbService.js:103-110 | the results are ranked by score, then popularity, best first |
| Search.SearchResultsTopRanked | src/services/tmdbService.js:96-110 | min(eligible, 12) results are returned, and an eligible candidate is missing only when twelve results rank at least as high |
| Search.SearchTiesInListOrder | src/services/tmdbService.js:85-110 | results that rank the same appear in catalogue order, movies before series |
| Providers.FirstBrand | src/services/tmdbService.js:147-157 | the brand found is in the table and occurs in the name; none is found exactly when no brand of the table occurs |
| Providers.BaseName | src/services/tmdbService.js:145-159 | the base name occurs in the lowercased name; it is a brand when the name mentions one, and the lowercased name otherwise |
| Providers.FirstBrandIsFirst | src/services/tmdbService.js:147-157 | the first brand of the table that occurs is the one found |
| Providers.BaseNameFirstBrand | src/services/tmdbService.js:145-159 | a name is filed under the first brand of the table it mentions, even when it mentions a later one |
| Providers.BaseNameIgnoresCase | src/services/tmdbService.js:146 | base names ignore letter case |
| Providers.NetflixPlansShareBase | src/services/tmdbService.js:145-147 | "Netflix" and "Netflix Standard with Ads" have the base name "netflix" |
| Providers.BaseNameIdempotent | src/services/tmdbService.js:145-159 | a base name is its own base name |
| Providers.BrandIsOwnBase | src/services/tmdbService.js:147-157 | every brand of the table is filed under itself |
| Providers.BrandsDoNotNest | src/services/tmdbService.js:147-157 | no brand of the table includes a brand tested before it |
| Providers.NotNested | src/services/tmdbService.js:147-157 | a string does not include a longer one, an equally long one with another first letter, or one whose first, second or fourth letter it lacks (the general missing-letter fact is `Text.MissingLetter`) |
| Text.MissingLetter | src/services/tmdbService.js:147 | a string lacking one letter of another does not include it |
| Providers.BaseOf | src/services/tmdbService.js:167-168 | the key of a provider, the base name of its name; `Providers.DedupKeys` and `Providers.KeptIsBest` use it |
| Providers.Keys | src/services/tmdbService.js:142 | the base names of a list, what `seenProviders` holds after the list; `Providers.DeduplicateByBaseName` keeps it as an invariant |
| Providers.DistinctKeys | src/services/tmdbService.js:167-174 | no two providers of a list share a base name; `Providers.DedupKeys` proves it of the kept list |
| Providers.LengthOrdered | src/services/tmdbService.js:162-165 | name lengths never decrease along a list; `Providers.SortOrdered` proves it of the sort |
| Providers.UsRegion | src/services/tmdbService.js:123-127 | `results?.US`, absent without results or a United States entry; `Providers.ResolveProviders` and `Providers.ProvidersEmptyIff` use it |
| Providers.AsSubscription | src/services/tmdbService.js:134-137 | a copy of an offer marked as a subscription; `Providers.Offers` and `Providers.ProvidersWellFormed` use it |
| Providers.Offers | src/services/tmdbService.js:133-138 | without flat-rate offers there are none; otherwise each flat-rate offer, in order, marked as a subscription |
| Providers.InsertByLength | src/services/tmdbService.js:162-165 | one insertion step of the sort adds the provider and loses none |
| Providers.SortByNameLength | src/services/tmdbService.js:162-165 | the sort is a permutation of its input; its order and stability are `Providers.SortOrdered` and `Providers.SortKeepsEqualLengthOrder` |
| Providers.InsertKeepsLengthOrder | src/services/tmdbService.js:162-165 | inserting into a list ordered by name length keeps it ordered |
| Providers.SortOrdered | src/services/tmdbService.js:162-165 | the sorted providers have non-decreasing name lengths |
| Providers.SameLengthCons | src/services/tmdbService.js:162-165 | the equally long providers of a list with a head are the head, when it is that long, then those of the tail |
| Providers.InsertSameLength | src/services/tmdbService.js:162-165 | an insertion step places the inserted provider in front of every provider whose name is as long as its own |
| Providers.LengthTiesCommute | src/services/tmdbService.js:162-165 | a shorter provider and a longer one are never both of one given length |
| Providers.SortKeepsEqualLengthOrder | src/services/tmdbService.js:162-165 | the sort is stable: providers whose names are equally long keep their relative order |
| Providers.Dedup | src/services/tmdbService.js:167-174 | deduplication keeps a sub-collection of its input; its order is `Providers.DedupPrefix` and `Providers.DedupKeepsLengthOrder` |
| Providers.DedupPrefix | src/services/tmdbService.js:167-174 | deduplication works in one pass: what is kept from a prefix of the list is a prefix of what is kept from all of it |
| Providers.DedupKeys | src/services/tmdbService.js:167-174 | the kept providers have all the base names of the input, and no two share one |
| Providers.DedupKeepsLengthOrder | src/services/tmdbService.js:167-174 | deduplication keeps the name-length order |
| Providers.FirstWithKey | src/services/tmdbService.js:167-174 | the first provider with a base name exists exactly when the base name occurs |
| Providers.FirstWithKeyAppend | src/services/tmdbService.js:167-174 | appending a provider changes the first provider with a base name only when there was none |
| Providers.DedupKeepsFirst | src/services/tmdbService.js:167-174 | the provider kept for a base name is the first one with that base name |
| Providers.BestExists | src/services/tmdbService.js:161-165 | every base name has a best offer: a shortest name, first among equals |
| Providers.InsertFirstWithKey | src/services/tmdbService.js:162-165 | after an insertion step the first provider with a base name is the inserted one unless an earlier one is shorter |
| Providers.SortPutsBestFirst | src/services/tmdbService.js:161-165 | after the sort, the first provider with a base name is that base name's best offer |
| Providers.KeptIsBest | src/services/tmdbService.js:161-174 | after sorting and deduplication, a base name's best offer is kept and is its only kept provider |
| Providers.StampLink | src/services/tmdbService.js:177-181 | every provider is kept in place with its link set to the page |
| Providers.Linked | src/services/tmdbService.js:177-181 | with a truthy page link every kept provider points to it, otherwise nothing changes |
| Providers.ResolveProviders | src/services/tmdbService.js:120-188 | at most six providers, none without a United States entry |
| Providers.GetWatchProviders | src/services/tmdbService.js:120-188 | the imperative pipeline returns `ResolveProviders` of the answer |
| Providers.DeduplicateByBaseName | src/services/tmdbService.js:141-174 | the loop with its set of seen base names computes `Dedup` |
| Providers.SetLinks | src/services/tmdbService.js:177-181 | the `forEach` computes `StampLink` |
| Providers.Kept | src/services/tmdbService.js:161-174 | the offers sorted by name length and deduplicated by base name; `Providers.KeptKeys` and `Providers.KeptIsBest` state what it holds |
| Providers.ResolveRegion | src/services/tmdbService.js:129-183 | what a region resolves to, the first six linked subscriptions; `Providers.RegionEmptyIff`, `Providers.RegionOrdered`, `Providers.RegionFromFlatrate` and `Providers.RegionKeepsShortest` state its properties |
| Providers.KeptKeys | src/services/tmdbService.js:161-174 | the kept offers are ordered by name length and carry every base name of the offers once |
| Providers.LinkedKeys | src/services/tmdbService.js:161-181 | setting the links keeps the base names, their number and the length order |
| Providers.KeptFromFlatrate | src/services/tmdbService.js:133-174 | a kept provider is a flat-rate offer marked as a subscription |
| Providers.ProvidersEmptyIff | src/services/tmdbService.js:123-138 | no providers exactly when there is no United States entry or it has no flat-rate offers |
| Providers.RegionEmptyIff | src/services/tmdbService.js:129-183 | a region resolves to no providers exactly when it has no flat-rate offers |
| Providers.ProvidersWellFormed | src/services/tmdbService.js:129-183 | every provider is a flat-rate offer marked as a subscription, with the page link when there is one; no two share a base name; shorter names come first |
| Providers.RegionOrdered | src/services/tmdbService.js:161-183 | a region's providers have distinct base names and non-decreasing name lengths |
| Providers.RegionFromFlatrate | src/services/tmdbService.js:129-181 | every provider of a region is one of its flat-rate offers, marked and linked |
| Providers.ProvidersKeepBest | src/services/tmdbService.js:161-183 | the provider returned for a base name is its best offer, up to the link |
| Providers.ProvidersIncludeBest | src/services/tmdbService.js:167-183 | with at most six base names, the best offer of each is returned |
| Providers.ProvidersKeepShortest | src/services/tmdbService.js:161-183 | a base name of the offers is missing from the result only when six providers are returned and none has a longer name than that base name's best offer |
| Providers.RegionKeepsShortest | src/services/tmdbService.js:161-183 | the same for a region's offers |
| Providers.ShorterBefore | src/services/tmdbService.js:161-183 | a returned provider listed before a kept one has a name no longer than it |
| Providers.ProvidersCoverBaseNames | src/services/tmdbService.js:167-183 | min(base names, 6) providers are returned, and all base names when there are at most six |
| Providers.RentAndBuyIgnored | src/services/tmdbService.js:129-138 | rental and purchase offers never change the result |

## Left out

- HTTP is not modelled: the axios client, the API key, the base URL and the request
  paths and parameters (lines 1-12, 79-82, 122). The answers are parameters instead.
  - `None` stands for a search that failed, or an answer without a `results` list.
  - For the provider lookup, `None` stands for a failed lookup, which is caught and
    resolves to no providers.
- The concurrency of `Promise.all` (lines 79-82) is not modelled. Both answers are given
  together, and either failing fails the search.
- The trimmed query sent with the searches (lines 80-81) is not modelled, because the
  answers are parameters.
- `console.error` logging is not modelled. The message of the thrown `Error` is not
  modelled either; it is `SearchFailed`.
- `getTrending` and `getDetails` (lines 190-210) are not part of this model, and neither
  is the user interface. They are not part of the scoring, ranking or provider pipelines.
- Text.ToLower: lowercases only the ASCII letters. JavaScript's `toLowerCase` also maps
  other Unicode capitals. The model has no Unicode case tables.
- String lengths count Dafny characters (Unicode scalar values). JavaScript counts UTF-16
  code units, so names outside the Basic Multilingual Plane sort differently.
- Relevance.RelevanceScore: popularity is an exact real. IEEE rounding of the ratios, a
  missing or `NaN` popularity, and `NaN` from the comparator are not modelled.
- Relevance.WordScoreRange, Relevance.ZeroScoreIff, Relevance.ScoreLevels,
  Relevance.EmptyTitleWordAcceptsEveryQuery: these assume a non-negative popularity. The
  source does not guarantee one, and a negative popularity can lower a word score below
  30.
- Search.SortByRelevance and Providers.SortByNameLength: `Array.prototype.sort` is a
  library call. It is modelled as the stable insertion sort that its comparator and the
  stability the language requires determine, not as the engine's own algorithm.
- Exceptions thrown inside the search pipeline are not modelled, for example a result
  that is not an object. Only a missing answer fails the search.
- A provider without `provider_name` is not modelled. In the source it throws, and the
  catch turns that into an empty list. Names are always present here.
- The link is set in place on objects of the `providers` array (lines 178-180). Those
  objects are fresh copies made at lines 134-137, so no alias can observe the change. The
  model sets the links on values.
- Result and provider fields other than the modelled ones are passed through unchanged
  by the source and do not appear in the model.
