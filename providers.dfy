/** Where a title can be streamed: the United States subscription offers of a title,
    one per streaming brand, main plans before their variants, at most six. */
module Providers {
  import opened Wrappers
  import Seqs
  import opened Text

  /** At most this many providers are returned. */
  const MaxProviders := 6

  /** The region whose offers are shown. */
  const UsRegionCode := "US"

  /** The offer type stamped on every flat-rate offer. */
  const SubscriptionType := "subscription"

  /** The brands whose plans are merged, in the order they are tested. */
  const BrandTable: seq<string> :=
    ["netflix", "peacock", "hulu", "disney", "amazon", "hbo", "paramount", "apple",
     "showtime", "starz", "cinemax"]

  /** One offer of a region. `offerType` is the `type` field added to flat-rate offers and
      `link` the page the offer points to; both are absent in the service's answer. */
  datatype Provider = Provider(
    providerId: int,
    providerName: string,
    logoPath: Option<string>,
    displayPriority: int,
    offerType: Option<string>,
    link: Option<string>)

  /** The offers of one region: by subscription (`flatrate`), to rent, to buy, and the
      service's own page listing them. */
  datatype RegionProviders = RegionProviders(
    flatrate: Option<seq<Provider>>,
    rent: Option<seq<Provider>>,
    buy: Option<seq<Provider>>,
    link: Option<string>)

  /** The answer of the provider lookup: the offers by region code, when present. */
  datatype WatchProvidersResponse = WatchProvidersResponse(results: Option<map<string, RegionProviders>>)

  // ---------------------------------------------------------------------------
  // Base names

  /** The first brand of `brands` that occurs in `name`. */
  function FirstBrand(name: string, brands: seq<string>): (r: Option<string>)
    ensures r.Some? ==> r.value in brands && Contains(name, r.value)
    ensures r.None? <==> forall k :: 0 <= k < |brands| ==> !Contains(name, brands[k])
    decreases |brands|
  {
    if brands == [] then None
    else if Contains(name, brands[0]) then Some(brands[0])
    else
      assert forall k :: 1 <= k < |brands| ==> brands[k] == brands[1..][k - 1];
      FirstBrand(name, brands[1..])
  }

  /** `getBaseName`: the first brand of the table that occurs in the lower-cased name, or
      else the lower-cased name itself. Either way it occurs in the lower-cased name. */
  function BaseName(providerName: string): (b: string)
    ensures Contains(ToLower(providerName), b)
    ensures b in BrandTable || b == ToLower(providerName)
    ensures (exists k :: 0 <= k < |BrandTable| && Contains(ToLower(providerName), BrandTable[k])) ==> b in BrandTable
    ensures (forall k :: 0 <= k < |BrandTable| ==> !Contains(ToLower(providerName), BrandTable[k])) ==>
      b == ToLower(providerName)
  {
    var name := ToLower(providerName);
    match FirstBrand(name, BrandTable)
    case Some(brand) => brand
    case None =>
      assert name <= name;
      name
  }

  /** The base name of a provider's name: the key the providers are deduplicated by. */
  function BaseOf(p: Provider): string {
    BaseName(p.providerName)
  }

  /** The keys of the providers of `s`. */
  function Keys(s: seq<Provider>, key: Provider -> string): set<string> {
    set p | p in s :: key(p)
  }

  /** No two providers of `s` share a key. */
  predicate DistinctKeys(s: seq<Provider>, key: Provider -> string) {
    forall i, j :: 0 <= i < j < |s| ==> key(s[i]) != key(s[j])
  }

  // ---------------------------------------------------------------------------
  // The pipeline

  /** `results?.US`, absent when the answer has no results or no United States entry. */
  function UsRegion(response: Option<WatchProvidersResponse>): Option<RegionProviders> {
    if response.Some? && response.value.results.Some? && UsRegionCode in response.value.results.value
    then Some(response.value.results.value[UsRegionCode])
    else None
  }

  function AsSubscription(p: Provider): Provider {
    p.(offerType := Some(SubscriptionType))
  }

  /** The flat-rate offers of a region, each marked as a subscription. */
  function Offers(region: RegionProviders): (r: seq<Provider>)
    ensures region.flatrate.None? ==> r == []
    ensures region.flatrate.Some? ==>
      |r| == |region.flatrate.value| &&
      forall i :: 0 <= i < |r| ==> r[i] == AsSubscription(region.flatrate.value[i])
  {
    match region.flatrate
    case None => []
    case Some(flatrate) => seq(|flatrate|, i requires 0 <= i < |flatrate| => AsSubscription(flatrate[i]))
  }

  /** Name lengths never decrease along `s`. */
  predicate LengthOrdered(s: seq<Provider>) {
    forall i, j :: 0 <= i < j < |s| ==> |s[i].providerName| <= |s[j].providerName|
  }

  /** Puts `x` in front of the first provider whose name is at least as long. */
  function InsertByLength(x: Provider, t: seq<Provider>): (r: seq<Provider>)
    ensures multiset(r) == multiset(t) + multiset{x}
    ensures forall y :: y in r <==> y == x || y in t
  {
    if t == [] || |x.providerName| <= |t[0].providerName| then [x] + t
    else
      assert t == [t[0]] + t[1..];
      [t[0]] + InsertByLength(x, t[1..])
  }

  /** The comparator sort by name length, shortest first, as the stable sort of the
      language runtime performs it. */
  function SortByNameLength(s: seq<Provider>): (r: seq<Provider>)
    ensures multiset(r) == multiset(s)
  {
    if s == [] then []
    else
      assert s == [s[0]] + s[1..];
      InsertByLength(s[0], SortByNameLength(s[1..]))
  }

  /** The providers of `s` whose key was not seen before them, in order. */
  function Dedup(s: seq<Provider>, key: Provider -> string): (r: seq<Provider>)
    ensures multiset(r) <= multiset(s)
    ensures forall y :: y in r ==> y in s
    decreases |s|
  {
    if s == [] then []
    else
      var init, last := s[..|s| - 1], s[|s| - 1];
      assert s == init + [last];
      var kept := Dedup(init, key);
      if key(last) in Keys(kept, key) then kept else kept + [last]
  }

  lemma KeysAppend(s: seq<Provider>, x: Provider, key: Provider -> string)
    ensures Keys(s + [x], key) == Keys(s, key) + {key(x)}
  {
  }

  /** Deduplication keeps every key once: the kept providers have all the keys of `s`
      and no two of them share one. */
  lemma {:induction false} DedupKeys(s: seq<Provider>, key: Provider -> string)
    ensures Keys(Dedup(s, key), key) == Keys(s, key)
    ensures DistinctKeys(Dedup(s, key), key)
    ensures |Keys(Dedup(s, key), key)| == |Dedup(s, key)|
    decreases |s|
  {
    if s != [] {
      var init, last := s[..|s| - 1], s[|s| - 1];
      assert s == init + [last];
      var kept := Dedup(init, key);
      DedupKeys(init, key);
      KeysAppend(init, last, key);
      if key(last) !in Keys(kept, key) {
        KeysAppend(kept, last, key);
        var r := kept + [last];
        forall i, j | 0 <= i < j < |r| ensures key(r[i]) != key(r[j]) {
          assert r[i] == kept[i];
          if j == |kept| {
            assert key(kept[i]) in Keys(kept, key);
          } else {
            assert r[j] == kept[j];
          }
        }
      }
    }
  }

  /** Every provider with its link set to `link`. */
  function StampLink(s: seq<Provider>, link: string): (r: seq<Provider>)
    ensures |r| == |s|
    ensures forall i :: 0 <= i < |s| ==> r[i] == s[i].(link := Some(link))
  {
    seq(|s|, i requires 0 <= i < |s| => s[i].(link := Some(link)))
  }

  /** The subscriptions sorted by name length, one per base name. */
  function Kept(region: RegionProviders): seq<Provider> {
    Dedup(SortByNameLength(Offers(region)), BaseOf)
  }

  /** The kept subscriptions, all pointing to the region's page when it has one. */
  function Linked(region: RegionProviders): (r: seq<Provider>)
    ensures |r| == |Kept(region)|
    ensures forall k :: 0 <= k < |r| ==>
      r[k] == if IsTruthy(region.link) then Kept(region)[k].(link := region.link) else Kept(region)[k]
  {
    var kept := Kept(region);
    if IsTruthy(region.link) && |kept| > 0 then StampLink(kept, region.link.value) else kept
  }

  /** What a region's offers resolve to: the first six linked subscriptions. */
  function ResolveRegion(region: RegionProviders): seq<Provider> {
    Seqs.Take(Linked(region), MaxProviders)
  }

  /** The providers of a title. A failed lookup (`None`) resolves to none, as does an
      answer without a United States entry. */
  function ResolveProviders(response: Option<WatchProvidersResponse>): (r: seq<Provider>)
    ensures |r| <= MaxProviders
    ensures UsRegion(response).None? ==> r == []
  {
    match UsRegion(response)
    case None => []
    case Some(region) => ResolveRegion(region)
  }

  /** `getWatchProviders` once the lookup has answered. */
  method GetWatchProviders(response: Option<WatchProvidersResponse>) returns (providers: seq<Provider>)
    ensures providers == ResolveProviders(response)
  {
    var usProviders := UsRegion(response);
    if usProviders.None? {
      return [];
    }
    var region := usProviders.value;
    var offers: seq<Provider> := [];
    if region.flatrate.Some? {
      offers := offers + Offers(region);
    }
    assert offers == Offers(region);
    var deduplicatedProviders := DeduplicateByBaseName(SortByNameLength(offers));
    if IsTruthy(region.link) && |deduplicatedProviders| > 0 {
      deduplicatedProviders := SetLinks(deduplicatedProviders, region.link.value);
    }
    providers := Seqs.Take(deduplicatedProviders, MaxProviders);
  }

  /** The loop over the sorted providers with the set of base names seen so far. */
  method DeduplicateByBaseName(sortedProviders: seq<Provider>) returns (deduplicatedProviders: seq<Provider>)
    ensures deduplicatedProviders == Dedup(sortedProviders, BaseOf)
  {
    deduplicatedProviders := [];
    var seenProviders: set<string> := {};
    for i := 0 to |sortedProviders|
      invariant deduplicatedProviders == Dedup(sortedProviders[..i], BaseOf)
      invariant seenProviders == Keys(deduplicatedProviders, BaseOf)
    {
      assert sortedProviders[..i + 1][..i] == sortedProviders[..i];
      var provider := sortedProviders[i];
      var baseName := BaseName(provider.providerName);
      if baseName !in seenProviders {
        KeysAppend(deduplicatedProviders, provider, BaseOf);
        seenProviders := seenProviders + {baseName};
        deduplicatedProviders := deduplicatedProviders + [provider];
      }
    }
    assert sortedProviders[..|sortedProviders|] == sortedProviders;
  }

  /** The `forEach` that points every kept provider to the region's page. */
  method SetLinks(providers: seq<Provider>, link: string) returns (linked: seq<Provider>)
    ensures linked == StampLink(providers, link)
  {
    linked := providers;
    for i := 0 to |linked|
      invariant |linked| == |providers|
      invariant forall k :: 0 <= k < i ==> linked[k] == providers[k].(link := Some(link))
      invariant forall k :: i <= k < |linked| ==> linked[k] == providers[k]
    {
      linked := linked[i := linked[i].(link := Some(link))];
    }
  }

  // ---------------------------------------------------------------------------
  // Properties of the base names

  lemma {:induction false} FirstBrandIsFirst(name: string, brands: seq<string>, k: nat)
    requires k < |brands| && Contains(name, brands[k])
    requires forall j :: 0 <= j < k ==> !Contains(name, brands[j])
    ensures FirstBrand(name, brands) == Some(brands[k])
    decreases k
  {
    if k > 0 {
      assert !Contains(name, brands[0]);
      forall j | 0 <= j < k - 1 ensures !Contains(name, brands[1..][j]) {
        assert brands[1..][j] == brands[j + 1];
      }
      FirstBrandIsFirst(name, brands[1..], k - 1);
    }
  }

  /** The brands are tested in table order: a name is filed under the first brand of the
      table it mentions, even when it mentions a later one too. */
  lemma BaseNameFirstBrand(providerName: string, k: nat)
    requires k < |BrandTable| && Contains(ToLower(providerName), BrandTable[k])
    requires forall j :: 0 <= j < k ==> !Contains(ToLower(providerName), BrandTable[j])
    ensures BaseName(providerName) == BrandTable[k]
  {
    FirstBrandIsFirst(ToLower(providerName), BrandTable, k);
  }

  /** Base names ignore letter case. */
  lemma BaseNameIgnoresCase(providerName: string)
    ensures BaseName(ToLower(providerName)) == BaseName(providerName)
  {
    ToLowerIdempotent(providerName);
  }

  /** "Netflix" and "Netflix Standard with Ads" are plans of the same brand. */
  lemma NetflixPlansShareBase(main: string, variant: string)
    requires main == "Netflix" && variant == "Netflix Standard with Ads"
    ensures BaseName(main) == "netflix" && BaseName(variant) == "netflix"
  {
    var brand := BrandTable[0];
    assert brand == "netflix";
    assert brand <= ToLower(main) by {
      forall i | 0 <= i < |brand| ensures ToLower(main)[i] == brand[i] {
      }
    }
    assert brand <= ToLower(variant) by {
      forall i | 0 <= i < |brand| ensures ToLower(variant)[i] == brand[i] {
      }
    }
    BaseNameFirstBrand(main, 0);
    BaseNameFirstBrand(variant, 0);
  }

  /** A name's base name is its own base name: `getBaseName` is idempotent. */
  lemma BaseNameIdempotent(providerName: string)
    ensures BaseName(BaseName(providerName)) == BaseName(providerName)
  {
    var name := ToLower(providerName);
    match FirstBrand(name, BrandTable)
    case Some(brand) =>
      var k :| 0 <= k < |BrandTable| && BrandTable[k] == brand;
      BrandIsOwnBase(k);
    case None =>
      ToLowerIdempotent(providerName);
  }

  /** Every brand of the table is filed under itself. */
  lemma BrandIsOwnBase(k: int)
    requires 0 <= k < |BrandTable|
    ensures BaseName(BrandTable[k]) == BrandTable[k]
  {
    var brand := BrandTable[k];
    ToLowerUnchanged(brand);
    assert brand <= brand;
    forall j | 0 <= j < k ensures !Contains(brand, BrandTable[j]) {
      BrandsDoNotNest(j, k);
    }
    FirstBrandIsFirst(brand, BrandTable, k);
  }

  /** No brand of the table includes an earlier brand of the table. */
  lemma BrandsDoNotNest(j: int, k: int)
    requires 0 <= j < k < |BrandTable|
    ensures !Contains(BrandTable[k], BrandTable[j])
  {
    if k < 5 {
      FirstBrandsDoNotNest(j, k);
    } else if k < 8 {
      MiddleBrandsDoNotNest(j, k);
    } else {
      LastBrandsDoNotNest(j, k);
    }
  }

  lemma FirstBrandsDoNotNest(j: int, k: int)
    requires 0 <= j < k < 5
    ensures !Contains(BrandTable[k], BrandTable[j])
  {
    NotNested(BrandTable[k], BrandTable[j]);
  }

  lemma MiddleBrandsDoNotNest(j: int, k: int)
    requires 0 <= j < k && 5 <= k < 8
    ensures !Contains(BrandTable[k], BrandTable[j])
  {
    NotNested(BrandTable[k], BrandTable[j]);
  }

  lemma LastBrandsDoNotNest(j: int, k: int)
    requires 0 <= j < k && 8 <= k < |BrandTable|
    ensures !Contains(BrandTable[k], BrandTable[j])
  {
    NotNested(BrandTable[k], BrandTable[j]);
  }

  /**
   * The three ways one brand can fail to include another: it is shorter,
   * it has the same length but another first letter, or it lacks the
   * first, second or fourth letter of the other.
   */
  lemma NotNested(later: string, earlier: string)
    requires || |later| < |earlier|
             || (|later| == |earlier| > 0 && later[0] != earlier[0])
             || (1 <= |earlier| && earlier[0] !in later)
             || (2 <= |earlier| && earlier[1] !in later)
             || (4 <= |earlier| && earlier[3] !in later)
    ensures !Contains(later, earlier)
  {
    if |later| < |earlier| {
      NoLongerSubstring(later, earlier);
    } else if |later| == |earlier| > 0 && later[0] != earlier[0] {
      ContainsSameLength(later, earlier);
    } else if 1 <= |earlier| && earlier[0] !in later {
      MissingLetter(later, earlier, 0);
    } else if 2 <= |earlier| && earlier[1] !in later {
      MissingLetter(later, earlier, 1);
    } else {
      MissingLetter(later, earlier, 3);
    }
  }

  // ---------------------------------------------------------------------------
  // Properties of the sort and of the deduplication

  lemma {:induction false} InsertKeepsLengthOrder(x: Provider, t: seq<Provider>)
    requires LengthOrdered(t)
    ensures LengthOrdered(InsertByLength(x, t))
    decreases |t|
  {
    if t != [] && |x.providerName| > |t[0].providerName| {
      InsertKeepsLengthOrder(x, t[1..]);
      AtLeastHead(x, t);
    }
  }

  /** Every provider of `x` inserted into the tail of `t` is at least as long as the head. */
  lemma AtLeastHead(x: Provider, t: seq<Provider>)
    requires LengthOrdered(t) && t != [] && |x.providerName| > |t[0].providerName|
    requires LengthOrdered(InsertByLength(x, t[1..]))
    ensures LengthOrdered(InsertByLength(x, t))
  {
    var rest := InsertByLength(x, t[1..]);
    forall y | y in rest ensures |t[0].providerName| <= |y.providerName| {
      if y != x {
        var k :| 0 <= k < |t[1..]| && t[1..][k] == y;
        assert t[k + 1] == y;
      }
    }
    var r := [t[0]] + rest;
    assert InsertByLength(x, t) == r;
    forall i, j | 0 <= i < j < |r| ensures |r[i].providerName| <= |r[j].providerName| {
      assert r[j] == rest[j - 1];
      if i > 0 {
        assert r[i] == rest[i - 1];
      }
    }
  }

  /** The sort puts shorter names first. */
  lemma {:induction false} SortOrdered(s: seq<Provider>)
    ensures LengthOrdered(SortByNameLength(s))
    decreases |s|
  {
    if s != [] {
      SortOrdered(s[1..]);
      InsertKeepsLengthOrder(s[0], SortByNameLength(s[1..]));
    }
  }

  /** The providers of `s` whose names have `len` characters, in their order in `s`. */
  function SameLength(s: seq<Provider>, len: nat): seq<Provider> {
    if s == [] then [] else LengthTie(s[0], len) + SameLength(s[1..], len)
  }

  /** `[x]` when the name of `x` has `len` characters, otherwise nothing. */
  function LengthTie(x: Provider, len: nat): seq<Provider> {
    if |x.providerName| == len then [x] else []
  }

  lemma SameLengthCons(x: Provider, t: seq<Provider>, len: nat)
    ensures SameLength([x] + t, len) == LengthTie(x, len) + SameLength(t, len)
  {
    assert ([x] + t)[0] == x;
    assert ([x] + t)[1..] == t;
  }

  lemma {:induction false} InsertSameLength(x: Provider, t: seq<Provider>, len: nat)
    ensures SameLength(InsertByLength(x, t), len) == LengthTie(x, len) + SameLength(t, len)
    decreases |t|
  {
    if t == [] || |x.providerName| <= |t[0].providerName| {
      SameLengthCons(x, t, len);
    } else {
      var rest := InsertByLength(x, t[1..]);
      InsertSameLength(x, t[1..], len);
      assert InsertByLength(x, t) == [t[0]] + rest;
      SameLengthCons(t[0], rest, len);
      assert t == [t[0]] + t[1..];
      SameLengthCons(t[0], t[1..], len);
      LengthTiesCommute(t[0], x, len, SameLength(t[1..], len));
    }
  }

  /** A provider with a shorter name than `x` never has the same length as `x`, so the
      two may be listed in either order. */
  lemma LengthTiesCommute(y: Provider, x: Provider, len: nat, u: seq<Provider>)
    requires |y.providerName| < |x.providerName|
    ensures LengthTie(y, len) + (LengthTie(x, len) + u) == LengthTie(x, len) + (LengthTie(y, len) + u)
  {
    if |x.providerName| == len {
      assert LengthTie(y, len) == [];
    } else {
      assert LengthTie(x, len) == [];
    }
  }

  /** Stability: providers whose names are equally long keep their relative order. */
  lemma {:induction false} SortKeepsEqualLengthOrder(s: seq<Provider>, len: nat)
    ensures SameLength(SortByNameLength(s), len) == SameLength(s, len)
    decreases |s|
  {
    if s != [] {
      SortKeepsEqualLengthOrder(s[1..], len);
      InsertSameLength(s[0], SortByNameLength(s[1..]), len);
      assert s == [s[0]] + s[1..];
      SameLengthCons(s[0], s[1..], len);
    }
  }

  /** Deduplication keeps the order of what it keeps. */
  lemma {:induction false} DedupKeepsLengthOrder(s: seq<Provider>, key: Provider -> string)
    requires LengthOrdered(s)
    ensures LengthOrdered(Dedup(s, key))
    decreases |s|
  {
    if s != [] {
      var init, last := s[..|s| - 1], s[|s| - 1];
      assert s == init + [last];
      DedupKeepsLengthOrder(init, key);
      var kept := Dedup(init, key);
      if key(last) !in Keys(kept, key) {
        var r := kept + [last];
        forall i, j | 0 <= i < j < |r| ensures |r[i].providerName| <= |r[j].providerName| {
          assert r[i] == kept[i];
          if j == |kept| {
            assert kept[i] in kept;
            var k :| 0 <= k < |init| && init[k] == kept[i];
            assert s[k] == kept[i];
          } else {
            assert r[j] == kept[j];
          }
        }
      }
    }
  }

  /** Deduplication works as one pass: what is kept from a prefix of `s` is a prefix
      of what is kept from all of `s`. */
  lemma {:induction false} DedupPrefix(s: seq<Provider>, k: nat, key: Provider -> string)
    requires k <= |s|
    ensures Dedup(s[..k], key) <= Dedup(s, key)
    decreases |s| - k
  {
    if k == |s| {
      assert s[..k] == s;
    } else {
      var init := s[..|s| - 1];
      assert init[..k] == s[..k];
      DedupPrefix(init, k, key);
      var kept := Dedup(init, key);
      assert kept <= Dedup(s, key);
    }
  }

  /** The first provider of `s` with key `b`. */
  function FirstWithKey(s: seq<Provider>, key: Provider -> string, b: string): (r: Option<Provider>)
    ensures r.Some? ==> r.value in s && key(r.value) == b
    ensures r.None? <==> b !in Keys(s, key)
    decreases |s|
  {
    if s == [] then None
    else
      assert s == [s[0]] + s[1..];
      assert Keys(s, key) == {key(s[0])} + Keys(s[1..], key);
      if key(s[0]) == b then Some(s[0]) else FirstWithKey(s[1..], key, b)
  }

  lemma {:induction false} FirstWithKeyAppend(s: seq<Provider>, x: Provider, key: Provider -> string, b: string)
    ensures FirstWithKey(s + [x], key, b) ==
      if FirstWithKey(s, key, b).Some? then FirstWithKey(s, key, b)
      else if key(x) == b then Some(x) else None
    decreases |s|
  {
    if s == [] {
      assert [x][1..] == [];
    } else {
      assert (s + [x])[0] == s[0];
      assert (s + [x])[1..] == s[1..] + [x];
      FirstWithKeyAppend(s[1..], x, key, b);
    }
  }

  /** The provider that survives deduplication for a key is the first one with that key. */
  lemma {:induction false} DedupKeepsFirst(s: seq<Provider>, key: Provider -> string, b: string)
    requires b in Keys(s, key)
    ensures FirstWithKey(s, key, b).value in Dedup(s, key)
    decreases |s|
  {
    var init, last := s[..|s| - 1], s[|s| - 1];
    assert s == init + [last];
    KeysAppend(init, last, key);
    FirstWithKeyAppend(init, last, key, b);
    var kept := Dedup(init, key);
    if b in Keys(init, key) {
      DedupKeepsFirst(init, key, b);
    } else {
      DedupKeys(init, key);
    }
  }

  /** Position `i` of `s` holds the provider that should represent key `b`: it has the
      shortest name among the providers with that key, and every provider with that key
      before it has a longer name. */
  predicate IsBestFor(s: seq<Provider>, key: Provider -> string, b: string, i: int) {
    0 <= i < |s| && key(s[i]) == b &&
    (forall j :: 0 <= j < |s| && key(s[j]) == b ==> |s[i].providerName| <= |s[j].providerName|) &&
    (forall j :: 0 <= j < i && key(s[j]) == b ==> |s[i].providerName| < |s[j].providerName|)
  }

  /** Every key of `s` has a best provider. */
  lemma {:induction false} BestExists(s: seq<Provider>, key: Provider -> string, b: string)
    requires b in Keys(s, key)
    ensures exists i :: IsBestFor(s, key, b, i)
    decreases |s|
  {
    assert s == [s[0]] + s[1..];
    assert Keys(s, key) == {key(s[0])} + Keys(s[1..], key);
    if b in Keys(s[1..], key) {
      BestExists(s[1..], key, b);
      var i :| IsBestFor(s[1..], key, b, i);
      if key(s[0]) == b && |s[0].providerName| <= |s[i + 1].providerName| {
        assert IsBestFor(s, key, b, 0);
      } else {
        assert IsBestFor(s, key, b, i + 1);
      }
    } else {
      assert IsBestFor(s, key, b, 0);
    }
  }

  /** The first provider with key `b` once `x` joins providers whose first provider
      with key `b` is `first`: `x` comes first unless `first` has a shorter name. */
  function FirstAfterInsert(x: Provider, first: Option<Provider>, key: Provider -> string, b: string): Option<Provider> {
    if key(x) != b then first
    else if first.Some? && |first.value.providerName| < |x.providerName| then first
    else Some(x)
  }

  lemma {:induction false} InsertFirstWithKey(x: Provider, t: seq<Provider>, key: Provider -> string, b: string)
    requires LengthOrdered(t)
    ensures FirstWithKey(InsertByLength(x, t), key, b) == FirstAfterInsert(x, FirstWithKey(t, key, b), key, b)
    decreases |t|
  {
    if t == [] || |x.providerName| <= |t[0].providerName| {
      InsertInFront(x, t, key, b);
    } else {
      assert LengthOrdered(t[1..]);
      InsertFirstWithKey(x, t[1..], key, b);
      InsertPast(x, t, key, b);
    }
  }

  lemma InsertInFront(x: Provider, t: seq<Provider>, key: Provider -> string, b: string)
    requires LengthOrdered(t)
    requires t == [] || |x.providerName| <= |t[0].providerName|
    ensures FirstWithKey(InsertByLength(x, t), key, b) == FirstAfterInsert(x, FirstWithKey(t, key, b), key, b)
  {
    assert InsertByLength(x, t) == [x] + t;
    FirstWithKeyCons(x, t, key, b);
    if FirstWithKey(t, key, b).Some? {
      var f := FirstWithKey(t, key, b).value;
      var k :| 0 <= k < |t| && t[k] == f;
      assert |x.providerName| <= |f.providerName| by {
        assert |t[0].providerName| <= |t[k].providerName|;
      }
    }
  }

  /** The first provider with key `b` of `[x] + t`. */
  lemma FirstWithKeyCons(x: Provider, t: seq<Provider>, key: Provider -> string, b: string)
    ensures FirstWithKey([x] + t, key, b) == if key(x) == b then Some(x) else FirstWithKey(t, key, b)
  {
    assert ([x] + t)[0] == x && ([x] + t)[1..] == t;
  }

  lemma InsertPast(x: Provider, t: seq<Provider>, key: Provider -> string, b: string)
    requires t != [] && |x.providerName| > |t[0].providerName|
    requires FirstWithKey(InsertByLength(x, t[1..]), key, b) == FirstAfterInsert(x, FirstWithKey(t[1..], key, b), key, b)
    ensures FirstWithKey(InsertByLength(x, t), key, b) == FirstAfterInsert(x, FirstWithKey(t, key, b), key, b)
  {
    var rest := InsertByLength(x, t[1..]);
    var r := [t[0]] + rest;
    assert InsertByLength(x, t) == r;
    assert r[0] == t[0] && r[1..] == rest;
    if key(t[0]) == b {
      assert FirstWithKey(r, key, b) == Some(t[0]);
      assert FirstWithKey(t, key, b) == Some(t[0]);
    } else {
      assert FirstWithKey(r, key, b) == FirstWithKey(rest, key, b);
      assert FirstWithKey(t, key, b) == FirstWithKey(t[1..], key, b);
    }
  }

  /** The sort brings the best provider of each key to the front of its key's providers:
      the shortest name, and among equally short names the one listed first. */
  lemma {:induction false} SortPutsBestFirst(s: seq<Provider>, key: Provider -> string, b: string, i: int)
    requires IsBestFor(s, key, b, i)
    ensures FirstWithKey(SortByNameLength(s), key, b) == Some(s[i])
    decreases |s|
  {
    var t := SortByNameLength(s[1..]);
    SortOrdered(s[1..]);
    InsertFirstWithKey(s[0], t, key, b);
    if i == 0 {
      BestHeadStaysFirst(s, t, key, b);
    } else {
      BestInTail(s, key, b, i);
      SortPutsBestFirst(s[1..], key, b, i - 1);
    }
  }

  lemma BestHeadStaysFirst(s: seq<Provider>, t: seq<Provider>, key: Provider -> string, b: string)
    requires IsBestFor(s, key, b, 0) && multiset(t) == multiset(s[1..])
    ensures FirstAfterInsert(s[0], FirstWithKey(t, key, b), key, b) == Some(s[0])
  {
    if FirstWithKey(t, key, b).Some? {
      var f := FirstWithKey(t, key, b).value;
      assert f in multiset(s[1..]);
      var k :| 0 <= k < |s[1..]| && s[1..][k] == f;
      assert s[k + 1] == f;
    }
  }

  lemma BestInTail(s: seq<Provider>, key: Provider -> string, b: string, i: int)
    requires IsBestFor(s, key, b, i) && i > 0
    ensures IsBestFor(s[1..], key, b, i - 1)
    ensures key(s[0]) == b ==> |s[i].providerName| < |s[0].providerName|
  {
    forall j | 0 <= j < |s[1..]| ensures s[1..][j] == s[j + 1] {
    }
  }

  /** After sorting and deduplication, the best provider of a key is kept, and it is the
      only provider kept with that key. */
  lemma KeptIsBest(s: seq<Provider>, key: Provider -> string, b: string, i: int)
    requires IsBestFor(s, key, b, i)
    ensures s[i] in Dedup(SortByNameLength(s), key)
    ensures forall p :: p in Dedup(SortByNameLength(s), key) && key(p) == b ==> p == s[i]
  {
    var sorted := SortByNameLength(s);
    SortPutsBestFirst(s, key, b, i);
    DedupKeepsFirst(sorted, key, b);
    var d := Dedup(sorted, key);
    DedupKeys(sorted, key);
    forall p | p in d && key(p) == b ensures p == s[i] {
      var j :| 0 <= j < |d| && d[j] == p;
      var k :| 0 <= k < |d| && d[k] == s[i];
      assert j == k;
    }
  }

  // ---------------------------------------------------------------------------
  // Properties of the resolved providers

  lemma KeysOfPermutation(a: seq<Provider>, b: seq<Provider>, key: Provider -> string)
    requires multiset(a) == multiset(b)
    ensures Keys(a, key) == Keys(b, key)
  {
    assert forall p :: p in a <==> p in multiset(a);
    assert forall p :: p in b <==> p in multiset(b);
  }

  /** The kept subscriptions have the base names of the offers, once each, shortest
      names first. */
  lemma KeptKeys(region: RegionProviders)
    ensures Keys(Kept(region), BaseOf) == Keys(Offers(region), BaseOf)
    ensures |Kept(region)| == |Keys(Offers(region), BaseOf)|
    ensures DistinctKeys(Kept(region), BaseOf)
    ensures LengthOrdered(Kept(region))
  {
    var sorted := SortByNameLength(Offers(region));
    DedupKeys(sorted, BaseOf);
    KeysOfPermutation(sorted, Offers(region), BaseOf);
    SortOrdered(Offers(region));
    DedupKeepsLengthOrder(sorted, BaseOf);
  }

  /** Two lists that agree, position by position, on keys and name lengths. */
  lemma SameKeysAndLengths(a: seq<Provider>, b: seq<Provider>, key: Provider -> string)
    requires |a| == |b|
    requires forall k :: 0 <= k < |a| ==>
      key(a[k]) == key(b[k]) && |a[k].providerName| == |b[k].providerName|
    ensures Keys(a, key) == Keys(b, key)
    ensures DistinctKeys(a, key) ==> DistinctKeys(b, key)
    ensures LengthOrdered(a) ==> LengthOrdered(b)
  {
    forall x | x in Keys(a, key) ensures x in Keys(b, key) {
      var k :| 0 <= k < |a| && key(a[k]) == x;
      assert b[k] in b;
    }
    forall x | x in Keys(b, key) ensures x in Keys(a, key) {
      var k :| 0 <= k < |b| && key(b[k]) == x;
      assert a[k] in a;
    }
  }

  /** A prefix keeps distinct keys and the length order. */
  lemma PrefixKeeps(s: seq<Provider>, n: nat, key: Provider -> string)
    requires n <= |s|
    ensures DistinctKeys(s, key) ==> DistinctKeys(s[..n], key)
    ensures LengthOrdered(s) ==> LengthOrdered(s[..n])
  {
  }

  /** Setting the links changes no name, so the linked subscriptions keep all of it. */
  lemma LinkedKeys(region: RegionProviders)
    ensures Keys(Linked(region), BaseOf) == Keys(Offers(region), BaseOf)
    ensures |Linked(region)| == |Keys(Offers(region), BaseOf)|
    ensures DistinctKeys(Linked(region), BaseOf)
    ensures LengthOrdered(Linked(region))
  {
    var kept, linked := Kept(region), Linked(region);
    KeptKeys(region);
    forall k | 0 <= k < |kept|
      ensures BaseOf(kept[k]) == BaseOf(linked[k]) && |kept[k].providerName| == |linked[k].providerName|
    {
      assert linked[k].providerName == kept[k].providerName;
    }
    SameKeysAndLengths(kept, linked, BaseOf);
  }

  /** A kept subscription is a flat-rate offer of the region marked as a subscription. */
  lemma KeptFromFlatrate(region: RegionProviders, p: Provider)
    requires p in Kept(region)
    ensures region.flatrate.Some?
    ensures exists q :: q in region.flatrate.value && p == AsSubscription(q)
  {
    var sorted := SortByNameLength(Offers(region));
    assert p in multiset(sorted);
    var m :| 0 <= m < |Offers(region)| && Offers(region)[m] == p;
    assert region.flatrate.value[m] in region.flatrate.value;
  }

  /** No United States entry, or no flat-rate offers there, is the only way to get no
      providers: rental and purchase offers are never shown. */
  lemma ProvidersEmptyIff(response: Option<WatchProvidersResponse>)
    ensures ResolveProviders(response) == [] <==>
      UsRegion(response).None? || UsRegion(response).value.flatrate.None? ||
      UsRegion(response).value.flatrate.value == []
  {
    if UsRegion(response).Some? {
      RegionEmptyIff(UsRegion(response).value);
    }
  }

  lemma RegionEmptyIff(region: RegionProviders)
    ensures ResolveRegion(region) == [] <==> region.flatrate.None? || region.flatrate.value == []
  {
    LinkedKeys(region);
    if region.flatrate.Some? && region.flatrate.value != [] {
      assert BaseOf(Offers(region)[0]) in Keys(Offers(region), BaseOf);
    }
  }

  /** Every provider returned is one of the region's flat-rate offers marked as a
      subscription, pointing to the region's page when it has one; no two share a base
      name; shorter names come first. */
  lemma ProvidersWellFormed(response: Option<WatchProvidersResponse>, region: RegionProviders)
    requires UsRegion(response) == Some(region)
    ensures DistinctKeys(ResolveProviders(response), BaseOf)
    ensures LengthOrdered(ResolveProviders(response))
    ensures forall p :: p in ResolveProviders(response) ==>
      p.offerType == Some(SubscriptionType) && region.flatrate.Some? && FromFlatrate(p, region)
  {
    RegionOrdered(region);
    RegionFromFlatrate(region);
  }

  /** The region's resolved providers have distinct base names, shortest names first. */
  lemma RegionOrdered(region: RegionProviders)
    ensures DistinctKeys(ResolveRegion(region), BaseOf)
    ensures LengthOrdered(ResolveRegion(region))
  {
    var linked := Linked(region);
    LinkedKeys(region);
    PrefixKeeps(linked, |ResolveRegion(region)|, BaseOf);
  }

  /** Every resolved provider of the region is one of its flat-rate subscriptions. */
  lemma RegionFromFlatrate(region: RegionProviders)
    ensures forall p :: p in ResolveRegion(region) ==>
      p.offerType == Some(SubscriptionType) && region.flatrate.Some? && FromFlatrate(p, region)
  {
    var r := ResolveRegion(region);
    forall p | p in r ensures p.offerType == Some(SubscriptionType) && region.flatrate.Some? && FromFlatrate(p, region) {
      var k :| 0 <= k < |r| && r[k] == p;
      LinkedFromFlatrate(region, k);
    }
  }

  /** `p` is a flat-rate offer `q` of the region marked as a subscription, its link set
      to the region's page when there is one and left as it was otherwise. */
  predicate FromFlatrate(p: Provider, region: RegionProviders)
    requires region.flatrate.Some?
  {
    exists q :: q in region.flatrate.value && p.(link := q.link) == AsSubscription(q) &&
      p.link == (if IsTruthy(region.link) then region.link else q.link)
  }

  lemma LinkedFromFlatrate(region: RegionProviders, k: int)
    requires 0 <= k < |Linked(region)|
    ensures region.flatrate.Some? && FromFlatrate(Linked(region)[k], region)
  {
    var p := Linked(region)[k];
    var kept := Kept(region)[k];
    KeptFromFlatrate(region, kept);
    var q :| q in region.flatrate.value && kept == AsSubscription(q);
    assert p.(link := q.link) == AsSubscription(q);
  }

  /** The provider returned for a base name is the best offer with that name: the
      shortest name, the first listed among equally short ones. */
  lemma ProvidersKeepBest(response: Option<WatchProvidersResponse>, region: RegionProviders, b: string, i: int)
    requires UsRegion(response) == Some(region)
    requires IsBestFor(Offers(region), BaseOf, b, i)
    ensures forall p :: p in ResolveProviders(response) && BaseOf(p) == b ==>
      p.(link := Offers(region)[i].link) == Offers(region)[i]
  {
    var r := ResolveProviders(response);
    assert r == ResolveRegion(region);
    forall p | p in r && BaseOf(p) == b ensures p.(link := Offers(region)[i].link) == Offers(region)[i] {
      var k :| 0 <= k < |r| && r[k] == p;
      ResolvedIsBest(region, b, i, k);
    }
  }

  lemma ResolvedIsBest(region: RegionProviders, b: string, i: int, k: int)
    requires IsBestFor(Offers(region), BaseOf, b, i)
    requires 0 <= k < |ResolveRegion(region)| && BaseOf(ResolveRegion(region)[k]) == b
    ensures ResolveRegion(region)[k].(link := Offers(region)[i].link) == Offers(region)[i]
  {
    KeptIsBest(Offers(region), BaseOf, b, i);
    LinkedIsKept(region, k);
    assert Kept(region)[k] in Kept(region);
  }

  /** When the offers have at most six base names, the best offer of each is returned. */
  lemma ProvidersIncludeBest(response: Option<WatchProvidersResponse>, region: RegionProviders, b: string, i: int)
    requires UsRegion(response) == Some(region)
    requires IsBestFor(Offers(region), BaseOf, b, i)
    requires |Keys(Offers(region), BaseOf)| <= MaxProviders
    ensures exists p :: p in ResolveProviders(response) && p.(link := Offers(region)[i].link) == Offers(region)[i]
  {
    KeptIsBest(Offers(region), BaseOf, b, i);
    LinkedKeys(region);
    var r := ResolveProviders(response);
    var k :| 0 <= k < |Kept(region)| && Kept(region)[k] == Offers(region)[i];
    LinkedIsKept(region, k);
    assert r[k] in r;
  }

  /** A base name of the offers is missing from the result only when six providers are
      returned and none of them has a longer name than the best offer with that base name. */
  lemma ProvidersKeepShortest(response: Option<WatchProvidersResponse>, region: RegionProviders, b: string, i: int)
    requires UsRegion(response) == Some(region)
    requires IsBestFor(Offers(region), BaseOf, b, i)
    ensures b in Keys(ResolveProviders(response), BaseOf) ||
      (|ResolveProviders(response)| == MaxProviders &&
       forall p :: p in ResolveProviders(response) ==> |p.providerName| <= |Offers(region)[i].providerName|)
  {
    assert ResolveProviders(response) == ResolveRegion(region);
    RegionKeepsShortest(region, b, i);
  }

  lemma RegionKeepsShortest(region: RegionProviders, b: string, i: int)
    requires IsBestFor(Offers(region), BaseOf, b, i)
    ensures b in Keys(ResolveRegion(region), BaseOf) ||
      (|ResolveRegion(region)| == MaxProviders &&
       forall p :: p in ResolveRegion(region) ==> |p.providerName| <= |Offers(region)[i].providerName|)
  {
    var kept, r := Kept(region), ResolveRegion(region);
    KeptIsBest(Offers(region), BaseOf, b, i);
    var k :| 0 <= k < |kept| && kept[k] == Offers(region)[i];
    LinkedIsKept(region, k);
    if k < MaxProviders {
      assert r[k] in r;
    } else {
      forall p | p in r ensures |p.providerName| <= |Offers(region)[i].providerName| {
        var j :| 0 <= j < |r| && r[j] == p;
        ShorterBefore(region, j, k);
      }
    }
  }

  /** A resolved provider listed before the kept provider at `k` has a name no longer
      than it. */
  lemma ShorterBefore(region: RegionProviders, j: int, k: int)
    requires 0 <= j < |ResolveRegion(region)| && j < k < |Kept(region)|
    ensures |ResolveRegion(region)[j].providerName| <= |Kept(region)[k].providerName|
  {
    LinkedKeys(region);
    LinkedIsKept(region, j);
    LinkedIsKept(region, k);
    assert Linked(region)[k].providerName == Kept(region)[k].providerName;
  }

  /** The linked provider at `k` is the kept one, up to its link. */
  lemma LinkedIsKept(region: RegionProviders, k: int)
    requires 0 <= k < |Linked(region)|
    ensures Linked(region)[k].(link := Kept(region)[k].link) == Kept(region)[k]
    ensures BaseOf(Linked(region)[k]) == BaseOf(Kept(region)[k])
    ensures k < MaxProviders ==> ResolveRegion(region)[k] == Linked(region)[k]
  {
    assert Linked(region)[k].providerName == Kept(region)[k].providerName;
  }

  /** As many providers are returned as the offers have base names, up to six; when
      there are at most six, every base name is represented. */
  lemma ProvidersCoverBaseNames(response: Option<WatchProvidersResponse>, region: RegionProviders)
    requires UsRegion(response) == Some(region)
    ensures |ResolveProviders(response)| ==
      if |Keys(Offers(region), BaseOf)| < MaxProviders then |Keys(Offers(region), BaseOf)| else MaxProviders
    ensures |Keys(Offers(region), BaseOf)| <= MaxProviders ==>
      Keys(ResolveProviders(response), BaseOf) == Keys(Offers(region), BaseOf)
  {
    LinkedKeys(region);
  }

  /** Only the flat-rate offers and the page link matter: rental and purchase offers
      never change the result. */
  lemma RentAndBuyIgnored(region: RegionProviders, rent: Option<seq<Provider>>, buy: Option<seq<Provider>>)
    ensures ResolveRegion(region.(rent := rent, buy := buy)) == ResolveRegion(region)
  {
  }
}
