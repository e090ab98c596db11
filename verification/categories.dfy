/** The category tally of renderer.js (`processChannels` and its chunked
    twin `processLargeChannelList`) and the icon chosen for a category
    (`getCategoryIcon`). The tally lives in a JavaScript `Map`, so unlike
    the plain objects elsewhere it has no inherited keys. */
module Categories {
  import opened Wrappers
  import opened Seqs
  import opened Text
  import opened JsObject
  import opened MapSum
  import opened Playlist

  type Tally = map<string, nat>

  const AllKey := "all"
  const FavoritesKey := "favorites"

  /** `channel.group || 'General'`: an empty group counts as General. */
  function GroupOf(c: Channel): string {
    if c.group == "" then DefaultGroup else c.group
  }

  /** `categories.get(k) || 0`. */
  function Get(m: Tally, k: string): nat {
    if k in m then m[k] else 0
  }

  /** `categories.set(k, (categories.get(k) || 0) + 1)`. */
  function Bump(m: Tally, k: string): Tally {
    m[k := Get(m, k) + 1]
  }

  /** One bump per channel, in order, starting from `m`. */
  function TallyFrom(m: Tally, cs: seq<Channel>): Tally {
    if |cs| == 0 then m else Bump(TallyFrom(m, cs[..|cs| - 1]), GroupOf(cs[|cs| - 1]))
  }

  /** The map after `clear()` and the two fixed entries. */
  function Initial(channelCount: nat, favoriteCount: nat): (m: Tally)
    ensures m.Keys == {AllKey, FavoritesKey}
  {
    map[AllKey := channelCount, FavoritesKey := favoriteCount]
  }

  // ----- what the tally counts --------------------------------------------

  /** The channels filed under category `k`. */
  function InGroup(k: string): Channel -> bool {
    c => GroupOf(c) == k
  }

  /** How many channels fall in category `k`. */
  function Count(cs: seq<Channel>, k: string): nat {
    if |cs| == 0 then 0
    else Count(cs[..|cs| - 1], k) + (if GroupOf(cs[|cs| - 1]) == k then 1 else 0)
  }

  /** The count is the length of `channels.filter(c => (c.group || 'General') === k)`. */
  lemma {:induction false} CountIsFilter(cs: seq<Channel>, k: string)
    ensures Count(cs, k) == |Filter(cs, InGroup(k))|
  {
    if |cs| > 0 {
      var init, last := cs[..|cs| - 1], cs[|cs| - 1];
      assert cs == init + [last];
      CountIsFilter(init, k);
      FilterConcat(init, [last], InGroup(k));
      assert [last][1..] == [];
    }
  }

  /** The last channel's bump. */
  lemma TallyLast(m: Tally, cs: seq<Channel>, k: string)
    requires |cs| > 0
    ensures Get(TallyFrom(m, cs), k)
            == Get(TallyFrom(m, cs[..|cs| - 1]), k) + (if GroupOf(cs[|cs| - 1]) == k then 1 else 0)
    ensures k in TallyFrom(m, cs) <==> k in TallyFrom(m, cs[..|cs| - 1]) || GroupOf(cs[|cs| - 1]) == k
  {
    var prev, g := TallyFrom(m, cs[..|cs| - 1]), GroupOf(cs[|cs| - 1]);
    assert TallyFrom(m, cs) == Bump(prev, g);
    BumpGet(prev, g, k);
  }

  /** A bump adds one to its own key and leaves the others alone. */
  lemma BumpGet(m: Tally, g: string, k: string)
    ensures Get(Bump(m, g), k) == Get(m, k) + (if g == k then 1 else 0)
    ensures k in Bump(m, g) <==> k in m || g == k
  {
  }

  /** Each entry grows by the number of channels of its category. */
  lemma {:induction false} TallyCounts(m: Tally, cs: seq<Channel>, k: string)
    ensures Get(TallyFrom(m, cs), k) == Get(m, k) + Count(cs, k)
  {
    if |cs| > 0 {
      TallyCounts(m, cs[..|cs| - 1], k);
      TallyLast(m, cs, k);
    }
  }

  /** A key appears exactly when it was there before or some channel has
      that category. */
  lemma {:induction false} TallyKeys(m: Tally, cs: seq<Channel>, k: string)
    ensures k in TallyFrom(m, cs) <==> k in m || exists i :: 0 <= i < |cs| && GroupOf(cs[i]) == k
  {
    if |cs| > 0 {
      var init, last := cs[..|cs| - 1], cs[|cs| - 1];
      TallyKeys(m, init, k);
      TallyLast(m, cs, k);
      if exists i :: 0 <= i < |cs| && GroupOf(cs[i]) == k {
        var i :| 0 <= i < |cs| && GroupOf(cs[i]) == k;
        if i < |init| {
          assert init[i] == cs[i];
        }
      }
      if exists i :: 0 <= i < |init| && GroupOf(init[i]) == k {
        var i :| 0 <= i < |init| && GroupOf(init[i]) == k;
        assert cs[i] == init[i];
      }
    }
  }

  /** The entries add up to what they started with plus one per channel. */
  lemma {:induction false} TallyTotal(m: Tally, cs: seq<Channel>)
    ensures Total(TallyFrom(m, cs)) == Total(m) + |cs|
  {
    if |cs| > 0 {
      var prev := TallyFrom(m, cs[..|cs| - 1]);
      var k := GroupOf(cs[|cs| - 1]);
      TallyTotal(m, cs[..|cs| - 1]);
      assert TallyFrom(m, cs) == Bump(prev, k);
      BumpTotal(prev, k);
    }
  }

  /** One bump adds one to the total. */
  lemma BumpTotal(m: Tally, k: string)
    ensures Total(Bump(m, k)) == Total(m) + 1
  {
    TotalUpdate(m, k, Get(m, k) + 1);
  }

  // ----- the two loops ----------------------------------------------------

  /** Extending the prefix by channel `i` bumps that channel's category. */
  lemma TallyStep(m0: Tally, cs: seq<Channel>, i: nat)
    requires i < |cs|
    ensures TallyFrom(m0, cs[..i + 1]) == Bump(TallyFrom(m0, cs[..i]), GroupOf(cs[i]))
  {
    assert cs[..i + 1][..i] == cs[..i];
  }

  /** The `forEach` of `processChannels`. */
  method TallyAll(m0: Tally, cs: seq<Channel>) returns (m: Tally)
    ensures m == TallyFrom(m0, cs)
  {
    m := m0;
    var i := 0;
    while i < |cs|
      invariant 0 <= i <= |cs|
      invariant m == TallyFrom(m0, cs[..i])
    {
      TallyStep(m0, cs, i);
      m := Bump(m, GroupOf(cs[i]));
      i := i + 1;
    }
    assert cs[..|cs|] == cs;
  }

  const ChunkSize := 200
  const LargeListThreshold := 1000

  /** One `processChunk` call: the bumps for channels `from` up to `end`. */
  method TallyChunk(m0: Tally, cs: seq<Channel>, m1: Tally, from: nat, end: nat) returns (m: Tally)
    requires from <= end <= |cs|
    requires m1 == TallyFrom(m0, cs[..from])
    ensures m == TallyFrom(m0, cs[..end])
  {
    m := m1;
    for i := from to end
      invariant m == TallyFrom(m0, cs[..i])
    {
      TallyStep(m0, cs, i);
      m := Bump(m, GroupOf(cs[i]));
    }
  }

  /** `processLargeChannelList`: the same bumps, 200 channels per chunk,
      each chunk run from its own timer (the scheduling is not modelled). */
  method TallyInChunks(m0: Tally, cs: seq<Channel>) returns (m: Tally)
    ensures m == TallyFrom(m0, cs)
  {
    m := m0;
    var processed := 0;
    while processed < |cs|
      invariant 0 <= processed <= |cs|
      invariant m == TallyFrom(m0, cs[..processed])
    {
      var end := if processed + ChunkSize < |cs| then processed + ChunkSize else |cs|;
      m := TallyChunk(m0, cs, m, processed, end);
      processed := end;
    }
    assert cs[..|cs|] == cs;
  }

  /** `processChannels` with `favorites.size == favoriteCount`, starting
      from the map `previous`: an empty list leaves it alone; otherwise the
      map is rebuilt, `all` and `favorites` first, then one count per
      category (`General` for a channel without group). A group literally
      named `all` or `favorites` adds to that fixed entry. */
  method ProcessChannels(cs: seq<Channel>, favoriteCount: nat, previous: Tally) returns (m: Tally)
    ensures |cs| == 0 ==> m == previous
    ensures |cs| > 0 ==> m == TallyFrom(Initial(|cs|, favoriteCount), cs)
    ensures |cs| > 0 ==>
              && Get(m, AllKey) == |cs| + Count(cs, AllKey)
              && Get(m, FavoritesKey) == favoriteCount + Count(cs, FavoritesKey)
              && (forall k :: k != AllKey && k != FavoritesKey ==> Get(m, k) == Count(cs, k))
  {
    if |cs| == 0 {
      return previous;
    }
    var m0 := Initial(|cs|, favoriteCount);
    if |cs| > LargeListThreshold {
      m := TallyInChunks(m0, cs);
    } else {
      m := TallyAll(m0, cs);
    }
    FreshCounts(cs, favoriteCount);
  }

  /** The counts of a rebuilt map. */
  lemma FreshCounts(cs: seq<Channel>, favoriteCount: nat)
    ensures var m := TallyFrom(Initial(|cs|, favoriteCount), cs);
            && Get(m, AllKey) == |cs| + Count(cs, AllKey)
            && Get(m, FavoritesKey) == favoriteCount + Count(cs, FavoritesKey)
            && (forall k :: k != AllKey && k != FavoritesKey ==> Get(m, k) == Count(cs, k))
  {
    var m0 := Initial(|cs|, favoriteCount);
    forall k
      ensures Get(TallyFrom(m0, cs), k) == Get(m0, k) + Count(cs, k)
    {
      TallyCounts(m0, cs, k);
    }
  }

  /** No channel's category is one of the two fixed entries. */
  predicate NoFixedGroup(cs: seq<Channel>) {
    forall i :: 0 <= i < |cs| ==> GroupOf(cs[i]) != AllKey && GroupOf(cs[i]) != FavoritesKey
  }

  /** With no group named `all` or `favorites`, the category counts add up
      to the number of channels. */
  lemma GroupCountsSum(cs: seq<Channel>, favoriteCount: nat)
    requires NoFixedGroup(cs)
    ensures Total(TallyFrom(Initial(|cs|, favoriteCount), cs) - {AllKey, FavoritesKey}) == |cs|
  {
    var m0 := Initial(|cs|, favoriteCount);
    var m := TallyFrom(m0, cs);
    TallyTotal(m0, cs);
    InitialTotal(|cs|, favoriteCount);
    FixedEntries(cs, favoriteCount);
    TotalRemoveTwo(m, AllKey, FavoritesKey);
  }

  lemma FixedEntries(cs: seq<Channel>, favoriteCount: nat)
    requires NoFixedGroup(cs)
    ensures var m := TallyFrom(Initial(|cs|, favoriteCount), cs);
            && AllKey in m && m[AllKey] == |cs|
            && FavoritesKey in m && m[FavoritesKey] == favoriteCount
  {
    var m0 := Initial(|cs|, favoriteCount);
    TallyCounts(m0, cs, AllKey);
    TallyCounts(m0, cs, FavoritesKey);
    NoneInGroup(cs, AllKey);
    NoneInGroup(cs, FavoritesKey);
    TallyKeys(m0, cs, AllKey);
    TallyKeys(m0, cs, FavoritesKey);
  }

  lemma InitialTotal(channelCount: nat, favoriteCount: nat)
    ensures Total(Initial(channelCount, favoriteCount)) == channelCount + favoriteCount
  {
    var m0 := Initial(channelCount, favoriteCount);
    TotalRemoveTwo(m0, AllKey, FavoritesKey);
    assert m0 - {AllKey, FavoritesKey} == map[];
  }

  lemma {:induction false} NoneInGroup(cs: seq<Channel>, k: string)
    requires forall i :: 0 <= i < |cs| ==> GroupOf(cs[i]) != k
    ensures Count(cs, k) == 0
  {
    if |cs| > 0 {
      NoneInGroup(cs[..|cs| - 1], k);
    }
  }

  // ----- icons ------------------------------------------------------------

  /** A class list, or the inherited member a plain-object lookup returns
      for a name such as `constructor`. */
  datatype Icon = IconClass(classes: string) | InheritedMember(key: string)

  const DefaultIcon := "fas fa-tv"

  const IconMap: map<string, string> := map[
    "deportes" := "fas fa-futbol", "sports" := "fas fa-futbol",
    "noticias" := "fas fa-newspaper", "news" := "fas fa-newspaper",
    "peliculas" := "fas fa-film", "movies" := "fas fa-film",
    "entretenimiento" := "fas fa-star", "entertainment" := "fas fa-star",
    "infantil" := "fas fa-child", "kids" := "fas fa-child",
    "musica" := "fas fa-music", "music" := "fas fa-music",
    "documentales" := "fas fa-graduation-cap", "documentaries" := "fas fa-graduation-cap"
  ]

  /** `iconMap[category.toLowerCase()] || 'fas fa-tv'`. */
  function GetCategoryIcon(category: string): (icon: Icon)
    ensures ToLower(category) in IconMap ==> icon == IconClass(IconMap[ToLower(category)])
    ensures icon.InheritedMember? <==> ToLower(category) !in IconMap && IsInherited(ToLower(category))
    ensures icon == IconClass(DefaultIcon) <==> ToLower(category) !in IconMap && !IsInherited(ToLower(category))
  {
    var key := ToLower(category);
    if key in IconMap then IconClass(IconMap[key])
    else if IsInherited(key) then InheritedMember(key)
    else IconClass(DefaultIcon)
  }

  /** The lookup ignores case: a name and its lower-cased form get the
      same icon. */
  lemma IconIgnoresCase(category: string)
    ensures GetCategoryIcon(ToLower(category)) == GetCategoryIcon(category)
  {
    ToLowerIdempotent(category);
  }
}
