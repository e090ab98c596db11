/** What the channel list shows: `filterChannels` (category, then search
    term) and the pagination of `renderChannelsOptimized` / `changePage`
    in renderer.js. */
module Browse {
  import opened Seqs
  import opened Text
  import opened Playlist

  const AllCategory := "all"
  const FavoritesCategory := "favorites"

  /** The category test: favourites by id, `all` everything, any other name
      the channels whose group is exactly that name. */
  function InCategory(category: string, favorites: set<string>): Channel -> bool {
    (c: Channel) => if category == FavoritesCategory then c.id in favorites
         else category == AllCategory || c.group == category
  }

  /** The search test: the lower-cased name or group contains the term. */
  function MatchesTerm(term: string): Channel -> bool {
    (c: Channel) => Contains(ToLower(c.name), term) || Contains(ToLower(c.group), term)
  }

  /** `searchInput.value.toLowerCase().trim()`. */
  function SearchTerm(input: string): (term: string)
    ensures IsTrimmed(term)
    ensures term == "" <==> IsBlank(ToLower(input))
  {
    Trim(ToLower(input))
  }

  /** A channel is listed when it is in the category and, for a non-empty
      term, matches the term. */
  function Shown(category: string, favorites: set<string>, term: string): Channel -> bool {
    (c: Channel) => InCategory(category, favorites)(c) && (term == "" || MatchesTerm(term)(c))
  }

  /** `filterChannels`: the category filter, then the search filter when
      the term is not empty. */
  function FilterChannels(cs: seq<Channel>, category: string, favorites: set<string>, input: string)
    : (shown: seq<Channel>)
    ensures shown == Filter(cs, Shown(category, favorites, SearchTerm(input)))
  {
    var byCategory := Filter(cs, InCategory(category, favorites));
    var term := SearchTerm(input);
    FilterTwice(cs, category, favorites, term);
    if term != "" then Filter(byCategory, MatchesTerm(term)) else byCategory
  }

  /** Two filters in a row are one filter by the conjunction. */
  lemma {:induction false} FilterTwice(cs: seq<Channel>, category: string, favorites: set<string>, term: string)
    ensures term != "" ==>
              Filter(Filter(cs, InCategory(category, favorites)), MatchesTerm(term))
              == Filter(cs, Shown(category, favorites, term))
    ensures term == "" ==>
              Filter(cs, InCategory(category, favorites)) == Filter(cs, Shown(category, favorites, term))
  {
    if |cs| > 0 {
      var p, q, both := InCategory(category, favorites), MatchesTerm(term), Shown(category, favorites, term);
      var x, rest := cs[0], cs[1..];
      FilterTwice(rest, category, favorites, term);
      var head := if p(x) then [x] else [];
      assert Filter(cs, p) == head + Filter(rest, p);
      assert Filter(cs, both) == (if both(x) then [x] else []) + Filter(rest, both);
      if term != "" {
        FilterConcat(head, Filter(rest, p), q);
        assert Filter(head, q) == if p(x) && q(x) then [x] else [] by {
          if p(x) {
            assert head[1..] == [];
          }
        }
      }
    }
  }

  /** The listed channels are, in their original order, those of the list
      that pass both tests, each as often as it occurs there. */
  lemma FilterChannelsMembers(cs: seq<Channel>, category: string, favorites: set<string>, input: string)
    ensures var shown := FilterChannels(cs, category, favorites, input);
            forall c :: c in shown <==> c in cs && Shown(category, favorites, SearchTerm(input))(c)
  {
    FilterMembers(cs, Shown(category, favorites, SearchTerm(input)));
  }

  /** `all` with a blank search lists everything, unchanged. */
  lemma AllUnfiltered(cs: seq<Channel>, favorites: set<string>, input: string)
    requires IsBlank(ToLower(input))
    ensures FilterChannels(cs, AllCategory, favorites, input) == cs
  {
    assert SearchTerm(input) == "";
    assert AllCategory != FavoritesCategory by { assert |AllCategory| != |FavoritesCategory|; }
    var term := SearchTerm(input);
    forall i | 0 <= i < |cs|
      ensures Shown(AllCategory, favorites, term)(cs[i])
    {
      assert InCategory(AllCategory, favorites)(cs[i]);
    }
  }

  // ----- pagination -------------------------------------------------------

  /** `channelsPerPage`. */
  const PerPage := 50

  /** `Math.ceil(n / channelsPerPage)`. */
  function TotalPages(n: nat): (pages: nat)
    ensures pages * PerPage >= n
    ensures n > 0 ==> (pages - 1) * PerPage < n
    ensures n == 0 <==> pages == 0
  {
    (n + PerPage - 1) / PerPage
  }

  /** `filteredChannels.slice(startIndex, endIndex)` for page `page`. */
  function PageOf(cs: seq<Channel>, page: nat): (visible: seq<Channel>)
    ensures |visible| <= PerPage
    ensures page * PerPage <= |cs| ==>
              visible == cs[page * PerPage .. if page * PerPage + PerPage < |cs| then page * PerPage + PerPage else |cs|]
    ensures page < TotalPages(|cs|) <==> |visible| > 0
  {
    var start := page * PerPage;
    if start >= |cs| then []
    else cs[start .. if start + PerPage < |cs| then start + PerPage else |cs|]
  }

  /** The first `k` pages, one after the other. */
  function Pages(cs: seq<Channel>, k: nat): seq<Channel> {
    if k == 0 then [] else Pages(cs, k - 1) + PageOf(cs, k - 1)
  }

  lemma {:induction false} PagesPrefix(cs: seq<Channel>, k: nat)
    ensures Pages(cs, k) == cs[..if k * PerPage < |cs| then k * PerPage else |cs|]
  {
    if k > 0 {
      PagesPrefix(cs, k - 1);
      PageIsSlice(cs, k - 1);
      PrefixGrows(cs, PageStart(|cs|, k - 1), PageStart(|cs|, k));
    }
  }

  /** Where page `p` starts in a list of `n`, or `n` when it starts past the end. */
  function PageStart(n: nat, p: nat): nat {
    if p * PerPage < n then p * PerPage else n
  }

  /** Page `p` runs from where it starts to where the next one starts. */
  lemma PageIsSlice(cs: seq<Channel>, p: nat)
    ensures PageStart(|cs|, p) <= PageStart(|cs|, p + 1)
    ensures PageOf(cs, p) == cs[PageStart(|cs|, p)..PageStart(|cs|, p + 1)]
  {
    assert (p + 1) * PerPage == p * PerPage + PerPage;
  }

  /** The pages a user can step through show every listed channel exactly
      once, in order. */
  lemma PagesCoverList(cs: seq<Channel>)
    ensures Pages(cs, TotalPages(|cs|)) == cs
  {
    PagesPrefix(cs, TotalPages(|cs|));
  }

  /** `changePage(newPage)`: the page moves only to one that exists. */
  function ChangePage(current: nat, newPage: int, totalPages: nat): (page: nat)
    // a page that exists is reached ...
    ensures 0 <= newPage < totalPages ==> page == newPage
    // ... any other request leaves the page where it was ...
    ensures !(0 <= newPage < totalPages) ==> page == current
    ensures page == newPage || page == current
    // ... so a page that exists stays one that exists
    ensures current < totalPages ==> page < totalPages
  {
    if 0 <= newPage < totalPages then newPage else current
  }

  /** Starting from a page that exists, every page change keeps the page
      within the list. */
  lemma ChangePageStaysInRange(current: nat, newPage: int, cs: seq<Channel>)
    requires current < TotalPages(|cs|)
    ensures |PageOf(cs, ChangePage(current, newPage, TotalPages(|cs|)))| > 0
  {
  }
}
