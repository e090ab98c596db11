/** The grouping half of `parseEPG` in renderer.js: the XMLTV `programme`
    elements, already read out of the document, are filed under their
    `channel` attribute in a plain object, and each channel's list is then
    sorted by start time. */
module Epg {
  import opened Wrappers
  import opened Seqs
  import opened JsObject
  import opened EpgTime
  import opened StableSort
  import opened MapSum

  /** What `parseEPG` reads from one `programme` element: its `channel`,
      `start` and `stop` attributes (`None` when absent) and the text of its
      first `title` and `desc` children (`None` when there is none). */
  datatype ProgrammeElement = ProgrammeElement(
    channel: Option<string>, start: Option<string>, stop: Option<string>,
    title: Option<string>, desc: Option<string>)

  /** One entry of a channel's list; `start`/`stop` are `null` (`None`) or a
      time value in milliseconds. */
  datatype Programme = Programme(
    title: string, description: string, start: Option<int>, stop: Option<int>,
    startRaw: Option<string>, stopRaw: Option<string>)

  type Guide = map<string, seq<Programme>>

  const NoTitle := "Sin título"

  /** The property key `channels[channelId]` uses: a missing attribute is
      `null`, which becomes the key `"null"`. */
  function KeyOf(e: ProgrammeElement): string {
    e.channel.GetOr("null")
  }

  /** Both times are ones this model interprets (absent, empty or a valid
      calendar stamp). */
  predicate TimesModelled(e: ProgrammeElement) {
    ParseEPGTime(e.start).Success? && ParseEPGTime(e.stop).Success?
  }

  predicate AllModelled(es: seq<ProgrammeElement>) {
    forall i :: 0 <= i < |es| ==> TimesModelled(es[i])
  }

  /** The time value a stamp read as, `null` for an absent or empty one. */
  function TimeOf(s: Option<string>): Option<int> {
    match ParseEPGTime(s)
    case Success(t) => t
    case Failure(_) => None
  }

  /** `t` is the instant the raw attribute `raw` names: a time value exactly
      for a non-empty well-formed stamp, and then the one it writes. */
  predicate NamesInstant(raw: Option<string>, t: Option<int>) {
    && (t.Some? <==> raw.Some? && raw.value != "" && WellFormedStamp(CleanTime(raw.value)))
    && (t.Some? ==> t.value == EpochMs(FieldsOf(CleanTime(raw.value))))
  }

  /** The object pushed for one element: its times are the instants its
      attributes name (`null` for an absent or empty one), its title falls
      back to `Sin título` and its description to `''`. For a non-empty
      malformed stamp the program stores an Invalid Date, which this model
      does not represent: `null` stands in for it, and `ParseEPG` admits
      only elements whose stamps are all modelled. */
  function ToProgramme(e: ProgrammeElement): (p: Programme)
    ensures NamesInstant(e.start, p.start) && NamesInstant(e.stop, p.stop)
    ensures p.startRaw == e.start && p.stopRaw == e.stop
    ensures p.title != "" || e.title == Some("")
    ensures e.title.None? ==> p.title == NoTitle
    ensures e.desc.None? ==> p.description == ""
    ensures e.title.Some? ==> p.title == e.title.value
    ensures e.desc.Some? ==> p.description == e.desc.value
  {
    Programme(e.title.GetOr(NoTitle), e.desc.GetOr(""), TimeOf(e.start), TimeOf(e.stop), e.start, e.stop)
  }

  /** A programme and the key it is filed under. */
  datatype Filing = Filing(key: string, programme: Programme)

  /** What the loop files, element by element, with `convert` building
      each programme (`ToProgramme` in `ParseEPG`). */
  function Filings(es: seq<ProgrammeElement>, convert: ProgrammeElement -> Programme): (fs: seq<Filing>)
    ensures |fs| == |es|
    ensures forall i :: 0 <= i < |es| ==> fs[i].key == KeyOf(es[i])
    ensures forall i :: 0 <= i < |es| ==> fs[i].programme == convert(es[i])
  {
    if |es| == 0 then []
    else Filings(es[..|es| - 1], convert) + [Filing(KeyOf(es[|es| - 1]), convert(es[|es| - 1]))]
  }

  /** `channels[k]`, or an empty list where there is none yet. */
  function ListOf(g: Guide, k: string): seq<Programme> {
    if k in g then g[k] else []
  }

  /** The loop of `parseEPG` up to the sort: each programme is appended to
      the list of its key, created empty on first use. */
  function Group(fs: seq<Filing>): Guide {
    if |fs| == 0 then map[]
    else
      var g := Group(fs[..|fs| - 1]);
      var f := fs[|fs| - 1];
      g[f.key := ListOf(g, f.key) + [f.programme]]
  }

  /** `a.start - b.start` with `null` counting as 0. */
  function StartKey(p: Programme): int {
    p.start.GetOr(0)
  }

  /** Some element's key names a property every object inherits; its value
      is truthy, so no list is created, and `.push` on it throws. */
  predicate AnyInherited(es: seq<ProgrammeElement>) {
    exists i :: 0 <= i < |es| && IsInherited(KeyOf(es[i]))
  }

  /** `parseEPG` on the extracted elements: the thrown error is caught and
      `{}` returned. */
  function ParseEPG(es: seq<ProgrammeElement>): (guide: Guide)
    requires AllModelled(es)
    ensures AnyInherited(es) ==> guide == map[]
  {
    if AnyInherited(es) then map[] else SortLists(Group(Filings(es, ToProgramme)))
  }

  /** The `Object.keys(channels).forEach` pass: every list sorted by start
      time, `null` counting as 0. */
  function SortLists(g: Guide): (sorted: Guide)
    ensures sorted.Keys == g.Keys
  {
    map k | k in g :: Sort(g[k], StartKey)
  }

  // ----- the grouping, stated without the loop ----------------------------

  /** The filings under key `k`. */
  function OnKey(k: string): Filing -> bool {
    (f: Filing) => f.key == k
  }

  function Programmes(fs: seq<Filing>): (ps: seq<Programme>)
    ensures |ps| == |fs|
    ensures forall i :: 0 <= i < |fs| ==> ps[i] == fs[i].programme
  {
    if |fs| == 0 then [] else Programmes(fs[..|fs| - 1]) + [fs[|fs| - 1].programme]
  }

  lemma GroupLast(init: seq<Filing>, f: Filing)
    ensures Group(init + [f]) == Group(init)[f.key := ListOf(Group(init), f.key) + [f.programme]]
  {
    var fs := init + [f];
    assert fs[..|fs| - 1] == init;
  }

  lemma FilterLast(init: seq<Filing>, f: Filing, k: string)
    ensures Filter(init + [f], OnKey(k)) == Filter(init, OnKey(k)) + (if f.key == k then [f] else [])
  {
    FilterConcat(init, [f], OnKey(k));
    assert [f][1..] == [];
  }

  /** Some filing is under key `k`. */
  predicate Filed(fs: seq<Filing>, k: string) {
    exists i :: 0 <= i < |fs| && fs[i].key == k
  }

  lemma FiledLast(fs: seq<Filing>, k: string)
    requires |fs| > 0
    ensures Filed(fs, k) <==> Filed(fs[..|fs| - 1], k) || fs[|fs| - 1].key == k
  {
    var init := fs[..|fs| - 1];
    if Filed(init, k) {
      var i :| 0 <= i < |init| && init[i].key == k;
      assert fs[i] == init[i];
    }
    if Filed(fs, k) {
      var i :| 0 <= i < |fs| && fs[i].key == k;
      if i < |init| {
        assert init[i] == fs[i];
      }
    }
  }

  /** The keys of the table are exactly the keys filed. */
  lemma {:induction false} GroupKeys(fs: seq<Filing>, k: string)
    ensures k in Group(fs) <==> Filed(fs, k)
  {
    if |fs| > 0 {
      var init, f := fs[..|fs| - 1], fs[|fs| - 1];
      GroupKeys(init, k);
      FiledLast(fs, k);
      assert Group(fs) == Group(init)[f.key := ListOf(Group(init), f.key) + [f.programme]];
    }
  }

  /** The list under `k` holds exactly the programmes filed under `k`, in
      document order. */
  lemma {:induction false} GroupIsFilter(fs: seq<Filing>, k: string)
    ensures ListOf(Group(fs), k) == Programmes(Filter(fs, OnKey(k)))
  {
    if |fs| > 0 {
      var init, f := fs[..|fs| - 1], fs[|fs| - 1];
      GroupIsFilter(init, k);
      GroupFilterStep(init, f, k);
      LastSplit(fs);
    }
  }

  /** One more filing keeps the list under `k` equal to the filter. */
  lemma GroupFilterStep(init: seq<Filing>, f: Filing, k: string)
    requires ListOf(Group(init), k) == Programmes(Filter(init, OnKey(k)))
    ensures ListOf(Group(init + [f]), k) == Programmes(Filter(init + [f], OnKey(k)))
  {
    GroupLast(init, f);
    FilterLast(init, f, k);
    if f.key == k {
      ProgrammesLast(Filter(init, OnKey(k)), f);
    }
  }

  lemma ProgrammesLast(fs: seq<Filing>, f: Filing)
    ensures Programmes(fs + [f]) == Programmes(fs) + [f.programme]
  {
    assert (fs + [f])[..|fs|] == fs;
  }

  // ----- counting ---------------------------------------------------------

  /** The length of every list. */
  function Sizes(g: Guide): map<string, nat> {
    map k | k in g :: |g[k]|
  }

  lemma {:induction false} GroupSize(fs: seq<Filing>)
    ensures Total(Sizes(Group(fs))) == |fs|
  {
    if |fs| > 0 {
      var init, f := fs[..|fs| - 1], fs[|fs| - 1];
      GroupSize(init);
      GroupSizeStep(init, f);
      LastSplit(fs);
    }
  }

  /** One more filing adds one to the total of the list lengths. */
  lemma GroupSizeStep(init: seq<Filing>, f: Filing)
    ensures Total(Sizes(Group(init + [f]))) == Total(Sizes(Group(init))) + 1
  {
    GroupLast(init, f);
    var g := Group(init);
    var v := ListOf(g, f.key) + [f.programme];
    SizesUpdate(g, f.key, v);
    TotalUpdate(Sizes(g), f.key, |v|);
  }

  lemma SizesUpdate(g: Guide, k: string, v: seq<Programme>)
    ensures Sizes(g[k := v]) == Sizes(g)[k := |v|]
  {
  }

  /** Every element is filed exactly once: the list lengths add up to the
      number of `programme` elements. */
  lemma ParseEPGCount(es: seq<ProgrammeElement>)
    requires AllModelled(es) && !AnyInherited(es)
    ensures Total(Sizes(ParseEPG(es))) == |es|
  {
    var g := Group(Filings(es, ToProgramme));
    assert ParseEPG(es) == SortLists(g);
    GroupSize(Filings(es, ToProgramme));
    SortedSizes(g);
  }

  /** Sorting keeps every list's length. */
  lemma SortedSizes(g: Guide)
    ensures Sizes(SortLists(g)) == Sizes(g)
  {
    var sorted := SortLists(g);
    assert forall k :: k in sorted ==> |sorted[k]| == |g[k]|;
  }

  // ----- the result -------------------------------------------------------

  /** Without an inherited key, the guide has a list exactly for the keys
      the elements use. */
  lemma ParseEPGKeys(es: seq<ProgrammeElement>, k: string)
    requires AllModelled(es) && !AnyInherited(es)
    ensures k in ParseEPG(es) <==> exists i :: 0 <= i < |es| && KeyOf(es[i]) == k
  {
    assert ParseEPG(es) == SortLists(Group(Filings(es, ToProgramme)));
    SortedKeys(es, ToProgramme, k);
  }

  /** The keys of the sorted table, whatever builds the programmes. */
  lemma SortedKeys(es: seq<ProgrammeElement>, convert: ProgrammeElement -> Programme, k: string)
    ensures k in SortLists(Group(Filings(es, convert))) <==> exists i :: 0 <= i < |es| && KeyOf(es[i]) == k
  {
    var fs := Filings(es, convert);
    var g := Group(fs);
    assert SortLists(g).Keys == g.Keys;
    GroupKeys(fs, k);
    FiledKeys(es, convert, k);
  }

  /** A key is filed exactly when some element carries it. */
  lemma FiledKeys(es: seq<ProgrammeElement>, convert: ProgrammeElement -> Programme, k: string)
    ensures Filed(Filings(es, convert), k) <==> exists i :: 0 <= i < |es| && KeyOf(es[i]) == k
  {
    var fs := Filings(es, convert);
    assert forall i :: 0 <= i < |es| ==> fs[i].key == KeyOf(es[i]);
  }

  /** Each list is the programmes filed under its key, ordered by start
      (`null` as 0): a permutation of them in which programmes with the
      same start keep their document order. */
  lemma ParseEPGLists(es: seq<ProgrammeElement>, k: string, v: int)
    requires AllModelled(es) && !AnyInherited(es)
    ensures k in ParseEPG(es) ==>
              var ps := Programmes(Filter(Filings(es, ToProgramme), OnKey(k)));
              && SortedBy(ParseEPG(es)[k], StartKey)
              && multiset(ParseEPG(es)[k]) == multiset(ps)
              && Filter(ParseEPG(es)[k], WithKey(StartKey, v)) == Filter(ps, WithKey(StartKey, v))
  {
    var fs := Filings(es, ToProgramme);
    var g := Group(fs);
    assert ParseEPG(es) == SortLists(g);
    if k in g {
      GroupIsFilter(fs, k);
      SortSorted(g[k], StartKey);
      SortPermutes(g[k], StartKey);
      SortStable(g[k], StartKey, v);
    }
  }
}
