/** `getCurrentProgram` of renderer.js: the programme a channel is showing
    at a given time, looked up in the guide under six spellings of the
    channel's name. */
module Matcher {
  import opened Wrappers
  import opened Seqs
  import opened Text
  import opened JsObject
  import opened Epg

  // ----- the candidate keys -----------------------------------------------

  /** Not white space: what `replace(/\s+/g, '')` keeps. */
  predicate NotSpace(c: char) {
    !IsSpace(c)
  }

  /** Every character but `c`. */
  function Except(c: char): char -> bool {
    x => x != c
  }

  /** `replace(/\s+/g, sep)`: every maximal run of white space becomes one
      `sep`. */
  function CollapseSpaces(s: string, sep: string): (r: string)
    decreases |s|
  {
    if |s| == 0 then ""
    else if IsSpace(s[0]) then
      var rest := TrimStart(s);
      assert rest == TrimStart(s[1..]);
      sep + CollapseSpaces(rest, sep)
    else [s[0]] + CollapseSpaces(s[1..], sep)
  }

  /** A maximal run of white space, between a part that does not end in
      white space and one that does not start with it, becomes exactly one
      `sep`: `"a \t b"` gives `"a_b"`, not `"a___b"`. */
  lemma CollapseRun(a: string, w: string, b: string, sep: string)
    requires w != "" && IsBlank(w)
    requires |a| == 0 || !IsSpace(a[|a| - 1])
    requires |b| == 0 || !IsSpace(b[0])
    ensures CollapseSpaces(a + w + b, sep) == CollapseSpaces(a, sep) + sep + CollapseSpaces(b, sep)
  {
    Regroup(a, w, b);
    CollapseAppend(a, w + b, sep);
    RunAtStart(w, b, sep);
    Regroup(CollapseSpaces(a, sep), sep, CollapseSpaces(b, sep));
  }

  /** A run at the very start becomes one `sep`. */
  lemma RunAtStart(w: string, b: string, sep: string)
    requires w != "" && IsBlank(w)
    requires |b| == 0 || !IsSpace(b[0])
    ensures CollapseSpaces(w + b, sep) == sep + CollapseSpaces(b, sep)
  {
    assert (w + b)[0] == w[0];
    TrimStartBlank(w, b);
    CollapseHead(w + b, sep);
  }

  /** Text that does not end in white space is collapsed on its own: no run
      straddles its end. */
  lemma {:induction false} CollapseAppend(a: string, z: string, sep: string)
    requires |a| == 0 || !IsSpace(a[|a| - 1])
    ensures CollapseSpaces(a + z, sep) == CollapseSpaces(a, sep) + CollapseSpaces(z, sep)
    decreases |a|
  {
    if |a| == 0 {
      assert a + z == z;
    } else if IsSpace(a[0]) {
      var t := TrimStart(a);
      assert 0 < |t| < |a| && t[|t| - 1] == a[|a| - 1];
      CollapseAppend(t, z, sep);
      AppendAfterSpace(a, z, sep);
    } else {
      CollapseAppend(a[1..], z, sep);
      AppendAfterChar(a, z, sep);
    }
  }

  /** The step of `CollapseAppend` past a leading run of `a`. */
  lemma AppendAfterSpace(a: string, z: string, sep: string)
    requires |a| > 0 && IsSpace(a[0]) && !IsSpace(a[|a| - 1])
    requires CollapseSpaces(TrimStart(a) + z, sep) == CollapseSpaces(TrimStart(a), sep) + CollapseSpaces(z, sep)
    ensures CollapseSpaces(a + z, sep) == CollapseSpaces(a, sep) + CollapseSpaces(z, sep)
  {
    assert (a + z)[0] == a[0];
    TrimStartAppend(a, z);
    CollapseHead(a + z, sep);
    CollapseHead(a, sep);
    Regroup(sep, CollapseSpaces(TrimStart(a), sep), CollapseSpaces(z, sep));
  }

  /** The step of `CollapseAppend` past a first character of `a` that is
      not white space. */
  lemma AppendAfterChar(a: string, z: string, sep: string)
    requires |a| > 0 && !IsSpace(a[0])
    requires CollapseSpaces(a[1..] + z, sep) == CollapseSpaces(a[1..], sep) + CollapseSpaces(z, sep)
    ensures CollapseSpaces(a + z, sep) == CollapseSpaces(a, sep) + CollapseSpaces(z, sep)
  {
    var x := a[1..];
    HeadSplit(a, z);
    CollapseCons(a[0], x + z, sep);
    CollapseCons(a[0], x, sep);
    Regroup([a[0]], CollapseSpaces(a[1..], sep), CollapseSpaces(z, sep));
  }

  /** A character that is not white space is kept as it is. */
  lemma CollapseCons(c: char, x: string, sep: string)
    requires !IsSpace(c)
    ensures CollapseSpaces([c] + x, sep) == [c] + CollapseSpaces(x, sep)
  {
    assert ([c] + x)[0] == c && ([c] + x)[1..] == x;
  }

  /** One step of `CollapseSpaces`. */
  lemma CollapseHead(s: string, sep: string)
    requires |s| > 0
    ensures IsSpace(s[0]) ==> CollapseSpaces(s, sep) == sep + CollapseSpaces(TrimStart(s), sep)
    ensures !IsSpace(s[0]) ==> CollapseSpaces(s, sep) == [s[0]] + CollapseSpaces(s[1..], sep)
  {
  }

  /** White space in front of text that does not start with white space is
      all `TrimStart` removes. */
  lemma {:induction false} TrimStartBlank(w: string, b: string)
    requires IsBlank(w)
    requires |b| == 0 || !IsSpace(b[0])
    ensures TrimStart(w + b) == b
    decreases |w|
  {
    if |w| > 0 {
      assert (w + b)[1..] == w[1..] + b;
      TrimStartBlank(w[1..], b);
    } else {
      assert w + b == b;
    }
  }

  /** `TrimStart` stops inside a text that ends in something other than
      white space. */
  lemma {:induction false} TrimStartAppend(x: string, y: string)
    requires |x| > 0 && !IsSpace(x[|x| - 1])
    ensures TrimStart(x + y) == TrimStart(x) + y
    decreases |x|
  {
    if IsSpace(x[0]) {
      assert (x + y)[1..] == x[1..] + y;
      TrimStartAppend(x[1..], y);
    }
  }

  /** No white space anywhere. */
  predicate NoSpace(s: string) {
    forall i :: 0 <= i < |s| ==> !IsSpace(s[i])
  }

  /** The keys tried, in order: the name itself, lower-cased, without
      white space, without anything but ASCII letters and digits, and with
      each white-space run turned into `_` and into `-`. */
  function Candidates(name: string): (ids: seq<string>)
    ensures |ids| == 6 && ids[0] == name
  {
    [ name,
      ToLower(name),
      Filter(name, NotSpace),
      Filter(name, IsAsciiAlnum),
      CollapseSpaces(name, "_"),
      CollapseSpaces(name, "-") ]
  }

  /** What each spelling is: the name, its lower-cased form, then four
      spellings without white space, the fourth of ASCII letters and digits
      only and the third keeping every other character of the name; in the
      last two every run of white space is one `_` or `-` (`CollapseRun`). */
  lemma CandidateSpellings(name: string)
    ensures var ids := Candidates(name);
            && ids[1] == ToLower(name)
            && NoSpace(ids[2]) && NoSpace(ids[3]) && NoSpace(ids[4]) && NoSpace(ids[5])
            && (forall i :: 0 <= i < |ids[3]| ==> IsAsciiAlnum(ids[3][i]))
            && (forall c :: c in ids[2] <==> c in name && !IsSpace(c))
            && ids[4] == CollapseSpaces(name, "_") && ids[5] == CollapseSpaces(name, "-")
  {
    SpellingFacts(name);
  }

  lemma SpellingFacts(name: string)
    ensures NoSpace(Filter(name, NotSpace)) && NoSpace(Filter(name, IsAsciiAlnum))
    ensures NoSpace(CollapseSpaces(name, "_")) && NoSpace(CollapseSpaces(name, "-"))
    ensures forall i :: 0 <= i < |Filter(name, IsAsciiAlnum)| ==> IsAsciiAlnum(Filter(name, IsAsciiAlnum)[i])
    ensures forall c :: c in Filter(name, NotSpace) <==> c in name && !IsSpace(c)
  {
    FilterMembers(name, NotSpace);
    FilterKeeps(name, NotSpace);
    FilterKeeps(name, IsAsciiAlnum);
    var alnum := Filter(name, IsAsciiAlnum);
    forall i | 0 <= i < |alnum|
      ensures !IsSpace(alnum[i])
    {
      assert IsAsciiAlnum(alnum[i]);
    }
    CollapseNoSpace(name, "_");
    CollapseNoSpace(name, "-");
  }

  // ----- reading the guide as a JavaScript object -------------------------

  /** What `epgData[id]` yields: an own list, a (truthy, non-iterable)
      inherited member, or `undefined`. */
  datatype Lookup = Own(programmes: seq<Programme>) | Inherited | Absent

  function LookupKey(g: Guide, id: string): (l: Lookup)
    ensures l.Own? <==> id in g
    ensures l.Own? ==> l.programmes == g[id]
    ensures l.Inherited? <==> id !in g && IsInherited(id)
  {
    if id in g then Own(g[id]) else if IsInherited(id) then Inherited else Absent
  }

  /** `program.start <= currentTime && program.stop > currentTime`, with a
      `null` bound read as 0: the half-open interval `[start, stop)`. */
  predicate IsCurrent(p: Programme, now: int) {
    p.start.GetOr(0) <= now < p.stop.GetOr(0)
  }

  /** The inner `for..of`: the first programme of the list on air at `now`. */
  function FirstCurrent(ps: seq<Programme>, now: int): (r: Option<Programme>)
    ensures r.None? <==> forall i :: 0 <= i < |ps| ==> !IsCurrent(ps[i], now)
    ensures r.Some? ==> exists i :: 0 <= i < |ps| && ps[i] == r.value
                                    && IsCurrent(ps[i], now)
                                    && forall j :: 0 <= j < i ==> !IsCurrent(ps[j], now)
  {
    if |ps| == 0 then None
    else if IsCurrent(ps[0], now) then Some(ps[0])
    else
      var r := FirstCurrent(ps[1..], now);
      assert forall i :: 1 <= i < |ps| ==> ps[i] == ps[1..][i - 1];
      if r.Some? then
        var i :| 0 <= i < |ps[1..]| && ps[1..][i] == r.value && IsCurrent(ps[1..][i], now)
                  && forall j :: 0 <= j < i ==> !IsCurrent(ps[1..][j], now);
        assert ps[i + 1] == r.value;
        r
      else r
  }

  /** The outcome once a key has been found: iterating an inherited
      member throws a `TypeError`. */
  function Decide(l: Lookup, now: int): Result<Option<Programme>, string>
    requires !l.Absent?
  {
    match l
    case Own(ps) => Success(FirstCurrent(ps, now))
    case Inherited => Failure("TypeError: programs is not iterable")
  }

  /** Candidate `j` is the first one the guide answers. */
  predicate FirstFound(g: Guide, ids: seq<string>, j: int) {
    && 0 <= j < |ids| && !LookupKey(g, ids[j]).Absent?
    && forall i :: 0 <= i < j ==> LookupKey(g, ids[i]).Absent?
  }

  /** The candidate loop: the first key the guide answers decides, and
      the loop `break`s after it whatever its list holds. */
  method Search(g: Guide, ids: seq<string>, now: int) returns (r: Result<Option<Programme>, string>)
    ensures (forall i :: 0 <= i < |ids| ==> LookupKey(g, ids[i]).Absent?) ==> r == Success(None)
    ensures forall j :: FirstFound(g, ids, j) ==> r == Decide(LookupKey(g, ids[j]), now)
    ensures |ids| > 0 && ids[0] in g ==> r == Success(FirstCurrent(g[ids[0]], now))
    ensures forall j ::
              (&& FirstFound(g, ids, j)
               && ids[j] in g
               && forall i :: 0 <= i < |g[ids[j]]| ==> !IsCurrent(g[ids[j]][i], now))
              ==> r == Success(None)
    ensures r.Success? && r.value.Some? ==>
              IsCurrent(r.value.value, now) && r.value.value.stop.GetOr(0) != now
              && exists j :: FirstFound(g, ids, j) && ids[j] in g && r.value.value in g[ids[j]]
  {
    var k := 0;
    while k < |ids|
      invariant 0 <= k <= |ids|
      invariant forall i :: 0 <= i < k ==> LookupKey(g, ids[i]).Absent?
    {
      var l := LookupKey(g, ids[k]);
      if !l.Absent? {
        FirstFoundUnique(g, ids, k);
        if |ids| > 0 && ids[0] in g {
          assert FirstFound(g, ids, 0);
        }
        return Decide(l, now);
      }
      k := k + 1;
    }
    return Success(None);
  }

  /** At most one candidate is the first found. */
  lemma FirstFoundUnique(g: Guide, ids: seq<string>, j: int)
    requires FirstFound(g, ids, j)
    ensures forall i :: FirstFound(g, ids, i) ==> i == j
  {
  }

  /** `getCurrentProgram(channelName, currentTime)` with the guide in
      `epg` (`None` for `epgData === null`). */
  method GetCurrentProgram(epg: Option<Guide>, name: string, now: int)
    returns (r: Result<Option<Programme>, string>)
    ensures epg.None? ==> r == Success(None)
    // no candidate present: no programme
    ensures epg.Some? && (forall i :: 0 <= i < 6 ==> LookupKey(epg.value, Candidates(name)[i]).Absent?)
            ==> r == Success(None)
    // the first candidate present decides
    ensures epg.Some? ==> forall j :: FirstFound(epg.value, Candidates(name), j) ==>
              r == Decide(LookupKey(epg.value, Candidates(name)[j]), now)
    // the exact name is tried first
    ensures epg.Some? && name in epg.value ==> r == Success(FirstCurrent(epg.value[name], now))
    // no fallthrough: a found list with nothing on air gives no programme
    ensures epg.Some? ==> forall j ::
              (&& FirstFound(epg.value, Candidates(name), j)
               && Candidates(name)[j] in epg.value
               && forall i :: 0 <= i < |epg.value[Candidates(name)[j]]| ==> !IsCurrent(epg.value[Candidates(name)[j]][i], now))
              ==> r == Success(None)
    // a programme returned is on air, so it does not end at `now`
    ensures r.Success? && r.value.Some? ==>
              IsCurrent(r.value.value, now) && r.value.value.stop.GetOr(0) != now
              && exists j :: FirstFound(epg.value, Candidates(name), j) && Candidates(name)[j] in epg.value
                             && r.value.value in epg.value[Candidates(name)[j]]
  {
    if epg.None? {
      return Success(None);
    }
    r := Search(epg.value, Candidates(name), now);
  }

  /** A name without white space is its own white-space-free, `_` and `-`
      spelling. */
  lemma SpacelessCandidates(name: string)
    requires forall i :: 0 <= i < |name| ==> !IsSpace(name[i])
    ensures Candidates(name)[2] == name
    ensures Candidates(name)[4] == name && Candidates(name)[5] == name
  {
    CollapseSpaceFree(name, "_");
    CollapseSpaceFree(name, "-");
  }

  /** Text without white space is left as it is. */
  lemma {:induction false} CollapseSpaceFree(s: string, sep: string)
    requires forall i :: 0 <= i < |s| ==> !IsSpace(s[i])
    ensures CollapseSpaces(s, sep) == s
    decreases |s|
  {
    if |s| > 0 {
      CollapseSpaceFree(s[1..], sep);
      HeadSplit(s, []);
      CollapseCons(s[0], s[1..], sep);
    }
  }

  /** Collapsing runs leaves no white space behind when the replacement has
      none. */
  lemma {:induction false} CollapseNoSpace(s: string, sep: string)
    requires forall i :: 0 <= i < |sep| ==> !IsSpace(sep[i])
    ensures forall i :: 0 <= i < |CollapseSpaces(s, sep)| ==> !IsSpace(CollapseSpaces(s, sep)[i])
    decreases |s|
  {
    if |s| > 0 {
      if IsSpace(s[0]) {
        CollapseNoSpace(TrimStart(s), sep);
      } else {
        CollapseNoSpace(s[1..], sep);
      }
    }
  }

  /** Deleting the replacement character from the `_` (or `-`) spelling
      gives the white-space-free spelling, when the name does not itself
      contain that character. */
  lemma {:induction false} CollapseThenDrop(s: string, c: char)
    requires !IsSpace(c) && c !in s
    ensures Filter(CollapseSpaces(s, [c]), Except(c)) == Filter(s, NotSpace)
    decreases |s|
  {
    var other := Except(c);
    if |s| > 0 {
      if IsSpace(s[0]) {
        var rest := TrimStart(s);
        assert c !in rest;
        CollapseThenDrop(rest, c);
        CollapseHead(s, [c]);
        FilterCons(c, CollapseSpaces(rest, [c]), other);
        DropSpacesFilter(s, rest);
      } else {
        var x, tail := s[0], s[1..];
        CollapseThenDrop(tail, c);
        HeadSplit(s, []);
        CollapseCons(x, tail, [c]);
        FilterCons(x, CollapseSpaces(tail, [c]), other);
        FilterCons(x, tail, NotSpace);
      }
    }
  }

  /** Leading white space is invisible to the white-space filter. */
  lemma {:induction false} DropSpacesFilter(s: string, rest: string)
    requires rest == TrimStart(s)
    ensures Filter(s, NotSpace) == Filter(rest, NotSpace)
  {
    if |s| > 0 && IsSpace(s[0]) {
      DropSpacesFilter(s[1..], rest);
      HeadSplit(s, []);
      FilterCons(s[0], s[1..], NotSpace);
    }
  }
}
