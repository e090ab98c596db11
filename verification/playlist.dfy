/** The M3U playlist parser of renderer.js: `parseExtinf` reads one
    `#EXTINF:` directive (the EXTINF tag of section 4.3.2.1 of RFC 8216, with
    the IPTV attributes `tvg-logo` and `group-title`), `parseM3U` pairs each
    directive with the next stream URL line, and `parseM3UAsync` runs the same
    scan in chunks of 100 lines. */
module Playlist {
  import opened Wrappers
  import opened Text
  import opened ChannelId

  datatype Channel = Channel(id: string, name: string, logo: string, group: string, url: string)

  /** `Math.floor(Math.random() * 1000)`. */
  type Roll = r: int | 0 <= r < 1000 witness 0

  /** What the random source and the clock yield while one line is handled. */
  datatype Draw = Draw(roll: Roll, now: nat, token: string)

  const DirectiveMarker := "#EXTINF:"
  const UrlMarker := "http"
  const DefaultGroup := "General"
  const BlankName := "Canal sin nombre"
  const NumberedNamePrefix := "Canal "
  /** The literal parts of `/tvg-logo="([^"]+)"/` and `/group-title="([^"]+)"/`
      up to and including the opening quote. */
  const LogoKey := "tvg-logo=\""
  const GroupKey := "group-title=\""

  predicate IsDirective(line: string) {
    StartsWith(line, DirectiveMarker)
  }

  /** A line the parser treats as a stream URL (the directive test comes first). */
  predicate IsUrlLine(line: string) {
    !IsDirective(line) && StartsWith(line, UrlMarker)
  }

  // ----- `/,(.+)$/` -------------------------------------------------------

  /** `/,(.+)$/` can match with its comma at index `p`: at least one character
      follows and none of the following characters is a line terminator
      (`.` does not match one, and `$` is the end of the whole line). */
  predicate NameCommaAt(line: string, p: int) {
    && 0 <= p && p + 1 < |line| && line[p] == ','
    && forall k :: p < k < |line| ==> !IsLineTerminator(line[k])
  }

  /** `p` is where the regular expression engine finds the match: the
      leftmost possible comma. */
  predicate FirstNameCommaIs(line: string, p: int) {
    NameCommaAt(line, p) && forall q :: 0 <= q < p ==> !NameCommaAt(line, q)
  }

  function FirstNameComma(line: string, from: nat): (r: Option<nat>)
    ensures r.Some? ==> from <= r.value && NameCommaAt(line, r.value)
    ensures r.Some? ==> forall q :: from <= q < r.value ==> !NameCommaAt(line, q)
    ensures r.None? ==> forall q :: from <= q ==> !NameCommaAt(line, q)
    decreases |line| - from
  {
    if from + 1 >= |line| then None
    else if NameCommaAt(line, from) then Some(from)
    else FirstNameComma(line, from + 1)
  }

  // ----- `key"([^"]+)"` ---------------------------------------------------

  /** The number of characters from index `k` up to the next quote or the end. */
  function QuoteFreeRun(line: string, k: nat): (n: nat)
    requires k <= |line|
    ensures k + n <= |line|
    ensures forall j :: k <= j < k + n ==> line[j] != '"'
    ensures k + n < |line| ==> line[k + n] == '"'
    decreases |line| - k
  {
    if k == |line| || line[k] == '"' then 0 else 1 + QuoteFreeRun(line, k + 1)
  }

  /** The attribute pattern matches at index `p`: `key` (ending in the opening
      quote), one or more non-quote characters, then a closing quote. */
  predicate AttrAt(line: string, key: string, p: int) {
    && 0 <= p && p + |key| <= |line| && line[p..p + |key|] == key
    && var n := QuoteFreeRun(line, p + |key|);
       n > 0 && p + |key| + n < |line|
  }

  predicate FirstAttrIs(line: string, key: string, p: int) {
    AttrAt(line, key, p) && forall q :: 0 <= q < p ==> !AttrAt(line, key, q)
  }

  /** The captured group of a match at `p`. */
  function AttrValueAt(line: string, key: string, p: int): (v: string)
    requires AttrAt(line, key, p)
    ensures |v| > 0 && '"' !in v
    ensures StartsWith(line[p..], key + v + "\"")
  {
    var start := p + |key|;
    var v := line[start..start + QuoteFreeRun(line, start)];
    assert line[p..][..|key + v + "\""|] == key + v + "\"";
    v
  }

  function FirstAttr(line: string, key: string, from: nat): (r: Option<nat>)
    ensures r.Some? ==> from <= r.value && AttrAt(line, key, r.value)
    ensures r.Some? ==> forall q :: from <= q < r.value ==> !AttrAt(line, key, q)
    ensures r.None? ==> forall q :: from <= q ==> !AttrAt(line, key, q)
    decreases |line| - from
  {
    if from + |key| > |line| then None
    else if AttrAt(line, key, from) then Some(from)
    else FirstAttr(line, key, from + 1)
  }

  /** `line.match(/<key>([^"]+)"/)[1]`, or `None` when it does not match. */
  function AttrValue(line: string, key: string): (r: Option<string>)
    ensures forall p :: FirstAttrIs(line, key, p) ==> r == Some(AttrValueAt(line, key, p))
    ensures r.None? ==> forall p :: !AttrAt(line, key, p)
  {
    match FirstAttr(line, key, 0)
    case Some(p) => Some(AttrValueAt(line, key, p))
    case None => None
  }

  /** A line on which the pattern matches nowhere yields no value. */
  lemma AttrValueNone(line: string, key: string)
    requires forall p :: !AttrAt(line, key, p)
    ensures AttrValue(line, key).None?
  {
  }

  // ----- parseExtinf ------------------------------------------------------

  /** The name taken from the text after the name comma. */
  function NameFrom(tail: string): (name: string)
    ensures name != ""
  {
    var t := Trim(tail);
    if t == "" then BlankName else t
  }

  /** `'Canal ' + Math.floor(Math.random() * 1000)`. */
  function NumberedName(roll: Roll): (name: string)
    ensures name != ""
  {
    NumberedNamePrefix + NatToString(roll)
  }

  /** The name `parseExtinf` gives a directive line. */
  function ExtinfName(line: string, roll: Roll): (name: string)
    ensures name != ""
    // the text after the leftmost matching comma, trimmed, or a stand-in for
    // a blank name or for a line without such a comma
    ensures forall p :: FirstNameCommaIs(line, p) ==>
              name == (if Trim(line[p + 1..]) == "" then BlankName else Trim(line[p + 1..]))
    ensures (forall p :: !NameCommaAt(line, p)) ==> name == NumberedNamePrefix + NatToString(roll)
  {
    match FirstNameComma(line, 0)
    case Some(p) => NameFrom(line[p + 1..])
    case None => NumberedName(roll)
  }

  /** `parseExtinf(line)`, with the random draw it may need passed in. The
      result still lacks its `id` and `url`. */
  function ParseExtinf(line: string, roll: Roll): (c: Channel)
    ensures c.id == "" && c.url == ""
    ensures c.name != "" && c.group != ""
  {
    Channel("", ExtinfName(line, roll), AttrValue(line, LogoKey).GetOr(""),
            AttrValue(line, GroupKey).GetOr(DefaultGroup), "")
  }

  /** The fields `parseExtinf` reads: the name after the leftmost matching
      comma, and the value of the leftmost matching `tvg-logo` and
      `group-title` attribute, or their defaults. */
  lemma ParseExtinfFields(line: string, roll: Roll)
    ensures forall p :: FirstAttrIs(line, LogoKey, p) ==>
              ParseExtinf(line, roll).logo == AttrValueAt(line, LogoKey, p)
    ensures (forall p :: !AttrAt(line, LogoKey, p)) ==> ParseExtinf(line, roll).logo == ""
    ensures forall p :: FirstAttrIs(line, GroupKey, p) ==>
              ParseExtinf(line, roll).group == AttrValueAt(line, GroupKey, p)
    ensures (forall p :: !AttrAt(line, GroupKey, p)) ==> ParseExtinf(line, roll).group == DefaultGroup
  {
    if forall p :: !AttrAt(line, LogoKey, p) {
      AttrValueNone(line, LogoKey);
    }
    if forall p :: !AttrAt(line, GroupKey, p) {
      AttrValueNone(line, GroupKey);
    }
  }

  // ----- parseM3U ---------------------------------------------------------

  /** The parser's state between lines: the channels emitted so far and the
      directive still waiting for its URL (`currentChannel`). */
  datatype ScanState = ScanState(channels: seq<Channel>, pending: Option<Channel>)

  const Start := ScanState([], None)

  /** A pending channel completed by its URL line. */
  function Close(c: Channel, url: string, draw: Draw): Channel {
    c.(url := url, id := GenerateChannelId(c.name, url, draw.now, draw.token))
  }

  /** The two per-line actions of the scan: reading a directive (given a
      random draw) and completing the pending channel with its URL line. */
  datatype Scanner = Scanner(read: (string, Roll) -> Channel, close: (Channel, string, Draw) -> Channel)

  /** The actions of renderer.js. */
  const Parser := Scanner(ParseExtinf, Close)

  /** One iteration of the scan loop on line `line`. */
  function Step(st: ScanState, line: string, draw: Draw, sc: Scanner): ScanState {
    if IsDirective(line) then ScanState(st.channels, Some(sc.read(line, draw.roll)))
    else if StartsWith(line, UrlMarker) && st.pending.Some? then
      ScanState(st.channels + [sc.close(st.pending.value, line, draw)], None)
    else st
  }

  /** Every channel the scan emits carries a name, a group, an id and a URL
      line of the input. */
  predicate WellFormed(c: Channel) {
    c.name != "" && c.group != "" && c.id != "" && StartsWith(c.url, UrlMarker)
  }

  /** The state after the first `n` lines, directives being read by `read`
      (`ParseExtinf` in the program); `entropy(i)` is what the random source
      and the clock yield while line `i` is handled. */
  function ScanPrefix(lines: seq<string>, n: nat, entropy: nat -> Draw, sc: Scanner): ScanState
    requires n <= |lines|
  {
    if n == 0 then Start
    else
      var prev := ScanPrefix(lines, n - 1, entropy, sc);
      Step(prev, lines[n - 1], entropy(n - 1), sc)
  }

  lemma ScanPrefixStep(lines: seq<string>, n: nat, entropy: nat -> Draw, sc: Scanner)
    requires n < |lines|
    ensures ScanPrefix(lines, n + 1, entropy, sc) == Step(ScanPrefix(lines, n, entropy, sc), lines[n], entropy(n), sc)
  {
  }

  /** `parseM3U(content)`. */
  function ParseM3U(content: string, entropy: nat -> Draw): seq<Channel>
  {
    var lines := Lines(content);
    ScanPrefix(lines, |lines|, entropy, Parser).channels
  }

  /** A directive line directly followed by a URL line adds the channel the
      two make and leaves nothing pending, whatever was pending before. */
  lemma DirectiveThenUrl(lines: seq<string>, j: nat, entropy: nat -> Draw, sc: Scanner)
    requires j + 2 <= |lines| && IsDirective(lines[j]) && IsUrlLine(lines[j + 1])
    ensures ScanPrefix(lines, j + 2, entropy, sc)
            == ScanState(ScanPrefix(lines, j, entropy, sc).channels
                         + [sc.close(sc.read(lines[j], entropy(j).roll), lines[j + 1], entropy(j + 1))], None)
  {
    ScanPrefixStep(lines, j, entropy, sc);
    ScanPrefixStep(lines, j + 1, entropy, sc);
  }

  lemma ParseByLines(content: string, lines: seq<string>, entropy: nat -> Draw)
    requires Lines(content) == lines
    ensures ParseM3U(content, entropy) == ScanPrefix(lines, |lines|, entropy, Parser).channels
  {
  }

  /** Actions that always give a name and a group, and complete a channel
      with a non-empty id and the URL line itself. */
  ghost predicate Sound(sc: Scanner) {
    && (forall line: string, roll: Roll :: sc.read(line, roll).name != "" && sc.read(line, roll).group != "")
    && forall c: Channel, url: string, draw: Draw ::
         var d := sc.close(c, url, draw);
         d.name == c.name && d.group == c.group && d.url == url && (c.name != "" ==> d.id != "")
  }

  /** The actions of renderer.js are sound. */
  lemma ParserSound()
    ensures Sound(Parser)
  {
    forall c: Channel, url: string, draw: Draw | c.name != ""
      ensures Close(c, url, draw).id != ""
    {
      var id := GenerateChannelId(c.name, url, draw.now, draw.token);
      if Combined(c.name, url) == "" {
        assert |id| >= |FallbackPrefix|;
      }
    }
  }

  /** Every channel the scan has emitted so far is well formed, and so is
      the name and group of the one pending. */
  lemma {:induction false} ScanPrefixWellFormed(lines: seq<string>, n: nat, entropy: nat -> Draw, sc: Scanner)
    requires n <= |lines| && Sound(sc)
    ensures forall i :: 0 <= i < |ScanPrefix(lines, n, entropy, sc).channels| ==>
              WellFormed(ScanPrefix(lines, n, entropy, sc).channels[i])
    ensures var st := ScanPrefix(lines, n, entropy, sc);
            st.pending.Some? ==> st.pending.value.name != "" && st.pending.value.group != ""
  {
    if n > 0 {
      ScanPrefixWellFormed(lines, n - 1, entropy, sc);
    }
  }

  /** When the lines are trimmed, so is every emitted URL. */
  lemma {:induction false} ScanPrefixTrimmedUrls(lines: seq<string>, n: nat, entropy: nat -> Draw, sc: Scanner)
    requires n <= |lines| && Sound(sc)
    requires forall k :: 0 <= k < n ==> IsTrimmed(lines[k])
    ensures forall i :: 0 <= i < |ScanPrefix(lines, n, entropy, sc).channels| ==>
              IsTrimmed(ScanPrefix(lines, n, entropy, sc).channels[i].url)
  {
    if n > 0 {
      ScanPrefixTrimmedUrls(lines, n - 1, entropy, sc);
    }
  }

  /** Every channel `parseM3U` returns has a name, a group, an id and a
      trimmed URL line beginning with `http`. */
  lemma ParseM3UWellFormed(content: string, entropy: nat -> Draw)
    ensures forall i :: 0 <= i < |ParseM3U(content, entropy)| ==>
              WellFormed(ParseM3U(content, entropy)[i]) && IsTrimmed(ParseM3U(content, entropy)[i].url)
  {
    var lines := Lines(content);
    ParserSound();
    ScanPrefixWellFormed(lines, |lines|, entropy, Parser);
    ScanPrefixTrimmedUrls(lines, |lines|, entropy, Parser);
  }

  // ----- the pairing rule, stated without the state machine ---------------

  predicate IsRelevant(line: string) {
    IsDirective(line) || IsUrlLine(line)
  }

  /** The last directive or URL line among the first `n` lines. */
  function LastRelevant(lines: seq<string>, n: nat): (r: Option<nat>)
    requires n <= |lines|
    ensures r.Some? ==> r.value < n && IsRelevant(lines[r.value])
    ensures r.Some? ==> forall k :: r.value < k < n ==> !IsRelevant(lines[k])
    ensures r.None? ==> forall k :: 0 <= k < n ==> !IsRelevant(lines[k])
  {
    if n == 0 then None
    else if IsRelevant(lines[n - 1]) then Some(n - 1)
    else LastRelevant(lines, n - 1)
  }

  /** The directive still open after the first `n` lines: the last relevant
      line, when that is a directive. */
  function OpenDirective(lines: seq<string>, n: nat): Option<nat>
    requires n <= |lines|
  {
    match LastRelevant(lines, n)
    case Some(i) => if IsDirective(lines[i]) then Some(i) else None
    case None => None
  }

  /** Line `j` closes a channel: it is a URL line and the nearest directive or
      URL line before it is a directive. */
  predicate Completes(lines: seq<string>, j: nat)
    requires j < |lines|
  {
    IsUrlLine(lines[j]) && OpenDirective(lines, j).Some?
  }

  /** The channel line `j` closes: its directive's fields, its own URL. */
  function Completed(lines: seq<string>, j: nat, entropy: nat -> Draw, sc: Scanner): Channel
    requires j < |lines| && Completes(lines, j)
  {
    var i := OpenDirective(lines, j).value;
    sc.close(sc.read(lines[i], entropy(i).roll), lines[j], entropy(j))
  }

  /** The channels of the first `n` lines, one per completing line, in order. */
  function Pairings(lines: seq<string>, n: nat, entropy: nat -> Draw, sc: Scanner): seq<Channel>
    requires n <= |lines|
  {
    if n == 0 then []
    else Pairings(lines, n - 1, entropy, sc)
         + (if Completes(lines, n - 1) then [Completed(lines, n - 1, entropy, sc)] else [])
  }

  function PendingFor(lines: seq<string>, n: nat, entropy: nat -> Draw, sc: Scanner): Option<Channel>
    requires n <= |lines|
  {
    match OpenDirective(lines, n)
    case Some(i) => Some(sc.read(lines[i], entropy(i).roll))
    case None => None
  }

  /** The scan emits exactly one channel per URL line whose nearest preceding
      directive-or-URL line is a directive, in encounter order; a URL line
      with no open directive and every other line are skipped. */
  lemma {:induction false} ScanMatchesPairings(lines: seq<string>, n: nat, entropy: nat -> Draw, sc: Scanner)
    requires n <= |lines|
    ensures ScanPrefix(lines, n, entropy, sc) == ScanState(Pairings(lines, n, entropy, sc), PendingFor(lines, n, entropy, sc))
  {
    if n > 0 {
      ScanMatchesPairings(lines, n - 1, entropy, sc);
      var line := lines[n - 1];
      if IsDirective(line) {
        DirectiveOpens(lines, n, entropy, sc);
      } else if IsUrlLine(line) {
        UrlCloses(lines, n, entropy, sc);
      } else {
        OtherSkipped(lines, n, entropy, sc);
      }
    }
  }

  /** A directive line emits nothing and becomes the open directive. */
  lemma DirectiveOpens(lines: seq<string>, n: nat, entropy: nat -> Draw, sc: Scanner)
    requires 0 < n <= |lines| && IsDirective(lines[n - 1])
    requires ScanPrefix(lines, n - 1, entropy, sc) == ScanState(Pairings(lines, n - 1, entropy, sc), PendingFor(lines, n - 1, entropy, sc))
    ensures ScanPrefix(lines, n, entropy, sc) == ScanState(Pairings(lines, n, entropy, sc), PendingFor(lines, n, entropy, sc))
  {
    DirectiveFacts(lines, n, entropy, sc);
    ScanPrefixStep(lines, n - 1, entropy, sc);
  }

  lemma DirectiveFacts(lines: seq<string>, n: nat, entropy: nat -> Draw, sc: Scanner)
    requires 0 < n <= |lines| && IsDirective(lines[n - 1])
    ensures Pairings(lines, n, entropy, sc) == Pairings(lines, n - 1, entropy, sc)
    ensures PendingFor(lines, n, entropy, sc) == Some(sc.read(lines[n - 1], entropy(n - 1).roll))
  {
    assert LastRelevant(lines, n) == Some(n - 1);
  }

  /** A URL line closes the open directive, if any, and leaves none open. */
  lemma UrlCloses(lines: seq<string>, n: nat, entropy: nat -> Draw, sc: Scanner)
    requires 0 < n <= |lines| && IsUrlLine(lines[n - 1])
    requires ScanPrefix(lines, n - 1, entropy, sc) == ScanState(Pairings(lines, n - 1, entropy, sc), PendingFor(lines, n - 1, entropy, sc))
    ensures ScanPrefix(lines, n, entropy, sc) == ScanState(Pairings(lines, n, entropy, sc), PendingFor(lines, n, entropy, sc))
  {
    ScanPrefixStep(lines, n - 1, entropy, sc);
    UrlLineFacts(lines, n, entropy, sc);
    if Completes(lines, n - 1) {
      UrlCompleted(lines, n, entropy, sc);
    }
  }

  lemma UrlLineFacts(lines: seq<string>, n: nat, entropy: nat -> Draw, sc: Scanner)
    requires 0 < n <= |lines| && IsUrlLine(lines[n - 1])
    ensures PendingFor(lines, n, entropy, sc) == None
    ensures Completes(lines, n - 1) <==> PendingFor(lines, n - 1, entropy, sc).Some?
  {
    assert LastRelevant(lines, n) == Some(n - 1);
  }

  lemma UrlCompleted(lines: seq<string>, n: nat, entropy: nat -> Draw, sc: Scanner)
    requires 0 < n <= |lines| && IsUrlLine(lines[n - 1]) && Completes(lines, n - 1)
    ensures PendingFor(lines, n - 1, entropy, sc).Some?
    ensures Completed(lines, n - 1, entropy, sc) == sc.close(PendingFor(lines, n - 1, entropy, sc).value, lines[n - 1], entropy(n - 1))
  {
  }

  /** Any other line changes nothing. */
  lemma OtherSkipped(lines: seq<string>, n: nat, entropy: nat -> Draw, sc: Scanner)
    requires 0 < n <= |lines| && !IsRelevant(lines[n - 1])
    requires ScanPrefix(lines, n - 1, entropy, sc) == ScanState(Pairings(lines, n - 1, entropy, sc), PendingFor(lines, n - 1, entropy, sc))
    ensures ScanPrefix(lines, n, entropy, sc) == ScanState(Pairings(lines, n, entropy, sc), PendingFor(lines, n, entropy, sc))
  {
    assert ScanPrefix(lines, n, entropy, sc) == ScanPrefix(lines, n - 1, entropy, sc);
    assert LastRelevant(lines, n) == LastRelevant(lines, n - 1);
    assert !Completes(lines, n - 1);
  }

  lemma ParseM3UMatchesPairings(content: string, entropy: nat -> Draw)
    ensures ParseM3U(content, entropy) == Pairings(Lines(content), |Lines(content)|, entropy, Parser)
  {
    ScanMatchesPairings(Lines(content), |Lines(content)|, entropy, Parser);
  }

  // ----- parseM3UAsync ----------------------------------------------------

  const LinesPerChunk := 100

  /** One chunk of `parseM3UAsync`: lines `from` up to `end` are scanned in
      order, continuing from the state the earlier lines left. */
  method ScanChunk(lines: seq<string>, st0: ScanState, from: nat, end: nat, entropy: nat -> Draw, sc: Scanner)
    returns (st: ScanState)
    requires from <= end <= |lines|
    requires st0 == ScanPrefix(lines, from, entropy, sc)
    ensures st == ScanPrefix(lines, end, entropy, sc)
  {
    st := st0;
    var i := from;
    while i < end
      invariant from <= i <= end
      invariant st == ScanPrefix(lines, i, entropy, sc)
    {
      ScanPrefixStep(lines, i, entropy, sc);
      st := Step(st, lines[i], entropy(i), sc);
      i := i + 1;
    }
  }

  /** The chunk loop of `parseM3UAsync`: lines are scanned in index order,
      100 per chunk, and the result is the list `parseM3U` returns. */
  method ParseM3UAsync(content: string, entropy: nat -> Draw) returns (cs: seq<Channel>)
    ensures cs == ParseM3U(content, entropy)
  {
    var lines := Lines(content);
    var st := Start;
    var processed := 0;
    while processed < |lines|
      invariant processed <= |lines|
      invariant st == ScanPrefix(lines, processed, entropy, Parser)
    {
      var end := if processed + LinesPerChunk < |lines| then processed + LinesPerChunk else |lines|;
      st := ScanChunk(lines, st, processed, end, entropy, Parser);
      processed := end;
    }
    cs := st.channels;
  }
}
