/** `generateM3U` (renderer.js): the export direction, which writes each
    channel back as an `#EXTINF:-1` directive followed by its URL line, and
    the round trip through `parseM3U`. */
module Export {
  import opened Wrappers
  import opened Seqs
  import opened Text
  import opened ChannelId
  import opened Playlist

  const Header := "#EXTM3U"
  const ExtinfPrefix := "#EXTINF:-1"

  /** ` tvg-logo="…"`, written only for a logo that is not blank. */
  function LogoPart(c: Channel): string {
    if !IsBlank(c.logo) then " " + LogoKey + c.logo + "\"" else ""
  }

  /** ` group-title="…"`, written only for a group that is not blank. */
  function GroupPart(c: Channel): string {
    if !IsBlank(c.group) then " " + GroupKey + c.group + "\"" else ""
  }

  function ExtinfLine(c: Channel): string {
    ExtinfPrefix + LogoPart(c) + GroupPart(c) + "," + c.name
  }

  function Entries(cs: seq<Channel>): string {
    if |cs| == 0 then "" else ExtinfLine(cs[0]) + "\n" + cs[0].url + "\n" + Entries(cs[1..])
  }

  /** `generateM3U(channelsToExport)`. */
  function GenerateM3U(cs: seq<Channel>): string {
    Header + "\n" + Entries(cs)
  }

  // ----- when a channel survives the round trip ----------------------------

  predicate NoLineTerminator(s: string) {
    forall k :: 0 <= k < |s| ==> !IsLineTerminator(s[k])
  }

  /** The fields are written without escaping, so they must not contain
      what would end or confuse an attribute, the name or the line. The
      clause on the group's end matters only for a blank logo: then no logo
      attribute precedes the group, and a group ending in `tvg-logo=` would
      let the logo pattern start inside it and run into the name. */
  predicate Exportable(c: Channel) {
    && ',' !in c.logo && '"' !in c.logo && '\n' !in c.logo && !EndsWith(c.logo, "group-title=")
    && ',' !in c.group && '"' !in c.group && '\n' !in c.group && !EndsWith(c.group, "tvg-logo=")
    && c.name != "" && IsTrimmed(c.name) && NoLineTerminator(c.name)
    && !Contains(c.name, LogoKey) && !Contains(c.name, GroupKey)
    && StartsWith(c.url, UrlMarker) && IsTrimmed(c.url) && '\n' !in c.url
  }

  predicate AllExportable(cs: seq<Channel>) {
    forall i :: 0 <= i < |cs| ==> Exportable(cs[i])
  }

  /** What `parseM3U` makes of an exported channel: a blank logo comes back
      empty, a blank group as `General`, and the id is recomputed. */
  function Reimported(c: Channel): Channel
    requires Exportable(c)
  {
    Channel(ContentId(c.name, c.url),
            c.name,
            if IsBlank(c.logo) then "" else c.logo,
            if IsBlank(c.group) then DefaultGroup else c.group,
            c.url)
  }

  // ----- where an attribute pattern can occur ------------------------------

  /** An occurrence of `k"` must end at a quote: in `a"b` with a quote-free
      `a`, it either ends exactly at the quote after `a` (so `a` ends with
      `k`) or lies wholly in `b`. */
  lemma QuoteSplit(a: string, b: string, k: string, q: int)
    requires '"' !in a && '"' !in k
    requires OccursAt(a + "\"" + b, k + "\"", q)
    ensures (q + |k| == |a| && EndsWith(a, k)) || (q > |a| && OccursAt(b, k + "\"", q - |a| - 1))
  {
    QuoteBoundary(a, b, k, q);
    if q + |k| == |a| {
      OccursPrefix(a + "\"" + b, k, "\"", q);
      OccursInHead(a, '"', b, k, q);
      assert a[|a| - |k|..] == a[q..q + |k|];
    } else {
      OccursInTail(a, '"', b, k + "\"", q);
    }
  }

  /** The quote closing an occurrence of `k"` in `a"b` is either the one
      after `a` or one in `b`, and `k` cannot straddle the one after `a`. */
  lemma QuoteBoundary(a: string, b: string, k: string, q: int)
    requires '"' !in a && '"' !in k
    requires OccursAt(a + "\"" + b, k + "\"", q)
    ensures q + |k| == |a| || q > |a|
  {
    var s := a + "\"" + b;
    OccursAtChars(s, k + "\"", q);
    JoinChars(a, '"', b);
    assert s[q + |k|] == '"';
    assert q + |k| >= |a|;
    OccursPrefix(s, k, "\"", q);
    CharOutside(s, k, q, |a|);
  }

  /** A comma-free pattern cannot straddle a comma. */
  lemma CommaSplit(a: string, b: string, key: string, q: int)
    requires ',' !in key
    requires OccursAt(a + "," + b, key, q)
    ensures OccursAt(a, key, q) || (q > |a| && OccursAt(b, key, q - |a| - 1))
  {
    var s := a + "," + b;
    JoinChars(a, ',', b);
    CharOutside(s, key, q, |a|);
    if q + |key| <= |a| {
      OccursInHead(a, ',', b, key, q);
    } else {
      OccursInTail(a, ',', b, key, q);
    }
  }

  /** The run of non-quote characters from `k` ends at the quote at `k + n`. */
  lemma {:induction false} RunToQuote(line: string, k: nat, n: nat)
    requires k + n < |line| && line[k + n] == '"'
    requires forall j :: k <= j < k + n ==> line[j] != '"'
    ensures QuoteFreeRun(line, k) == n
    decreases n
  {
    if n > 0 {
      RunToQuote(line, k + 1, n - 1);
    }
  }

  lemma NoQuoteNoOccurrence(s: string, key: string, q: int)
    requires '"' !in s && '"' in key
    ensures !OccursAt(s, key, q)
  {
  }

  /** `key"v"` matches where it is written and captures `v`. */
  lemma AttrWrittenAt(pre: string, key: string, v: string, rest: string)
    requires '"' !in v && v != ""
    ensures AttrAt(pre + key + v + "\"" + rest, key, |pre|)
    ensures AttrValueAt(pre + key + v + "\"" + rest, key, |pre|) == v
  {
    var line := pre + key + v + "\"" + rest;
    var start := |pre| + |key|;
    var x := pre + key;
    OccursAtEnd(pre, key);
    OccursExtended(x, v, key, |pre|);
    OccursExtended(x + v, "\"", key, |pre|);
    OccursExtended(x + v + "\"", rest, key, |pre|);
    OccursAtEnd(x, v);
    OccursExtended(x + v, "\"", v, start);
    OccursExtended(x + v + "\"", rest, v, start);
    assert line[start + |v|] == '"';
    OccursAtChars(line, v, start);
    forall j | start <= j < start + |v| ensures line[j] != '"' {
      assert v[j - start] in v;
    }
    RunToQuote(line, start, |v|);
  }

  /** A window of `k"` that starts inside `pre` lies inside `pre + k`. */
  lemma EarlierWindow(pre: string, k: string, v: string, rest: string, q: int)
    requires 0 <= q < |pre|
    requires OccursAt(pre + (k + "\"") + v + "\"" + rest, k + "\"", q)
    ensures OccursAt(pre + k, k + "\"", q)
  {
    var line, key := pre + (k + "\"") + v + "\"" + rest, k + "\"";
    assert forall j :: 0 <= j < |pre| + |k| ==> line[j] == (pre + k)[j];
    assert line[q..q + |key|] == (pre + k)[q..q + |key|];
  }

  /** An attribute written as `k"v"` right after a prefix in which `k"` does
      not occur is the first match, and yields `v`. */
  lemma AttrAfter(pre: string, k: string, v: string, rest: string)
    requires '"' !in k && '"' !in v && v != ""
    requires forall q :: !OccursAt(pre + k, k + "\"", q)
    ensures FirstAttrIs(pre + (k + "\"") + v + "\"" + rest, k + "\"", |pre|)
    ensures AttrValueAt(pre + (k + "\"") + v + "\"" + rest, k + "\"", |pre|) == v
  {
    var key := k + "\"";
    var line := pre + key + v + "\"" + rest;
    AttrWrittenAt(pre, key, v, rest);
    forall q | 0 <= q < |pre| ensures !AttrAt(line, key, q) {
      if OccursAt(line, key, q) {
        EarlierWindow(pre, k, v, rest, q);
      }
    }
  }

  /** `k"` occurs nowhere in `a"v",n` when neither quote-free field ends
      with `k` and `n` does not contain it. */
  lemma AbsentAfterQuoted(a: string, v: string, n: string, k: string, q: int)
    requires '"' !in a && '"' !in v && '"' !in k && ',' !in k
    requires !EndsWith(a, k) && !EndsWith(v, k) && !Contains(n, k + "\"")
    ensures !OccursAt(a + "\"" + v + "\"" + "," + n, k + "\"", q)
  {
    var key := k + "\"";
    if OccursAt(a + "\"" + v + "\"" + "," + n, key, q) {
      assert a + "\"" + v + "\"" + "," + n == a + "\"" + (v + "\"" + ("" + "," + n));
      QuoteSplit(a, v + "\"" + ("" + "," + n), k, q);
      var q1 := q - |a| - 1;
      QuoteSplit(v, "" + "," + n, k, q1);
      var q2 := q1 - |v| - 1;
      CommaSplit("", n, key, q2);
    }
  }

  /** `key` occurs nowhere in `a,n` when it is comma-free and occurs in
      neither part. */
  lemma AbsentAroundComma(a: string, n: string, key: string, q: int)
    requires ',' !in key && !Contains(a, key) && !Contains(n, key)
    ensures !OccursAt(a + "," + n, key, q)
  {
    if OccursAt(a + "," + n, key, q) {
      CommaSplit(a, n, key, q);
      assert OccursAt(a, key, q) ==> Contains(a, key);
    }
  }

  /** The comma that ends a comma-free prefix is the name comma, so the name
      is all that follows it. */
  lemma NameAfter(pre: string, name: string)
    requires ',' !in pre && name != "" && NoLineTerminator(name)
    ensures FirstNameCommaIs(pre + "," + name, |pre|)
    ensures (pre + "," + name)[|pre| + 1..] == name
  {
    var line := pre + "," + name;
    assert forall q :: 0 <= q < |pre| ==> line[q] == pre[q];
    assert line[|pre| + 1..] == name;
  }

  // ----- one directive line ------------------------------------------------

  /** With a logo written, `group-title="` cannot occur before the group
      attribute: the logo neither holds a quote nor ends with `group-title=`. */
  lemma GroupKeyNotInLogoPrefix(logo: string)
    requires '"' !in logo && !EndsWith(logo, "group-title=")
    ensures forall q :: !OccursAt(ExtinfPrefix + (" " + LogoKey + logo + "\"") + " group-title=", GroupKey, q)
  {
    var a, k := "#EXTINF:-1 tvg-logo=", "group-title=";
    var b := logo + "\"" + " group-title=";
    LogoPrefixRespell(logo);
    KeyLiterals();
    LogoPrefixLiteral();
    forall q ensures !OccursAt(a + "\"" + b, k + "\"", q) {
      if OccursAt(a + "\"" + b, k + "\"", q) {
        QuoteSplit(a, b, k, q);
        QuoteSplit(logo, " group-title=", k, q - |a| - 1);
        NoQuoteNoOccurrence(" group-title=", k + "\"", q - |a| - 1 - |logo| - 1);
      }
    }
  }

  /** The directive up to the group key, seen as the text around the logo's
      opening quote. */
  lemma LogoPrefixRespell(logo: string)
    ensures ExtinfPrefix + (" " + LogoKey + logo + "\"") + " group-title="
            == "#EXTINF:-1 tvg-logo=" + "\"" + (logo + "\"" + " group-title=")
  {
  }

  /** The attribute pattern matches where `k"v"` follows a quote-free
      prefix. */
  lemma AttrAfterQuoteFree(pre: string, k: string, v: string, rest: string)
    requires '"' !in pre && '"' !in k && '"' !in v && v != ""
    ensures FirstAttrIs(pre + (k + "\"") + v + "\"" + rest, k + "\"", |pre|)
    ensures AttrValueAt(pre + (k + "\"") + v + "\"" + rest, k + "\"", |pre|) == v
  {
    forall q ensures !OccursAt(pre + k, k + "\"", q) {
      NoQuoteNoOccurrence(pre + k, k + "\"", q);
    }
    AttrAfter(pre, k, v, rest);
  }

  /** An attribute that was not written is not found. */
  lemma AttrNotWritten(a: string, v: string, name: string, k: string)
    requires '"' !in a && '"' !in v && '"' !in k && ',' !in k
    requires !EndsWith(a, k) && !EndsWith(v, k) && !Contains(name, k + "\"")
    ensures forall q :: !AttrAt(a + "\"" + v + "\"" + "," + name, k + "\"", q)
  {
    forall q ensures !AttrAt(a + "\"" + v + "\"" + "," + name, k + "\"", q) {
      AbsentAfterQuoted(a, v, name, k, q);
    }
  }

  lemma NoAttrWritten(name: string, key: string)
    requires '"' in key && ',' !in key && !Contains(name, key)
    ensures forall q :: !AttrAt(ExtinfPrefix + "," + name, key, q)
  {
    forall q ensures !OccursAt(ExtinfPrefix, key, q) {
      NoQuoteNoOccurrence(ExtinfPrefix, key, q);
    }
    forall q ensures !AttrAt(ExtinfPrefix + "," + name, key, q) {
      AbsentAroundComma(ExtinfPrefix, name, key, q);
    }
  }

  lemma LogoWritten(logo: string, groupPart: string, name: string)
    requires '"' !in logo && logo != ""
    ensures FirstAttrIs(ExtinfPrefix + (" " + LogoKey + logo + "\"") + groupPart + "," + name,
                        LogoKey, |ExtinfPrefix| + 1)
    ensures AttrValueAt(ExtinfPrefix + (" " + LogoKey + logo + "\"") + groupPart + "," + name,
                        LogoKey, |ExtinfPrefix| + 1) == logo
  {
    var k := "tvg-logo=";
    var pre, rest := ExtinfPrefix + " ", groupPart + "," + name;
    assert ExtinfPrefix + (" " + LogoKey + logo + "\"") + groupPart + "," + name
        == pre + (k + "\"") + logo + "\"" + rest by {
      assert LogoKey == k + "\"";
    }
    assert '"' !in pre && '"' !in k;
    AttrAfterQuoteFree(pre, k, logo, rest);
  }

  lemma GroupWritten(logoPart: string, group: string, name: string)
    requires '"' !in group && group != ""
    requires forall q :: !OccursAt(ExtinfPrefix + logoPart + " group-title=", GroupKey, q)
    ensures FirstAttrIs(ExtinfPrefix + logoPart + (" " + GroupKey + group + "\"") + "," + name,
                        GroupKey, |ExtinfPrefix + logoPart| + 1)
    ensures AttrValueAt(ExtinfPrefix + logoPart + (" " + GroupKey + group + "\"") + "," + name,
                        GroupKey, |ExtinfPrefix + logoPart| + 1) == group
  {
    var k := "group-title=";
    var pre, rest := ExtinfPrefix + logoPart + " ", "," + name;
    assert pre + k == ExtinfPrefix + logoPart + " group-title=";
    assert ExtinfPrefix + logoPart + (" " + GroupKey + group + "\"") + "," + name
        == pre + (k + "\"") + group + "\"" + rest by {
      assert GroupKey == k + "\"";
    }
    AttrAfter(pre, k, group, rest);
  }

  /** The character facts about the attribute keys the lemmas below need. */
  lemma KeyLiterals()
    ensures LogoKey == "tvg-logo=" + "\"" && GroupKey == "group-title=" + "\""
    ensures '"' !in "tvg-logo=" && ',' !in "tvg-logo=" && '"' !in "group-title=" && ',' !in "group-title="
  {
  }

  /** The directive up to a lone group key is quote-free and does not end
      with the logo key. */
  lemma GroupPrefixLiteral()
    ensures '"' !in "#EXTINF:-1 group-title=" && !EndsWith("#EXTINF:-1 group-title=", "tvg-logo=")
  {
  }

  /** The directive up to the logo key is quote-free and does not end with
      the group key. */
  lemma LogoPrefixLiteral()
    ensures '"' !in "#EXTINF:-1 tvg-logo=" && !EndsWith("#EXTINF:-1 tvg-logo=", "group-title=")
  {
  }

  /** The only attribute written, seen as the text around its quotes. */
  lemma Respell(a: string, key: string, k: string, v: string, name: string)
    requires key == k + "\"" && a == ExtinfPrefix + " " + k
    ensures ExtinfPrefix + "" + (" " + key + v + "\"") + "," + name == a + "\"" + v + "\"" + "," + name
    ensures ExtinfPrefix + (" " + key + v + "\"") + "" + "," + name == a + "\"" + v + "\"" + "," + name
  {
  }

  lemma PrefixLiterals()
    ensures "#EXTINF:-1 group-title=" == ExtinfPrefix + " " + "group-title="
    ensures "#EXTINF:-1 tvg-logo=" == ExtinfPrefix + " " + "tvg-logo="
  {
  }

  lemma LogoNotWritten(group: string, name: string)
    requires '"' !in group && !EndsWith(group, "tvg-logo=") && !Contains(name, LogoKey)
    ensures forall q :: !AttrAt(ExtinfPrefix + "" + (" " + GroupKey + group + "\"") + "," + name, LogoKey, q)
  {
    KeyLiterals();
    GroupPrefixLiteral();
    PrefixLiterals();
    Respell("#EXTINF:-1 group-title=", GroupKey, "group-title=", group, name);
    AttrNotWritten("#EXTINF:-1 group-title=", group, name, "tvg-logo=");
  }

  lemma GroupNotWritten(logo: string, name: string)
    requires '"' !in logo && !EndsWith(logo, "group-title=") && !Contains(name, GroupKey)
    ensures forall q :: !AttrAt(ExtinfPrefix + (" " + LogoKey + logo + "\"") + "" + "," + name, GroupKey, q)
  {
    KeyLiterals();
    LogoPrefixLiteral();
    PrefixLiterals();
    Respell("#EXTINF:-1 tvg-logo=", LogoKey, "tvg-logo=", logo, name);
    AttrNotWritten("#EXTINF:-1 tvg-logo=", logo, name, "group-title=");
  }

  /** The logo `parseExtinf` reads back from an exported directive. */
  lemma ExtinfLogo(c: Channel)
    requires Exportable(c)
    ensures !IsBlank(c.logo) ==> FirstAttrIs(ExtinfLine(c), LogoKey, |ExtinfPrefix| + 1)
                                   && AttrValueAt(ExtinfLine(c), LogoKey, |ExtinfPrefix| + 1) == c.logo
    ensures IsBlank(c.logo) ==> forall q :: !AttrAt(ExtinfLine(c), LogoKey, q)
  {
    if !IsBlank(c.logo) {
      LogoWritten(c.logo, GroupPart(c), c.name);
    } else if !IsBlank(c.group) {
      LogoNotWritten(c.group, c.name);
    } else {
      assert ExtinfLine(c) == ExtinfPrefix + "," + c.name;
      NoAttrWritten(c.name, LogoKey);
    }
  }

  /** The group `parseExtinf` reads back from an exported directive. */
  lemma ExtinfGroup(c: Channel)
    requires Exportable(c)
    ensures !IsBlank(c.group) ==>
              FirstAttrIs(ExtinfLine(c), GroupKey, |ExtinfPrefix + LogoPart(c)| + 1)
              && AttrValueAt(ExtinfLine(c), GroupKey, |ExtinfPrefix + LogoPart(c)| + 1) == c.group
    ensures IsBlank(c.group) ==> forall q :: !AttrAt(ExtinfLine(c), GroupKey, q)
  {
    if !IsBlank(c.group) {
      GroupKeyNotBeforeGroup(c);
      GroupWritten(LogoPart(c), c.group, c.name);
    } else if !IsBlank(c.logo) {
      GroupNotWritten(c.logo, c.name);
    } else {
      assert ExtinfLine(c) == ExtinfPrefix + "," + c.name;
      NoAttrWritten(c.name, GroupKey);
    }
  }

  lemma NameWritten(logoPart: string, groupPart: string, name: string, roll: Roll)
    requires ',' !in logoPart && ',' !in groupPart
    requires name != "" && IsTrimmed(name) && NoLineTerminator(name)
    ensures ExtinfName(ExtinfPrefix + logoPart + groupPart + "," + name, roll) == name
  {
    var pre := ExtinfPrefix + logoPart + groupPart;
    NameAfter(pre, name);
  }

  lemma NoCommaInParts(c: Channel)
    requires ',' !in c.logo && ',' !in c.group
    ensures ',' !in LogoPart(c) && ',' !in GroupPart(c)
  {
    assert ',' !in LogoKey && ',' !in GroupKey;
  }

  /** The group key does not occur before the group attribute. */
  lemma GroupKeyNotBeforeGroup(c: Channel)
    requires '"' !in c.logo && !EndsWith(c.logo, "group-title=")
    ensures forall q :: !OccursAt(ExtinfPrefix + LogoPart(c) + " group-title=", GroupKey, q)
  {
    if !IsBlank(c.logo) {
      GroupKeyNotInLogoPrefix(c.logo);
    } else {
      GroupKeyNotInBarePrefix();
    }
  }

  lemma GroupKeyNotInBarePrefix()
    ensures forall q :: !OccursAt(ExtinfPrefix + "" + " group-title=", GroupKey, q)
  {
    forall q ensures !OccursAt(ExtinfPrefix + "" + " group-title=", GroupKey, q) {
      NoQuoteNoOccurrence(ExtinfPrefix + "" + " group-title=", GroupKey, q);
    }
  }

  /** The name `parseExtinf` reads back from an exported directive. */
  lemma ExtinfNameBack(c: Channel, roll: Roll)
    requires Exportable(c)
    ensures ExtinfName(ExtinfLine(c), roll) == c.name
  {
    NoCommaInParts(c);
    NameWritten(LogoPart(c), GroupPart(c), c.name, roll);
  }

  /** `parseExtinf` applied to the directive `generateM3U` writes for a
      channel gives back its name, its logo (empty when blank) and its group
      (`General` when blank). */
  lemma ExtinfRoundTrip(c: Channel, roll: Roll)
    requires Exportable(c)
    ensures ParseExtinf(ExtinfLine(c), roll)
            == Channel("", c.name, if IsBlank(c.logo) then "" else c.logo,
                       if IsBlank(c.group) then DefaultGroup else c.group, "")
  {
    var line := ExtinfLine(c);
    ExtinfNameBack(c, roll);
    ParseExtinfFields(line, roll);
    ExtinfLogo(c);
    ExtinfGroup(c);
  }

  // ----- the whole file ----------------------------------------------------

  /** The lines `generateM3U` writes after the header: each channel's
      directive (as `line` writes it: `ExtinfLine`) followed by its URL. */
  function Interleave(cs: seq<Channel>, line: Channel -> string): (r: seq<string>)
    ensures |r| == 2 * |cs|
  {
    if |cs| == 0 then [] else [line(cs[0]), cs[0].url] + Interleave(cs[1..], line)
  }

  lemma {:induction false} InterleaveAt(cs: seq<Channel>, line: Channel -> string, i: nat)
    requires i < |cs|
    ensures Interleave(cs, line)[2 * i] == line(cs[i]) && Interleave(cs, line)[2 * i + 1] == cs[i].url
  {
    if i > 0 {
      InterleaveAt(cs[1..], line, i - 1);
      assert cs[1..][i - 1] == cs[i];
    }
  }

  lemma NoNewlineInName(c: Channel)
    requires NoLineTerminator(c.name)
    ensures '\n' !in c.name
  {
    assert forall k :: 0 <= k < |c.name| ==> c.name[k] != '\n';
  }

  lemma NoNewlineInParts(c: Channel)
    requires '\n' !in c.logo && '\n' !in c.group
    ensures '\n' !in LogoPart(c) && '\n' !in GroupPart(c)
  {
    assert '\n' !in LogoKey && '\n' !in GroupKey;
  }

  lemma DirectiveTrimmed(c: Channel)
    requires c.name != "" && IsTrimmed(c.name)
    ensures IsTrimmed(ExtinfLine(c))
  {
    var line := ExtinfLine(c);
    assert line[0] == '#';
    assert line[|line| - 1] == c.name[|c.name| - 1];
  }

  /** An exported directive is one line that `Lines` keeps as it is. */
  lemma ExtinfLineIsLine(c: Channel)
    requires Exportable(c)
    ensures '\n' !in ExtinfLine(c) && IsTrimmed(ExtinfLine(c)) && ExtinfLine(c) != ""
  {
    NoNewlineInName(c);
    NoNewlineInParts(c);
    DirectiveTrimmed(c);
  }

  lemma UrlIsLine(c: Channel)
    requires Exportable(c)
    ensures '\n' !in c.url && IsTrimmed(c.url) && c.url != ""
  {
  }

  /** One exported entry contributes its directive and its URL as lines. */
  lemma EntryLines(c: Channel, rest: string)
    requires Exportable(c)
    ensures Lines(ExtinfLine(c) + "\n" + c.url + "\n" + rest) == [ExtinfLine(c), c.url] + Lines(rest)
  {
    ExtinfLineIsLine(c);
    UrlIsLine(c);
    TwoLinesCons(ExtinfLine(c), c.url, rest);
  }

  lemma {:induction false} LinesOfEntries(cs: seq<Channel>)
    requires AllExportable(cs)
    ensures Lines(Entries(cs)) == Interleave(cs, ExtinfLine)
  {
    if |cs| == 0 {
      LinesEmpty();
    } else {
      EntryLines(cs[0], Entries(cs[1..]));
      LinesOfEntries(cs[1..]);
    }
  }

  lemma HeaderLine(rest: string)
    ensures Lines(Header + "\n" + rest) == [Header] + Lines(rest)
  {
    assert IsTrimmed(Header);
    TrimmedLinesCons(Header, rest);
  }

  /** The lines of an exported playlist: the header, then each channel's
      directive and URL. */
  lemma LinesOfExport(cs: seq<Channel>)
    requires AllExportable(cs)
    ensures Lines(GenerateM3U(cs)) == [Header] + Interleave(cs, ExtinfLine)
  {
    HeaderLine(Entries(cs));
    LinesOfEntries(cs);
  }

  lemma UrlGivesContentId(c: Channel)
    requires StartsWith(c.url, UrlMarker)
    ensures Combined(c.name, c.url) != ""
  {
    assert c.url[0] == 'h';
    assert |StripNonAscii(c.url)| > 0;
  }

  lemma CloseParsed(p: Channel, c: Channel, draw: Draw)
    requires Exportable(c)
    requires p == Channel("", c.name, if IsBlank(c.logo) then "" else c.logo,
                          if IsBlank(c.group) then DefaultGroup else c.group, "")
    ensures Close(p, c.url, draw) == Reimported(c)
  {
    UrlGivesContentId(c);
  }

  /** Closing the directive of an exported channel with its URL line gives
      the channel back, up to the normalisations of `Reimported`. */
  lemma CloseExported(c: Channel, draw: Draw, draw': Draw)
    requires Exportable(c)
    ensures Close(ParseExtinf(ExtinfLine(c), draw.roll), c.url, draw') == Reimported(c)
  {
    ExtinfRoundTrip(c, draw.roll);
    CloseParsed(ParseExtinf(ExtinfLine(c), draw.roll), c, draw');
  }

  /** Actions that give an exported channel back, re-imported, from its
      directive and URL line. */
  ghost predicate ReadsBack(sc: Scanner) {
    forall c: Channel, roll: Roll, draw: Draw {:trigger sc.close(sc.read(ExtinfLine(c), roll), c.url, draw)} ::
      Exportable(c) ==> sc.close(sc.read(ExtinfLine(c), roll), c.url, draw) == Reimported(c)
  }

  lemma ParserReadsBack()
    ensures ReadsBack(Parser)
  {
    forall c: Channel, roll: Roll, draw: Draw | Exportable(c)
      ensures Parser.close(Parser.read(ExtinfLine(c), roll), c.url, draw) == Reimported(c)
    {
      CloseExported(c, Draw(roll, 0, ""), draw);
    }
  }

  /** An exported directive followed by its URL line, met while nothing is
      pending, adds the re-imported channel. */
  lemma ScanEntry(lines: seq<string>, j: nat, c: Channel, entropy: nat -> Draw, sc: Scanner)
    requires Exportable(c) && j + 2 <= |lines| && ReadsBack(sc)
    requires lines[j] == ExtinfLine(c) && lines[j + 1] == c.url
    ensures ScanPrefix(lines, j + 2, entropy, sc)
            == ScanState(ScanPrefix(lines, j, entropy, sc).channels + [Reimported(c)], None)
  {
    EntryLineKinds(c);
    DirectiveThenUrl(lines, j, entropy, sc);
    assert sc.close(sc.read(ExtinfLine(c), entropy(j).roll), c.url, entropy(j + 1)) == Reimported(c);
  }

  /** An exported entry is a directive line followed by a URL line. */
  lemma EntryLineKinds(c: Channel)
    requires Exportable(c)
    ensures IsDirective(ExtinfLine(c)) && IsUrlLine(c.url)
  {
    PrefixedDirective(LogoPart(c), GroupPart(c), c.name);
    HttpUrlLine(c.url);
  }

  lemma PrefixedDirective(logo: string, group: string, name: string)
    ensures IsDirective(ExtinfPrefix + logo + group + "," + name)
  {
    assert StartsWith(ExtinfPrefix, DirectiveMarker);
    StartsExtended(ExtinfPrefix, logo, DirectiveMarker);
    StartsExtended(ExtinfPrefix + logo, group, DirectiveMarker);
    StartsExtended(ExtinfPrefix + logo + group, ",", DirectiveMarker);
    StartsExtended(ExtinfPrefix + logo + group + ",", name, DirectiveMarker);
  }

  lemma HttpUrlLine(url: string)
    requires StartsWith(url, UrlMarker)
    ensures IsUrlLine(url)
  {
    assert url[0] == 'h' by { assert url[..|UrlMarker|][0] == url[0]; }
  }

  lemma HeaderScan(lines: seq<string>, entropy: nat -> Draw, sc: Scanner)
    requires |lines| > 0 && lines[0] == Header
    ensures ScanPrefix(lines, 1, entropy, sc) == Start
  {
    assert Header[..4][0] == '#';
  }

  /** The channels `parseM3U` makes of an exported list, one by one. */
  function ReimportedAll(cs: seq<Channel>): (r: seq<Channel>)
    requires AllExportable(cs)
    ensures |r| == |cs|
  {
    seq(|cs|, i requires 0 <= i < |cs| => Reimported(cs[i]))
  }

  lemma ReimportedAt(cs: seq<Channel>, i: nat)
    requires AllExportable(cs)
    requires i < |cs|
    ensures Exportable(cs[i]) && ReimportedAll(cs)[i] == Reimported(cs[i])
  {
  }

  /** When every entry of two lines moves the scan from one resting state to
      the next by adding one channel, the scan after `k` entries rests with
      the first `k` of those channels. `scan(n)` is the state after `n`
      lines. */
  lemma {:induction false} ScanByEntries(scan: nat -> ScanState, expected: seq<Channel>, k: nat)
    requires k <= |expected| && scan(1) == Start
    requires forall i {:trigger expected[i]} :: 0 <= i < |expected| ==>
               scan(1 + 2 * i + 2) == ScanState(scan(1 + 2 * i).channels + [expected[i]], None)
    ensures scan(1 + 2 * k) == ScanState(expected[..k], None)
  {
    if k > 0 {
      ScanByEntries(scan, expected, k - 1);
      assert expected[..k] == expected[..k - 1] + [expected[k - 1]];
      assert 1 + 2 * (k - 1) + 2 == 1 + 2 * k;
    }
  }

  /** After all the entries, the scan rests with every channel. */
  lemma ScanThrough(scan: nat -> ScanState, expected: seq<Channel>, n: nat)
    requires n == 1 + 2 * |expected| && scan(1) == Start
    requires forall i {:trigger expected[i]} :: 0 <= i < |expected| ==>
               scan(1 + 2 * i + 2) == ScanState(scan(1 + 2 * i).channels + [expected[i]], None)
    ensures scan(n) == ScanState(expected, None)
  {
    ScanByEntries(scan, expected, |expected|);
    assert expected[..|expected|] == expected;
  }

  /** `scan(n)` is the state after the first `n` lines. */
  predicate ScansAs(scan: nat -> ScanState, lines: seq<string>, entropy: nat -> Draw, sc: Scanner) {
    forall n: nat {:trigger ScanPrefix(lines, n, entropy, sc)} :: n <= |lines| ==> scan(n) == ScanPrefix(lines, n, entropy, sc)
  }

  lemma ExportedLinesAt(cs: seq<Channel>, line: Channel -> string, lines: seq<string>, i: nat)
    requires lines == [Header] + Interleave(cs, line) && i < |cs|
    ensures 2 * i + 2 < |lines|
    ensures lines[2 * i + 1] == line(cs[i]) && lines[2 * i + 2] == cs[i].url
  {
    var rest := Interleave(cs, line);
    InterleaveAt(cs, line, i);
    ConsAt(Header, rest, 2 * i);
    ConsAt(Header, rest, 2 * i + 1);
  }

  lemma ConsAt<T>(head: T, s: seq<T>, k: nat)
    requires k < |s|
    ensures |[head] + s| == |s| + 1 && ([head] + s)[k + 1] == s[k]
  {
  }

  lemma ScanEntryAt(c: Channel, lines: seq<string>, i: nat, entropy: nat -> Draw, sc: Scanner, scan: nat -> ScanState)
    requires Exportable(c) && ReadsBack(sc)
    requires 2 * i + 2 < |lines| && lines[2 * i + 1] == ExtinfLine(c) && lines[2 * i + 2] == c.url
    requires ScansAs(scan, lines, entropy, sc)
    ensures scan(1 + 2 * i + 2) == ScanState(scan(1 + 2 * i).channels + [Reimported(c)], None)
  {
    var j := 1 + 2 * i;
    ScanEntry(lines, j, c, entropy, sc);
    assert scan(j + 2) == ScanPrefix(lines, j + 2, entropy, sc);
    assert scan(j) == ScanPrefix(lines, j, entropy, sc);
  }

  lemma ScanEntries(cs: seq<Channel>, lines: seq<string>, entropy: nat -> Draw, sc: Scanner, scan: nat -> ScanState)
    requires AllExportable(cs) && ReadsBack(sc)
    requires lines == [Header] + Interleave(cs, ExtinfLine)
    requires ScansAs(scan, lines, entropy, sc)
    ensures forall i {:trigger ReimportedAll(cs)[i]} :: 0 <= i < |cs| ==>
              scan(1 + 2 * i + 2) == ScanState(scan(1 + 2 * i).channels + [ReimportedAll(cs)[i]], None)
  {
    forall i | 0 <= i < |cs|
      ensures scan(1 + 2 * i + 2) == ScanState(scan(1 + 2 * i).channels + [ReimportedAll(cs)[i]], None)
    {
      ExportedLinesAt(cs, ExtinfLine, lines, i);
      ScanEntryAt(cs[i], lines, i, entropy, sc, scan);
      ReimportedAt(cs, i);
    }
  }

  /** The scan state after the whole exported file, for any `scan` that
      agrees with `ScanPrefix` on the file's lines. */
  lemma ScanAll(cs: seq<Channel>, lines: seq<string>, entropy: nat -> Draw, sc: Scanner, scan: nat -> ScanState)
    requires AllExportable(cs) && ReadsBack(sc)
    requires lines == [Header] + Interleave(cs, ExtinfLine)
    requires ScansAs(scan, lines, entropy, sc)
    ensures scan(|lines|) == ScanState(ReimportedAll(cs), None)
  {
    var expected := ReimportedAll(cs);
    HeaderScan(lines, entropy, sc);
    ScanEntries(cs, lines, entropy, sc, scan);
    ScanThrough(scan, expected, |lines|);
  }

  /** Scanning the header and the interleaved entries re-imports every
      channel. */
  lemma ScanExport(cs: seq<Channel>, lines: seq<string>, entropy: nat -> Draw, sc: Scanner)
    requires AllExportable(cs) && ReadsBack(sc)
    requires lines == [Header] + Interleave(cs, ExtinfLine)
    ensures ScanPrefix(lines, |lines|, entropy, sc).channels == ReimportedAll(cs)
  {
    var scan := (n: nat) => if n <= |lines| then ScanPrefix(lines, n, entropy, sc) else Start;
    ScanAll(cs, lines, entropy, sc, scan);
  }

  /** Exporting channels with `generateM3U` and importing the file with
      `parseM3U` gives the same channels back in the same order, with their
      ids recomputed from name and URL, a blank logo emptied and a blank
      group replaced by `General`. */
  lemma RoundTrip(cs: seq<Channel>, entropy: nat -> Draw)
    requires AllExportable(cs)
    ensures ParseM3U(GenerateM3U(cs), entropy) == ReimportedAll(cs)
  {
    var lines := [Header] + Interleave(cs, ExtinfLine);
    LinesOfExport(cs);
    ParserReadsBack();
    ScanExport(cs, lines, entropy, Parser);
    ParseByLines(GenerateM3U(cs), lines, entropy);
  }
}
