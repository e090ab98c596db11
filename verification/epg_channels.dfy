/** `generateM3UFromEPG` in renderer.js turns every key of the guide into
    a channel: the key is made readable (separators to spaces, each word
    capitalised, trimmed) and the channel gets a placeholder URL that tells
    the user to fill in the real stream. */
module EpgChannels {
  import opened Seqs
  import opened Text
  import opened ChannelId
  import opened Playlist
  import opened Player

  /** The regular-expression class `\w`. */
  predicate IsWordChar(c: char) {
    IsAsciiAlnum(c) || c == '_'
  }

  /** `replace(/[_-]/g, ' ')`. */
  function SeparatorToSpace(c: char): char {
    if c == '_' || c == '-' then ' ' else c
  }

  /** Index `i` starts a word: `\b\w` matches there. */
  predicate WordStart(s: string, i: int)
    requires 0 <= i < |s|
  {
    IsWordChar(s[i]) && (i == 0 || !IsWordChar(s[i - 1]))
  }

  /** A word character precedes index `i`, `prevWord` standing for the
      character before `s`. */
  predicate WordBefore(s: string, i: int, prevWord: bool)
    requires 0 <= i < |s|
  {
    if i == 0 then prevWord else IsWordChar(s[i - 1])
  }

  /** `replace(/\b\w/g, l => l.toUpperCase())`, scanning with `prevWord`
      telling whether the character before `s` is a word character. */
  function CapitalizeFrom(s: string, prevWord: bool): (r: string)
    ensures |r| == |s|
    ensures forall i :: 0 <= i < |s| ==>
              r[i] == if IsWordChar(s[i]) && !WordBefore(s, i, prevWord) then UpperChar(s[i]) else s[i]
  {
    if |s| == 0 then ""
    else
      var c := if IsWordChar(s[0]) && !prevWord then UpperChar(s[0]) else s[0];
      var rest := CapitalizeFrom(s[1..], IsWordChar(s[0]));
      forall i | 1 <= i < |s|
        ensures s[i] == s[1..][i - 1]
        ensures WordBefore(s, i, prevWord) == WordBefore(s[1..], i - 1, IsWordChar(s[0]))
      {
      }
      [c] + rest
  }

  /** Every word's first character upper-cased, the rest left alone. */
  function Capitalize(s: string): (r: string)
    ensures |r| == |s|
    ensures forall i :: 0 <= i < |s| ==> r[i] == if WordStart(s, i) then UpperChar(s[i]) else s[i]
  {
    var r := CapitalizeFrom(s, false);
    assert forall i :: 0 <= i < |s| ==> (WordStart(s, i) <==> IsWordChar(s[i]) && !WordBefore(s, i, false));
    r
  }

  /** Upper-casing keeps a character's class. */
  lemma UpperKeepsClass(c: char)
    ensures IsWordChar(UpperChar(c)) <==> IsWordChar(c)
    ensures IsSpace(UpperChar(c)) <==> IsSpace(c)
    ensures UpperChar(c) == '_' <==> c == '_'
    ensures UpperChar(c) == '-' <==> c == '-'
  {
  }

  /** Capitalising moves no word boundary. */
  lemma CapitalizeWordStarts(s: string)
    ensures forall i :: 0 <= i < |s| ==> (WordStart(Capitalize(s), i) <==> WordStart(s, i))
  {
    var r := Capitalize(s);
    forall i | 0 <= i < |s|
      ensures IsWordChar(r[i]) <==> IsWordChar(s[i])
    {
      UpperKeepsClass(s[i]);
    }
  }

  /** Capitalising changes letter case only. */
  lemma CapitalizeOnlyCase(s: string)
    ensures ToLower(Capitalize(s)) == ToLower(s)
  {
    var r := Capitalize(s);
    forall i | 0 <= i < |s|
      ensures LowerChar(r[i]) == LowerChar(s[i])
    {
      LowerOfUpper(s[i]);
    }
    assert ToLower(r) == ToLower(s);
  }

  lemma LowerOfUpper(c: char)
    ensures LowerChar(UpperChar(c)) == LowerChar(c)
  {
  }

  /** After capitalising, no word starts with a lower-case letter. */
  lemma WordsCapitalized(s: string)
    ensures var r := Capitalize(s);
            forall i :: 0 <= i < |r| && WordStart(r, i) ==> !('a' <= r[i] <= 'z')
  {
    CapitalizeWordStarts(s);
  }

  /** The text before trimming: separators spaced out, words capitalised. */
  function Spelled(key: string): (r: string)
    ensures |r| == |key|
    ensures '_' !in r && '-' !in r
    ensures forall i :: 0 <= i < |key| ==> (IsSpace(r[i]) <==> IsSpace(key[i]) || key[i] == '_' || key[i] == '-')
  {
    var spaced := Map(key, SeparatorToSpace);
    var r := Capitalize(spaced);
    forall i | 0 <= i < |key|
      ensures r[i] != '_' && r[i] != '-'
      ensures IsSpace(r[i]) <==> IsSpace(key[i]) || key[i] == '_' || key[i] == '-'
    {
      UpperKeepsClass(spaced[i]);
    }
    r
  }

  /** The readable name of a guide key (`cleanName`). */
  function PrettifyEpgKey(key: string): (name: string)
    ensures IsTrimmed(name)
    ensures '_' !in name && '-' !in name
    // empty exactly when the key holds nothing but white space and separators
    ensures name == "" <==> forall i :: 0 <= i < |key| ==> IsSpace(key[i]) || key[i] == '_' || key[i] == '-'
  {
    var spelled := Spelled(key);
    var name := Trim(spelled);
    assert IsBlank(spelled) <==> forall i :: 0 <= i < |key| ==> IsSpace(key[i]) || key[i] == '_' || key[i] == '-';
    name
  }

  const EpgGroup := "EPG"
  const PlaceholderPrefix := "placeholder_"
  const TodoUrlPrefix := "# TODO: Agregar URL real para "

  /** `cleanName || 'Canal ' + (index + 1)`. */
  function EpgChannelName(key: string, index: nat): (name: string)
    ensures name != ""
    ensures PrettifyEpgKey(key) != "" ==> name == PrettifyEpgKey(key)
    ensures PrettifyEpgKey(key) == "" ==> name == NumberedNamePrefix + NatToString(index + 1)
  {
    var clean := PrettifyEpgKey(key);
    if clean != "" then clean else NumberedNamePrefix + NatToString(index + 1)
  }

  /** The channel made for the key at position `index` of the guide's keys
      (the fields kept only for bookkeeping — playlist name and URL, original
      key — are not modelled). */
  function ChannelFromEpgKey(key: string, index: nat, now: nat, token: string): (c: Channel)
    ensures c.name == EpgChannelName(key, index)
    ensures c.group == EpgGroup && c.logo == ""
    // a URL the player refuses, naming the channel to fill in
    ensures IsPlaceholderUrl(c.url) && EndsWith(c.url, c.name)
    // a content id: 1 to 16 ASCII letters and digits
    ensures 1 <= |c.id| <= MaxIdLength && forall i :: 0 <= i < |c.id| ==> IsAsciiAlnum(c.id[i])
  {
    var name := EpgChannelName(key, index);
    TodoUrlIsPlaceholder(name);
    PlaceholderId(name, key, now, token);
    Channel(GenerateChannelId(name, PlaceholderPrefix + key, now, token), name, "", EpgGroup, TodoUrlPrefix + name)
  }

  /** The id made from the `placeholder_` URL is a content id: that URL
      always has ASCII characters to encode. */
  lemma PlaceholderId(name: string, key: string, now: nat, token: string)
    ensures var id := GenerateChannelId(name, PlaceholderPrefix + key, now, token);
            1 <= |id| <= MaxIdLength && forall i :: 0 <= i < |id| ==> IsAsciiAlnum(id[i])
  {
    var url := PlaceholderPrefix + key;
    assert IsAscii(url[0]);
    assert Combined(name, url) != "";
  }

  /** The `# TODO` text is a URL the player refuses. */
  lemma TodoUrlIsPlaceholder(name: string)
    ensures IsPlaceholderUrl(TodoUrlPrefix + name) && EndsWith(TodoUrlPrefix + name, name)
  {
    assert (TodoUrlPrefix + name)[..1] == "#";
    assert (TodoUrlPrefix + name)[|TodoUrlPrefix|..] == name;
  }

  /** The id of a generated channel is a content id: letters and digits, at
      most 16, fixed by the key and position alone. */
  lemma GeneratedIdIsContentId(key: string, index: nat, now: nat, token: string, now': nat, token': string)
    ensures var id := ChannelFromEpgKey(key, index, now, token).id;
            && 1 <= |id| <= MaxIdLength && (forall i :: 0 <= i < |id| ==> IsAsciiAlnum(id[i]))
            && id == ChannelFromEpgKey(key, index, now', token').id
  {
    var name := EpgChannelName(key, index);
    var url := PlaceholderPrefix + key;
    assert IsAscii(url[0]);
    assert Combined(name, url) != "";
  }
}
