/** `generateChannelId` (renderer.js): the id of a channel is the base 64
    encoding of its ASCII-stripped name and url, reduced to letters and
    digits and cut to 16 characters; when nothing ASCII is left the id is a
    time-and-random fallback token. */
module ChannelId {
  import opened Seqs
  import opened Text
  import Base64

  const MaxIdLength := 16
  const FallbackPrefix := "channel_"

  /** The character codes of an all-ASCII string: the bytes `btoa` encodes. */
  function AsciiBytes(s: string): (b: seq<Base64.Byte>)
    requires forall i :: 0 <= i < |s| ==> IsAscii(s[i])
    ensures |b| == |s|
    ensures forall i :: 0 <= i < |s| ==> b[i] == s[i] as int
  {
    if |s| == 0 then []
    else
      assert IsAscii(s[0]);
      [s[0] as int] + AsciiBytes(s[1..])
  }

  /** `name` and `url` with every non-ASCII character removed, concatenated. */
  function Combined(name: string, url: string): string {
    StripNonAscii(name) + StripNonAscii(url)
  }

  /** The leading `n` characters, or all of `s` when it is shorter
      (`substring(0, n)`). */
  function Take(s: string, n: nat): (r: string)
    ensures |r| <= n && |r| <= |s|
    ensures r == s[..|r|]
    ensures |s| >= n ==> |r| == n
  {
    if |s| <= n then s else s[..n]
  }

  /** The deterministic id of a channel whose name and url keep some ASCII. */
  function ContentId(name: string, url: string): (id: string)
    requires Combined(name, url) != ""
    ensures 1 <= |id| <= MaxIdLength
    ensures forall i :: 0 <= i < |id| ==> IsAsciiAlnum(id[i])
  {
    var combined := Combined(name, url);
    var encoded := Base64.Encode(AsciiBytes(combined));
    var alnum := Filter(encoded, IsAsciiAlnum);
    FilterMembers(encoded, IsAsciiAlnum);
    // The first character encodes the top six bits of an ASCII code, a
    // value below 32, so it is a letter and survives the filter.
    assert IsAsciiAlnum(encoded[0]);
    assert encoded[0] in alnum;
    Take(alnum, MaxIdLength)
  }

  /** The fallback id: `'channel_' + Date.now() + '_' + <random base-36 text>`. */
  function FallbackId(now: nat, token: string): (id: string)
    ensures StartsWith(id, FallbackPrefix)
  {
    FallbackPrefix + NatToString(now) + "_" + token
  }

  /** `generateChannelId(name, url)`, with the clock reading and random text
      of the fallback passed in. */
  function GenerateChannelId(name: string, url: string, now: nat, token: string): (id: string)
    ensures Combined(name, url) != "" ==>
              1 <= |id| <= MaxIdLength && forall i :: 0 <= i < |id| ==> IsAsciiAlnum(id[i])
    ensures Combined(name, url) == "" ==> StartsWith(id, FallbackPrefix)
  {
    if Combined(name, url) == "" then FallbackId(now, token) else ContentId(name, url)
  }

  /** An id that can come from the fallback never equals a content id: the
      fallback contains `_`, a content id only letters and digits. */
  lemma FallbackNeverContentId(name: string, url: string, now: nat, token: string,
                               name': string, url': string)
    requires Combined(name', url') != ""
    ensures FallbackId(now, token) != ContentId(name', url')
  {
    var f := FallbackId(now, token);
    var c := ContentId(name', url');
    if |f| == |c| {
      assert f[7] == '_';
      assert !IsAsciiAlnum(f[7]);
    }
  }

  /** With some ASCII to encode, the id depends on name and url alone: the
      clock and the random source play no part. */
  lemma IdDeterministic(name: string, url: string, now: nat, token: string, now': nat, token': string)
    requires Combined(name, url) != ""
    ensures GenerateChannelId(name, url, now, token) == GenerateChannelId(name, url, now', token')
  {
  }

  /** Non-ASCII characters never influence the id. */
  lemma IdIgnoresNonAscii(name: string, url: string, now: nat, token: string)
    ensures GenerateChannelId(name, url, now, token)
         == GenerateChannelId(StripNonAscii(name), StripNonAscii(url), now, token)
  {
    assert StripNonAscii(StripNonAscii(name)) == StripNonAscii(name);
    assert StripNonAscii(StripNonAscii(url)) == StripNonAscii(url);
  }
}
