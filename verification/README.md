# IPTV player core: playlists, guide and lookup

This project models the data core of the renderer of an Electron IPTV player
(`renderer.js`) in Dafny:

- the extended-M3U playlist parser (`parseExtinf`, `parseM3U` and its
  chunked twin `parseM3UAsync`) together with the channel ids it assigns
  (`generateChannelId`, the base 64 encoding of section 4 of RFC 4648);
- the opposite direction, `generateM3U`, and the round trip through the
  parser for channels the writer can express (`Export.Exportable`, below);
- the XMLTV guide: `parseEPGTime` and the grouping and sorting half of
  `parseEPG`, whose table is a plain JavaScript object;
- the channel-to-guide matcher `getCurrentProgram`;
- the category tally of `processChannels` / `processLargeChannelList`;
- the small pure helpers around them:
  - the channel filter and pagination;
  - the placeholder-URL test;
  - `detectStreamType`;
  - `saveNewUrl`;
  - `toggleFavorite`;
  - `getCategoryIcon`;
  - the guide-key prettifier of `generateM3UFromEPG`.

Randomness and the clock (`Math.random`, `Date.now`) become parameters:

- `Playlist.Draw` holds what one line draws;
- `entropy: nat -> Draw` gives the draw for each line number.

Everything else is pure functions over immutable datatypes. The imperative
chunk loops are methods whose invariants tie them to the plain fold.

Modules, in dependency order:

| module | what it holds |
|---|---|
| `Wrappers` | `Option` and `Result` |
| `Seqs` | `Filter` and `Map` |
| `Text` | ECMAScript white space, `trim`, `split`, ASCII case mapping, number rendering |
| `JsObject` | the inherited members of `Object.prototype` |
| `Base64` | `btoa`, with a decoder as its inverse |
| `ChannelId` | `generateChannelId` |
| `Playlist` | the M3U parser |
| `Export` | `generateM3U` and the round trip |
| `EpgTime` | `parseEPGTime` and the calendar arithmetic |
| `StableSort` | the stable `Array.prototype.sort` |
| `MapSum` | sums over maps |
| `Epg` | `parseEPG` |
| `Matcher` | `getCurrentProgram` |
| `Categories` | the tally and the icons |
| `Browse` | filtering and pages |
| `Player` | the placeholder test, stream type, URL edit and favourites |
| `EpgChannels` | channels made from guide keys |

Points where the code's behaviour is easy to misread; the model follows
the code:

- **Which comma.** The channel name is the text after the **first** comma
  that has at least one character after it (the regular expression
  `/,(.+)$/` matches leftmost). It is not the last comma.
- **No time check.** No check makes a programme's `start` precede its
  `stop`.
- **Two spellings of the group.** The category filter compares the raw
  `channel.group`, while the tally counts `channel.group || 'General'`.
- **Fixed tally entries.** A group literally named `all` or `favorites`
  adds to the fixed tally entry of that name.
- **Inherited keys.** The guide table is a plain object. An XMLTV
  `channel` such as `constructor` makes `.push` throw, and the whole result
  is `{}`. A candidate key such as `toString` makes `getCurrentProgram`
  throw a `TypeError` (modelled as `Failure`). `getCategoryIcon` can return
  an inherited member (modelled as `Categories.InheritedMember`).
- **What survives an export.** `generateM3U` writes the fields without
  escaping, and `parseExtinf` reads them back with leftmost matches, so the
  round trip holds only for channels satisfying `Export.Exportable`:
  - the logo and the group contain no `,`, `"` or `\n`;
  - the logo does not end in `group-title=` (the group pattern would match
    inside the logo attribute);
  - the group does not end in `tvg-logo=`, which matters only when the logo
    is blank and no logo attribute is written before it;
  - the name is non-empty and trimmed, contains no line terminator (`\n`,
    `\r`, U+2028, U+2029, which stop `/,(.+)$/`), and contains neither
    `tvg-logo="` nor `group-title="`;
  - the URL is trimmed, contains no `\n` and starts with `http`.
- **What the guide lemmas assume.** The lemmas about the finished guide
  (`Epg.ParseEPGCount`, `Epg.ParseEPGKeys`, `Epg.ParseEPGLists`) require
  that no element's `channel` names an inherited member (`!AnyInherited`,
  otherwise the result is `{}`) and that every stamp is absent, empty or a
  valid calendar time (`AllModelled`, see "Left out").

## Model

| member | source | states |
|---|---|---|
| Playlist.ExtinfName | renderer.js:821-842 | The name is never empty. It is the trimmed text after the leftmost comma with a line-terminator-free, non-empty tail, or `Canal sin nombre` when that trims to nothing, or `Canal <roll>` when no comma qualifies |
| Playlist.AttrValue | renderer.js:829-837 | The value of the leftmost `key…"` match (each key already ends in `="`) with a non-empty quote-free run, `None` only when the pattern matches nowhere |
| Playlist.ParseExtinf | renderer.js:812-850 | A parsed directive always has a non-empty name and group, with id and URL still empty |
| Playlist.ParseExtinfFields | renderer.js:829-837 | Logo is the first `tvg-logo` match or `''`; group is the first `group-title` match or `General` |
| Playlist.DirectiveThenUrl | renderer.js:700-711 | A directive line directly followed by a URL line appends exactly the channel the two make and leaves nothing pending, whatever was pending before |
| Playlist.ScanMatchesPairings | renderer.js:697-711 | The scan state after any prefix equals an independent description: one channel per URL line whose nearest preceding directive-or-URL line is a directive, in order, built from that directive and that URL; the open directive is pending |
| Playlist.ParseM3UMatchesPairings | renderer.js:691-717 | `parseM3U` returns exactly those pairings of the trimmed, non-empty lines; orphan URL lines and other lines contribute nothing |
| Playlist.ParseM3UWellFormed | renderer.js:691-717 | Every returned channel has a non-empty name, group and id, and a trimmed URL that starts with `http` |
| Playlist.ScanChunk | renderer.js:733-749 | Scanning lines `from` to `end` from the state after `from` lines gives the state after `end` lines |
| Playlist.ParseM3UAsync | renderer.js:720-773 | The 100-line chunk loop returns the same list as `parseM3U` |
| Text.Lines | renderer.js:692 | Every line kept is non-empty, trimmed and free of `\n` |
| Text.SplitJoin | renderer.js:692 | Splitting on `\n` loses nothing: joining the pieces restores the text |
| Text.NatToStringRoundTrip | renderer.js:841 | The decimal rendering of the random number reads back as that number |
| ChannelId.GenerateChannelId | renderer.js:852-866 | With some ASCII in name and URL, the id is 1 to 16 ASCII letters and digits; otherwise it starts with `channel_` |
| ChannelId.ContentId | renderer.js:853-863 | The content id is non-empty, at most 16 characters, letters and digits only |
| ChannelId.IdDeterministic | renderer.js:852-866 | With some ASCII present, the id does not depend on the clock or the random source |
| ChannelId.IdIgnoresNonAscii | renderer.js:854-856 | Removing non-ASCII characters beforehand does not change the id |
| ChannelId.FallbackNeverContentId | renderer.js:858-863 | A fallback id never equals any content id |
| Base64.Encode | renderer.js:862 | Output length is 4·⌈n/3⌉, every character is in the alphabet or `=`, and the first encodes the top six bits of the first byte |
| Base64.DecodeEncode | renderer.js:862 | Decoding inverts the encoding, so distinct byte strings encode differently |
| Export.ExtinfRoundTrip | renderer.js:2456-2471 | For an `Exportable` channel, `parseExtinf` of its written directive gives back the name, the logo (empty when blank) and the group (`General` when blank) |
| Export.LinesOfExport | renderer.js:2452-2477 | For `AllExportable` channels, the trimmed non-empty lines of an export are the header and then, per channel, its directive and its URL |
| Export.RoundTrip | renderer.js:2452-2477 | For `AllExportable` channels, `parseM3U(generateM3U(cs))` returns the same channels in order, ids recomputed from name and URL, a blank logo emptied and a blank group as `General` |
| EpgTime.CleanTime | renderer.js:518 | The result is the prefix before the leftmost white space followed only by non-terminators, or the whole text when there is none |
| EpgTime.ParseEPGTime | renderer.js:514-527 | `null` exactly for an absent or empty attribute; a failure exactly when the cleaned text of a present attribute is not a well-formed stamp; otherwise the UTC milliseconds of the fields read from the cleaned stamp |
| EpgTime.OffsetIgnored | renderer.js:518 | A stamp followed by a space and any offset reads as the stamp alone |
| EpgTime.FieldsOfFormat | renderer.js:519-524 | Characters 0-4, 4-6, 6-8, 8-10, 10-12 and 12-14 of a written stamp give its fields back |
| EpgTime.GluedStampRoundTrip | renderer.js:514-527 | A written stamp followed directly by text without white space still reads as the instant it names: the fields are the first fourteen characters |
| EpgTime.StampRoundTrip | renderer.js:514-527 | A written stamp with any offset reads as the instant it names |
| EpgTime.EpochMsOrder | renderer.js:526 | The time value orders instants exactly as the calendar does, and equal values mean equal fields |
| EpgTime.NewYearNoon | renderer.js:514-527 | `20250101120000 +0000` is 1 735 732 800 000 ms, that is 2025-01-01T12:00:00Z |
| Epg.ToProgramme | renderer.js:492-499 | A missing title becomes `Sin título`, a missing description `''`, a present one is kept, so the title is empty only for an empty `title` element; raw stamps are kept; a time is `null` for an absent or empty stamp and the UTC instant a well-formed stamp names; for a malformed stamp `null` stands in for the Invalid Date the program stores (see "Left out") |
| Epg.ParseEPG | renderer.js:469-511 | Any element keyed by an inherited member name collapses the result to `{}` |
| Epg.GroupKeys | renderer.js:488-490 | The table has a key exactly when some element was filed under it |
| Epg.GroupIsFilter | renderer.js:479-499 | The list under a key is the programmes filed under it, in document order |
| Epg.ParseEPGCount | renderer.js:479-505 | With no inherited key and every stamp modelled (`!AnyInherited`, `AllModelled`), the list lengths add up to the number of `programme` elements |
| Epg.ParseEPGKeys | renderer.js:479-505 | With no inherited key and every stamp modelled (`!AnyInherited`, `AllModelled`), the guide's keys are exactly the `channel` values used (`null` for a missing one) |
| Epg.ParseEPGLists | renderer.js:502-504 | With no inherited key and every stamp modelled (`!AnyInherited`, `AllModelled`), each list is sorted by start with `null` as 0, is a permutation of the document-order entries, and keeps equal starts in document order |
| StableSort.SortPermutes | renderer.js:504 | Sorting is a permutation |
| StableSort.SortSorted | renderer.js:504 | Sorting orders by key |
| StableSort.SortStable | renderer.js:504 | Elements with equal keys keep their relative order |
| Matcher.FirstCurrent | renderer.js:645-650 | The first programme with `start <= T < stop` (`null` as 0), or none exactly when no programme is on air |
| Matcher.Search | renderer.js:638-655 | The first candidate the guide answers decides; a found list with nothing on air gives none, with no fallthrough; no candidate gives none |
| Matcher.GetCurrentProgram | renderer.js:620-660 | No guide gives none; the exact name is tried first; the first candidate present decides; a returned programme is on air at `T`, so `T` is not its `stop`, and comes from the list of the first candidate found |
| Matcher.CandidateSpellings | renderer.js:627-634 | Six candidates in the program's order: the name, its lower-cased form, the name without white space (keeping every other character), the name with only ASCII letters and digits, and the `_` and `-` spellings; all but the first two are free of white space |
| Matcher.SpacelessCandidates | renderer.js:627-634 | For a name without white space, the space-free, `_` and `-` spellings are the name itself |
| Matcher.CollapseRun | renderer.js:632-633 | A maximal white-space run between two other characters becomes exactly one separator, and the text on either side is handled independently |
| Matcher.CollapseSpaceFree | renderer.js:632-633 | Text without white space is left unchanged by the `_` and `-` spellings |
| Matcher.CollapseNoSpace | renderer.js:632-633 | Replacing runs with `_` or `-` leaves no white space |
| Matcher.CollapseThenDrop | renderer.js:629-633 | Removing the separator from the `_` (or `-`) spelling gives the white-space-free spelling, when the name has no such separator |
| Categories.TallyAll | renderer.js:889-892 | The `forEach` loop computes the bump-per-channel fold |
| Categories.TallyChunk | renderer.js:906-912 | One 200-channel chunk extends the fold from `from` to `end` |
| Categories.TallyInChunks | renderer.js:901-929 | The chunked path gives the same map as the direct loop |
| Categories.ProcessChannels | renderer.js:870-899 | An empty list leaves the map alone; otherwise `all` is the channel count, `favorites` the favourite count (plus any group so named), and every other key the number of channels whose group (`General` when empty) is that key |
| Categories.TallyCounts | renderer.js:889-892 | Each entry grows by the number of channels of its category |
| Categories.TallyKeys | renderer.js:889-892 | A key is present exactly when it was before or some channel has that category |
| Categories.TallyTotal | renderer.js:889-892 | The entries grow in total by one per channel |
| Categories.CountIsFilter | renderer.js:889-892 | The count of a category is the length of the filtered channel list |
| Categories.FixedEntries | renderer.js:879-881 | Without a group named `all` or `favorites`, `all` is the channel count and `favorites` the favourite count |
| Categories.GroupCountsSum | renderer.js:878-892 | Without such a group, the category counts sum to the number of channels |
| Categories.GetCategoryIcon | renderer.js:961-981 | A known lower-cased name gives its icon; an inherited member name gives that member; anything else gives `fas fa-tv` |
| Categories.IconIgnoresCase | renderer.js:979-980 | A name and its lower-cased form get the same icon |
| Browse.SearchTerm | renderer.js:1008 | The term is trimmed, and empty exactly when the lower-cased input is blank |
| Browse.FilterChannels | renderer.js:999-1019 | Category filter then search filter equals one filter by the combined test |
| Browse.FilterTwice | renderer.js:999-1014 | Two filters in a row equal one filter by the conjunction |
| Browse.FilterChannelsMembers | renderer.js:999-1014 | A channel is listed exactly when it is in the list and passes both tests |
| Browse.AllUnfiltered | renderer.js:1001-1014 | Category `all` with a blank search lists every channel unchanged |
| Browse.TotalPages | renderer.js:1032 | The ceiling of n/50: enough pages for every channel, and no empty last page |
| Browse.PageOf | renderer.js:1033-1035 | A page is the slice from `page·50` of at most 50 channels, non-empty exactly for an existing page |
| Browse.PagesCoverList | renderer.js:1032-1035 | The pages in order show every listed channel exactly once |
| Browse.ChangePage | renderer.js:1067-1073 | A request for an existing page is obeyed and any other request leaves the page alone, even when the current page is itself out of range (as at start-up, with no pages); so the page is always the requested or the current one, and an in-range page stays in range |
| Browse.ChangePageStaysInRange | renderer.js:1067-1073 | From an existing page, every page change stays on a non-empty page |
| Player.PlaceholderMarkers | renderer.js:1175-1180 | The `#` test never decides alone; a URL is refused exactly when it is not `http` or has one of the three markers |
| Player.FirstMarkerType | renderer.js:1227-1241 | The type of the first marker in priority order that the URL contains, HLS when none |
| Player.DetectStreamType | renderer.js:1227-1241 | The priority `.m3u8`, `.mpd`, `.ts`, `.mp4` decides, HLS by default |
| Player.StreamTypeIgnoresCase | renderer.js:1228 | The guess does not depend on letter case |
| Player.FindById | renderer.js:1519 | The index of the first channel with the id, none exactly when there is none |
| Player.SaveNewUrl | renderer.js:1505-1527 | The three error cases are each stated in both directions. On success only the first channel with the id changes, and only in its URL |
| Player.SaveNewUrlIdempotent | renderer.js:1505-1527 | Saving the same URL again changes nothing more |
| Player.ToggleFavorite | renderer.js:1646-1654 | With a current channel, its id's membership flips and no other id changes; without one the set is unchanged |
| Player.ToggleTwice | renderer.js:1646-1654 | Toggling twice restores the set |
| EpgChannels.Capitalize | renderer.js:2625 | Exactly the characters that start a word are upper-cased |
| EpgChannels.CapitalizeWordStarts | renderer.js:2625 | Capitalising moves no word boundary |
| EpgChannels.CapitalizeOnlyCase | renderer.js:2625 | Capitalising changes letter case only |
| EpgChannels.WordsCapitalized | renderer.js:2625 | After capitalising, no word starts with a lower-case letter |
| EpgChannels.PrettifyEpgKey | renderer.js:2623-2626 | The clean name is trimmed and free of `_` and `-`, and empty exactly when the key is only white space and separators |
| EpgChannels.EpgChannelName | renderer.js:2628 | The clean name, or `Canal <index+1>` when it is empty; never empty |
| EpgChannels.ChannelFromEpgKey | renderer.js:2628-2640 | The generated channel carries the clean name (or `Canal <index+1>`), sits in group `EPG` with no logo, has a URL ending in its name that the player refuses as a placeholder, and an id of 1 to 16 ASCII letters and digits |
| EpgChannels.GeneratedIdIsContentId | renderer.js:2632 | A generated id is a content id of 1 to 16 letters and digits, fixed by key and position alone |

## Left out

- `main.js` is not part of this model. It is window lifecycle, HTTP fetching, gzip and IPC.
- XML parsing with `DOMParser` is a foreign call. `Epg.ParseEPG` starts from the programme elements already read out (`Epg.ProgrammeElement`).
- `setTimeout` scheduling, promises and progress text of the asynchronous variants are left out. Only their chunk loops are modelled (`Playlist.ParseM3UAsync`, `Categories.TallyInChunks`).
- `Math.random` and `Date.now` are parameters (`Playlist.Draw`, `entropy`). Only the shape of what they produce is stated.
- `Epg.ToProgramme`: for a non-empty malformed stamp the program stores `new Date(...)`, an Invalid Date (or what the engine's lenient date parser makes of the text), never `null`; the model has no value for that and writes `null`. The two differ in `getCurrentProgram` (renderer.js:647), where a `null` start counts as 0 and can match but an Invalid Date never matches. `Epg.ParseEPG` and everything built on it require `AllModelled`, so no such element reaches them.
- `Epg.ParseEPG`: requires every stamp to be absent, empty or a valid calendar time (`AllModelled`). What the JavaScript `Date` makes of malformed or out-of-range fields is engine behaviour left out. `EpgTime.ParseEPGTime` keeps such a text as a `Failure`.
- `Matcher.GetCurrentProgram`: the guide is the table `parseEPG` builds. A guide restored from `localStorage` through JSON holds strings instead of dates, and that case is left out.
- Locale formatting (`toLocaleTimeString`) and `formatFileSize` (floating point) are left out.
- `ChannelId.GenerateChannelId`: injectivity is not claimed. Cutting to 16 characters makes ids collide for inputs sharing their first twelve ASCII characters, so only determinism is proved.
- `Text.ToLower`: maps ASCII letters only, whereas `toLowerCase` also maps other scripts, and some non-ASCII characters lower-case to ASCII: U+212A KELVIN SIGN becomes `k`, and U+0130 becomes `i` followed by U+0307. So `getCategoryIcon('\u212AIDS')` gives `fas fa-child` in the program (renderer.js:979-980) but `fas fa-tv` in `Categories.GetCategoryIcon`, and a search for `\u212A` (renderer.js:1008-1013) lists every channel whose name or group contains `k` or `K` in the program, but in `Browse.FilterChannels` only those that contain the Kelvin sign itself.
- `Epg.SortLists`: the order of `Object.keys` is not modelled, since the table is a map.
- `EpgChannels.ChannelFromEpgKey`: the bookkeeping fields `playlistName`, `playlistUrl` and `originalEpgId` are left out. The order of the guide's keys enters only as the `index` parameter.
- The `catch` blocks of `parseExtinf` and `generateChannelId` are left out. Nothing in their `try` blocks can throw once non-ASCII characters are removed before `btoa`.
- `Browse.TotalPages`: an empty list returns before `totalPages` is recomputed, so the program keeps a stale value there. `Browse.ChangePage` takes the page count as a parameter and does not model that staleness.
- Rendering, modals, the video player and its retries, clipboard, drag-and-drop and `localStorage` persistence are UI and I/O, and are left out.
