# Faculty profile header: display model

`src/components/Hero.tsx` renders the header of a faculty profile page from
one spreadsheet row: a record mapping column headers to cell strings. Before
rendering, it derives a small display model from that row. This project
models that derivation and proves properties of it:

- **Alias lookup (`getEntry`).** Each canonical field has an ordered list of
  candidate headers. For each candidate in turn, the lookup tries the exact
  header first, then the first header (in column order) that equals the
  candidate once both are folded to lower case. The first non-empty value
  wins; a miss reports the first candidate with an empty value.
- **Canonical fields and defaults.** Name, designation, department and the
  rest are looked up through their alias lists. The name falls back to
  "Faculty Member" and the designation to "Designation".
- **Link completion.** `ensureProtocol` uses the sentinel "#" for "no link"
  and puts `https://` in front of a bare link. The ORCID rule puts
  `https://orcid.org/` in front of a bare id. GitHub and LinkedIn links
  passed in by the caller take precedence over the row.
- **Column labels (`formatKey`).** A label is the trimmed header with one
  trailing colon removed.
- **Photo link (`getPhotoUrl`).** A Google Drive share link is rewritten to
  the Drive thumbnail service. The file id is taken from the leftmost `/d/`
  followed by at least 25 id characters, or else from the leftmost `?id=` or
  `&id=` followed by the same.
- **Extra columns.** These are the row's remaining non-empty columns, in row
  order. A column is excluded when its lower-cased header is in a fixed list
  of handled names.
- **Statistics-card stack.** There are three cards when publication counts
  are given. The page counter `activePage` advances modulo the card count on
  a click. Each card's pose depends on whether it is the active card, the
  next card, or further back.

Modules, one per concern:

- `Wrappers`: `Option`.
- `Strings`: ASCII `toLowerCase`, JavaScript `trim`, `startsWith`, `includes`.
- `RowLookup`: the row and `getEntry`.
- `Links`: `ensureProtocol` and the ORCID link rule.
- `Photo`: `getPhotoUrl`, with both regular expressions written out as
  explicit scans.
- `ExtraColumns`: `handledKeys` and `otherColumns`.
- `Profile`: the alias lists, defaults, `formatKey` and the assembled
  display model.
- `StatCards`: the cards, the `CardStack` class holding `activePage`, and
  the card poses.

A row is a sequence of (header, cell) pairs in the order `Object.keys`
enumerates them, so every "first match" in the source is explicit. Reading
`data[key]` is `Get`, the cell of the first pair with exactly that header. A
missing header reads as "": `undefined` and "" are both falsy, and the
source only ever tests these values for truthiness.

`getEntry` is modelled twice:

- `GetEntry` is the source's loop with its early returns.
- `ResolveEntry` is the function that specifies it. The lemmas reason about
  `ResolveEntry`.

The lookup (`src/components/Hero.tsx:23-27`) prefers an exact header over a
case-insensitive one only within one candidate. Across candidates, list
order decides: a case-insensitive hit for an earlier candidate beats an
exact hit for a later one (`RowLookup.EarlierFoldHitBeatsLaterExact`,
`Profile.FoldedFullNameBeatsExactName`). Between two headers that differ
only by case, the case-insensitive scan consults only the earlier of them
(`Profile.EmptyFirstFoldMatchHidesLaterOne`). A header spelled exactly like
the candidate is read first, wherever it sits in the row
(`Profile.ExactHeaderReadFirst`).

## Model

| member | source | states |
|---|---|---|
| RowLookup.Get | src/components/Hero.tsx:24 | `data[key]`: a non-empty result is a cell stored under exactly `key`; with no such header the result is "" |
| RowLookup.GetFindsPair | src/components/Hero.tsx:24 | in a row with distinct headers, reading a header yields that header's own cell |
| RowLookup.FoldIndex | src/components/Hero.tsx:25 | the position of the first header equal to `key` after lower-casing: no earlier header matches, and the one found does |
| RowLookup.FindFold | src/components/Hero.tsx:25 | the `find` result: nothing exactly when no header matches case-insensitively, otherwise the first matching header |
| RowLookup.CandidateHit | src/components/Hero.tsx:24-26 | one candidate's yield: an exact non-empty cell wins; otherwise the first case-insensitive header yields its cell exactly when that header and its cell are non-empty, and no later header is consulted; any yield is a real non-empty row pair whose header folds to the candidate |
| RowLookup.FirstHit | src/components/Hero.tsx:23-27 | the candidate scan: a hit is a non-empty row pair, and it is the yield of one of the candidates |
| RowLookup.ResolveEntry | src/components/Hero.tsx:22-29 | `getEntry` as a function: an empty value means the result is `{ key: keys[0], value: '' }`; a non-empty value comes with the row header it is stored under |
| RowLookup.GetEntry | src/components/Hero.tsx:22-29 | the loop with early returns computes exactly `ResolveEntry` |
| RowLookup.FirstYieldingCandidateWins | src/components/Hero.tsx:23-27 | candidates are tried in list order: the first candidate that yields decides the result |
| RowLookup.FirstHitAt | src/components/Hero.tsx:23-27 | the scan over candidates returns the first yielding candidate's entry |
| RowLookup.EarlierFoldHitBeatsLaterExact | src/components/Hero.tsx:23-27 | an earlier candidate's case-insensitive hit beats a later candidate's exact hit |
| RowLookup.FoldScanStopsAtFirstMatch | src/components/Hero.tsx:25-26 | when the first case-insensitive header has an empty cell the candidate yields nothing, even if a later header of the same spelling is filled |
| RowLookup.MissIff | src/components/Hero.tsx:23-28 | the lookup misses exactly when no candidate yields, and a miss is `{ key: keys[0], value: '' }` |
| RowLookup.FirstHitNone | src/components/Hero.tsx:23-28 | the candidate scan finds nothing exactly when every candidate yields nothing; a hit is non-empty |
| RowLookup.HitIsRowPair | src/components/Hero.tsx:24-26 | a hit is an actual (header, cell) pair of the row whose header folds to one of the candidates |
| RowLookup.FirstHitIndex | src/components/Hero.tsx:23-27 | a hit comes from a candidate all of whose predecessors yield nothing |
| RowLookup.ExactColumnPreventsMiss | src/components/Hero.tsx:24 | an exact non-empty column under any candidate rules out a miss; under the first candidate it is the result |
| RowLookup.NoFoldMatchMisses | src/components/Hero.tsx:28 | with no header folding to any candidate, the result is `{ key: keys[0], value: '' }` |
| Strings.ToLower | src/components/Hero.tsx:25 | lower-casing keeps the length and folds each ASCII letter |
| Strings.LeadFrom | src/components/Hero.tsx:81 | the first non-whitespace position at or after `from`; everything skipped is whitespace |
| Strings.Lead | src/components/Hero.tsx:81 | the length of the leading whitespace of a string |
| Strings.TrimmedEnd | src/components/Hero.tsx:81 | the end of a slice once trailing whitespace is dropped; everything dropped is whitespace |
| Strings.Trim | src/components/Hero.tsx:81 | `trim`: a slice of the input with only whitespace before and after it, that neither starts nor ends with whitespace |
| Links.EnsureProtocol | src/components/Hero.tsx:57-61 | "" and "#" give "#"; an http(s) link is kept; anything else gets `https://` in front; the result is "#" or has a protocol |
| Links.EnsureProtocolIdempotent | src/components/Hero.tsx:57-61 | completing a link twice gives the same as completing it once |
| Links.EnsureProtocolKeepsLink | src/components/Hero.tsx:57-61 | a real link is the input itself or the input under `https://` |
| Links.EnsureProtocolExamples | src/components/Hero.tsx:57-61 | sample values: "" and "#" give "#", "example.com" gives "https://example.com", "http://x" is kept |
| Links.OrcidLink | src/components/Hero.tsx:66 | an empty id gives "#"; an id starting with "http" is kept; otherwise `https://orcid.org/` + id; a real link starts with "http" |
| Links.OrcidLinkExamples | src/components/Hero.tsx:66 | sample values: a bare ORCID id goes under `https://orcid.org/`, "" gives "#" |
| Links.SocialLink | src/components/Hero.tsx:54-55 | a non-empty link passed in by the caller is used in preference to the row's value |
| ExtraColumns.Filter | src/components/Hero.tsx:80-82 | `filter`: every kept pair is a row pair the predicate accepts, and every accepted row pair is kept |
| ExtraColumns.FilterKeepsOrder | src/components/Hero.tsx:80-82 | the filter keeps the row's column order |
| ExtraColumns.IsExtra | src/components/Hero.tsx:70-81 | the filter's test: a non-empty cell, a lower-cased header outside the handled names, and a header that is not blank after trimming |
| ExtraColumns.OtherColumns | src/components/Hero.tsx:80-82 | `otherColumns`, the row filtered by `IsExtra`; `OtherColumnsSpec` states its properties |
| ExtraColumns.OtherColumnsSpec | src/components/Hero.tsx:70-82 | the extra columns are an in-order subsequence of the row; each has a non-empty cell, a non-blank header and a lower-cased header outside the handled names; no such column is left out |
| ExtraColumns.SkipHead | src/components/Hero.tsx:80-82 | dropping the first element of the longer sequence keeps a subsequence |
| ExtraColumns.SubsequenceTail | src/components/Hero.tsx:80-82 | a subsequence stays one when its own first element is dropped |
| ExtraColumns.BlankHeaderIsNotExtra | src/components/Hero.tsx:81 | a header made only of whitespace is never an extra column |
| ExtraColumns.RankIsNotHandled | src/components/Hero.tsx:70-78 | "Rank", an alias of the designation, is not among the handled names |
| Photo.IdRun | src/components/Hero.tsx:91-93 | the greedy run of `[A-Za-z0-9_-]` characters: all id characters, stopping at the end or at a non-id character |
| Photo.MatchAt | src/components/Hero.tsx:91-93 | a pattern matches at a position: its marker is there and at least 25 id characters follow; the lemmas below and `FirstMatch` are stated over it |
| Photo.Capture | src/components/Hero.tsx:95-96 | the captured id has at least 25 id characters, occurs right after the marker, and is maximal: it ends at the end of the link or before a non-id character |
| Photo.FirstMatch | src/components/Hero.tsx:91-93 | the leftmost match at or after a position: it matches and nothing before it does; no result means no match at all |
| Photo.DriveFileId | src/components/Hero.tsx:89-96 | an id is found exactly when one of the two patterns matches; it has at least 25 id characters |
| Photo.GetPhotoUrl | src/components/Hero.tsx:84-104 | "" gives ""; a link without the Drive host is kept; a Drive link with an id becomes its thumbnail link; any other result is the input |
| Photo.QueryFormFallback | src/components/Hero.tsx:93-96 | with no `/d/` match, the id is the capture of the leftmost `?id=` or `&id=` match |
| Photo.PathFormWins | src/components/Hero.tsx:95-96 | when a `/d/` match exists the id comes from the leftmost one, whatever the query form holds |
| Photo.IdRunExact | src/components/Hero.tsx:91 | a run of id characters that ends at a non-id character is exactly the greedy run |
| Photo.Thumbnail | src/components/Hero.tsx:100 | the thumbnail link of an id; `ThumbnailIsFixedPoint` states that it resolves to itself |
| Photo.ThumbnailPrefixLayout | src/components/Hero.tsx:100 | the thumbnail prefix holds the Drive host, slashes only before the host's end, and one `?id=` |
| Photo.ThumbnailHasNoPathMatch | src/components/Hero.tsx:91-100 | a thumbnail link holds no `/d/` |
| Photo.ThumbnailQueryMatch | src/components/Hero.tsx:93-100 | the leftmost query match of a thumbnail link is its `?id=`, and it captures the id |
| Photo.ThumbnailIdRun | src/components/Hero.tsx:93-100 | the id run after the thumbnail's `?id=` is exactly the id |
| Photo.ThumbnailIsFixedPoint | src/components/Hero.tsx:84-104 | a thumbnail link resolves to itself |
| Photo.GetPhotoUrlIdempotent | src/components/Hero.tsx:84-104 | resolving a photo link twice gives the same as resolving it once |
| Photo.ShareLinkPrefixLayout | src/components/Hero.tsx:88-91 | the layout of the share-link prefix `https://drive.google.com/file/d/` |
| Photo.ShareLinkResolves | src/components/Hero.tsx:84-104 | `https://drive.google.com/file/d/<id>/view` with an id of at least 25 id characters becomes the thumbnail link of that id |
| Photo.ShareLinkMatch | src/components/Hero.tsx:88-96 | such a share link names the Drive host, and its leftmost `/d/` match captures the id |
| Photo.LeftmostMatch | src/components/Hero.tsx:91 | a match with none before it is the one the scan finds |
| Photo.ShareLinkNoEarlyMarker | src/components/Hero.tsx:91 | the first `/d/` of a share link is the one before the id |
| Photo.ShareLinkLayout | src/components/Hero.tsx:88-91 | the characters of a share link, piece by piece |
| Photo.ShortShareLinkNoPathMatch | src/components/Hero.tsx:91 | a share link whose id is shorter than 25 characters has no `/d/` match |
| Photo.ShareLinkNoQueryMarker | src/components/Hero.tsx:93 | a share link has no `?id=` or `&id=` |
| Photo.ShortShareLinkKept | src/components/Hero.tsx:84-104 | a share link with a short id is kept unchanged |
| Profile.BuildProfile | src/components/Hero.tsx:31-111 | the component's derived values for one row and the social links; `ProfileShape`, `FieldDefaults`, `LinkDefaults` and `OrcidLabelNamesColumn` state its properties |
| Profile.FormatKey | src/components/Hero.tsx:106 | the trimmed header, with one trailing colon removed if it has one; at most one character shorter than the trimmed header |
| Profile.TrimKeepsClean | src/components/Hero.tsx:106 | a string that neither starts nor ends with whitespace trims to itself |
| Profile.FormatKeyCleanLabel | src/components/Hero.tsx:106-110 | a clean label is shown as it is, and the same label with a trailing colon loses the colon |
| Profile.FormatKeyStripsOneColon | src/components/Hero.tsx:106 | only one trailing colon is removed: "Scopus ID::" becomes "Scopus ID:" |
| Profile.ProtocolStartsWithHttp | src/components/Hero.tsx:58-59 | an http(s) link starts with "http" |
| Profile.ProfileShape | src/components/Hero.tsx:42-68 | name and designation are never empty; every link is "#" or starts with "http"; the ORCID link is "#" exactly when no id was found |
| Profile.HandledCandidateYieldsNothing | src/components/Hero.tsx:24-26 | on a row whose columns with a handled header (a handled name or "rank" after lower-casing) all have empty cells, a handled candidate yields nothing |
| Profile.HandledAliasesMiss | src/components/Hero.tsx:22-29 | on such a row, a lookup whose candidates are all handled headers returns `{ key: keys[0], value: '' }` |
| Profile.FieldDefaults | src/components/Hero.tsx:31-51 | on such a row the name is "Faculty Member", the designation "Designation", and the other text fields are empty |
| Profile.EmptyNamedColumnsShowDefaults | src/components/Hero.tsx:31-43 | a row whose "Name" and "Designation" columns are empty shows "Faculty Member" and "Designation" |
| Profile.LinkDefaults | src/components/Hero.tsx:54-111 | on such a row, with no social links given, every link is "#", the labels are "ORCID ID", "Google Scholar Link" and "Scopus Link", and there is no photo |
| Profile.OrcidLabelNamesColumn | src/components/Hero.tsx:38-108 | a found ORCID id is the cell of a column whose header folds to an ORCID alias and formats to the label; with no id the label is "ORCID ID" |
| Profile.FoldedFullNameBeatsExactName | src/components/Hero.tsx:23-42 | a "FULL NAME" column is shown as the name even when an exact "Name" column holds another value |
| Profile.RankFillsDesignationAndIsExtra | src/components/Hero.tsx:32-82 | a lone "Rank" column fills the designation and is also listed as an extra column |
| Profile.EmptyFirstFoldMatchHidesLaterOne | src/components/Hero.tsx:25-36 | an empty "email" column before a filled "EMAIL" column makes the email lookup miss |
| Profile.EmailLookupMisses | src/components/Hero.tsx:25-36 | on that row the email lookup returns an empty value |
| Profile.ExactHeaderReadFirst | src/components/Hero.tsx:24-36 | a filled "Email" column after a filled "EMAIL" column is the one shown: the exact read comes before the case-insensitive scan |
| Profile.EmailCandidateYieldsNothing | src/components/Hero.tsx:25-26 | on that row the "Email" candidate stops at the empty "email" column |
| StatCards.Stats | src/components/Hero.tsx:113-117 | three cards carrying the journal, conference and book counts when counts are given, none otherwise; the labels are distinct |
| StatCards.Advance | src/components/Hero.tsx:120 | the next page is always within the card count |
| StatCards.IsTop | src/components/Hero.tsx:317 | card `i` is the active card; `OneTopOneNext` states that exactly one card is |
| StatCards.IsNext | src/components/Hero.tsx:318 | card `i` follows the active card; `NextBecomesTop` states that it is the active card after a click |
| StatCards.SlotOf | src/components/Hero.tsx:317-328 | the active test is taken before the next test; `LoneCardIsTop` and `OneTopOneNext` state the consequences |
| StatCards.PoseOf | src/components/Hero.tsx:320-341 | the pose of each slot; `StackingOrder` states that it stacks the active card above the next card above the rest |
| StatCards.CardStack.constructor | src/components/Hero.tsx:20 | the stack starts on page 0 |
| StatCards.CardStack.HandleNextPage | src/components/Hero.tsx:119-121 | a click, possible only while there are cards, moves to `(activePage + 1) mod n`, keeps the counter below the card count, and makes the card that was next the active card |
| StatCards.CardStack.CardPose | src/components/Hero.tsx:317-341 | each card's pose follows the active/next/back branches, and only the active card has z-index 20 |
| StatCards.CardStack.FrontTwoUnique | src/components/Hero.tsx:317-341 | on a valid stack of two or more cards, exactly one card has z-index 20 and exactly one has z-index 10 |
| StatCards.ModSucc | src/components/Hero.tsx:120 | proof helper for `IterateIsOffset`: reducing before or after adding one gives the same remainder |
| StatCards.ModUnique | src/components/Hero.tsx:120 | proof helper for `IterateIsOffset` and `CycleReturnsToStart`: the remainder of `q * n + r` with `0 <= r < n` is `r` |
| StatCards.IterateIsOffset | src/components/Hero.tsx:119-121 | after `k` clicks from page `p` the counter is `(p + k) mod n` |
| StatCards.CycleReturnsToStart | src/components/Hero.tsx:119-121 | `n` clicks bring the counter back to where it started |
| StatCards.ThreeCardCycle | src/components/Hero.tsx:113-121 | with the three cards the pages go 0, 1, 2, 0 |
| StatCards.NextBecomesTop | src/components/Hero.tsx:317-318 | after a click, the card that was next is the active card |
| StatCards.OneTopOneNext | src/components/Hero.tsx:317-318 | with two or more cards exactly one card is active and exactly one other card is next |
| StatCards.LoneCardIsTop | src/components/Hero.tsx:317-328 | a lone card is placed as the active card, because that test comes first |
| StatCards.StackingOrder | src/components/Hero.tsx:317-341 | the active card is drawn above every other card, and the next card above the cards further back |

## Left out

- `src/utils/fetchData.ts` is not part of this model. It is a network fetch with a cache-busting timestamp, parsed by the `papaparse` library inside a callback. The row is a parameter instead.
- All JSX rendering, icons and animation parameters (spring settings, the initial and exit poses, opacity), and the two-letter badge `key.substring(0, 2).toUpperCase()`. These are presentation only.
- React's `useState` and re-render mechanics: `activePage` is a plain field of `CardStack`. Its value is not reset when the card count changes between renders.
- `Object.keys` lists integer-like keys first, in numeric order. The model takes the row's column order as given.
- Full Unicode case folding: `toLowerCase` is modelled on ASCII letters only.
- `socialLinks.mail` is never read by the component. It is carried in `SocialLinks` and unused. A missing `socialLinks` record, or a missing field, is modelled as "".
- RowLookup.GetEntry: requires a non-empty candidate list. Every call site passes a literal non-empty list, and `keys[0]` would otherwise be `undefined`.
- StatCards.CardPose: the scale factors 1, 0.95 and 0.9 are modelled as the whole hundredths 100, 95 and 90.
- Publication counts are unbounded integers. The source's counts are JavaScript numbers.
