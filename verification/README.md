# go-scraper extraction core in Dafny

The scraper turns an event page of a race-results site into one
`Competition` record:

- the title, the description and an attendee count read from the text after a colon;
- one `Group` per row of the groups table. A row's first cell is the group title. Every later cell that holds a link names a `SubGroup`, whose results page is fetched and read row by row into `AttendeeResult` records.

This project models that extraction logic in `main.go`:

- `parseInt`, `parseAttendeesCount` and `extractContenderID`;
- the row mapper inside `extractSubGroups`;
- the group assembly loop of `extractGroups`.

It proves what these functions promise.

The HTML is abstracted to the cells the CSS selectors pick out. A `Cell` holds three things:

- the cell's full text;
- the text of its anchors;
- the `href` of its first anchor, when that attribute is present.

A table is a sequence of rows, and a row is a sequence of cells. Fetching a linked results page and selecting its table rows is an input function, `Fetch`. It maps the URL `https://dbsportas.lt/` + href to rows.

Files:

- `wrappers.dfy`: `Option`.
- `strings.dfy`: the parts of Go's `strings` package the scraper uses:
  - `TrimSpace` with the Unicode White_Space set;
  - `Trim(s, "\n")`;
  - `Index` and `Contains`.
- `ints.dfy`: the int32 range and Go's `int32(n)` narrowing, which keeps the low 32 bits.
- `strconv.dfy`: `strconv.Atoi`:
  - an optional sign and at least one digit;
  - a range error outside int64;
  - a reference grammar and value to judge it against;
  - `Itoa` as its inverse.
- `scraper.dfy`: the record types and the extraction functions.
- `scraper_properties.dfy`: round trips and end-to-end properties.

Two behaviours of `main.go` are easy to miss:

- A cell after the first adds a sub-group only when its anchor has an `href` (main.go:104). Cells without one are silently skipped.
- A link that contains "dal" but no "l/" is sliced from position 1 (main.go:94-95): `Index` returns -1, and -1 + 2 = 1. `FallbackNeverParses` proves that this suffix still holds the `a` of "dal", so this path also yields 0.

## Model

| member | source | states |
|---|---|---|
| Scraper.ParseInt | main.go:74-81 | The trimmed text is read as an int32 when it is an optionally signed decimal literal within the int64 range; the value is then narrowed modulo 2^32. Any other text gives 0. A literal within the int32 range gives exactly its value. |
| Strconv.Atoi | main.go:77 | Succeeds exactly when the text is an optional sign followed by one or more digits and its value lies in the int64 range; the result is then that value. |
| Strconv.ScanDigits | main.go:77 | Scanning digits with an overflow limit succeeds exactly when the whole string is digits whose value is within the limit, and yields that value. |
| Strconv.DigitsValuePrefix | main.go:77 | A prefix of a digit string never has a larger value, so overflow detected early is overflow of the whole. |
| Strconv.NotDecimalWith | main.go:77 | A character that is neither a digit nor a sign anywhere in the text makes it no decimal literal, so Atoi fails on it. |
| Strconv.FormatNatValue | main.go:77 | The digits produced for a natural number have that number as their value. |
| Strconv.FormatIntDecimal | main.go:77 | Rendering any integer gives a decimal literal whose value is that integer. |
| Strconv.AtoiFormatInt | main.go:77 | Atoi inverts the decimal rendering on the whole int64 range. |
| Ints.Wrap32 | main.go:78 | The narrowed value is congruent to the input modulo 2^32 and equals it inside the int32 range. |
| Ints.Wrap32Unique | main.go:78 | Only one int32 is congruent to a given integer modulo 2^32, so the narrowing is fully determined. |
| Strings.SkipForward | main.go:77 | Finds the end of the run of cut-set characters at the front: everything skipped is in the cut-set, and the scan stops at the end or at a character outside it. |
| Strings.SkipBackward | main.go:77 | The same from the back, never crossing the front position already found. |
| Strings.Trim | main.go:77 | The trimmed text is no longer than the input and neither starts nor ends with a cut-set character. |
| Strings.TrimShape | main.go:77 | The input is the trimmed text with a cut-set-only stretch before and after it. |
| Strings.TrimOfPadded | main.go:77 | Trimming a bare middle surrounded by cut-set padding gives that middle. |
| Strings.TrimIgnoresPadding | main.go:77 | Adding cut-set padding around any text does not change its trimmed form. |
| Strings.TrimIdempotent | main.go:86 | Trimming twice is the same as trimming once, as parseAttendeesCount's trim followed by parseInt's trim relies on. |
| Strings.TrimOfBare | main.go:119 | Text that neither starts nor ends with a cut-set character comes out of trimming unchanged. |
| Strings.TrimKeeps | main.go:77 | A character outside the cut-set survives trimming. |
| Strings.IndexFrom | main.go:85 | Returns the first occurrence at or after the start position, or -1 when there is none from there on. |
| Strings.Index | main.go:85 | -1 exactly when the substring does not occur; otherwise an occurrence with no earlier one. |
| Strings.Contains | main.go:93 | True exactly when the substring occurs somewhere. |
| Strings.AbsentLead | main.go:93 | A text lacking the first character of the substring does not contain it. |
| ScraperProperties.ParseIntIgnoresPadding | main.go:77 | White space around the text never changes the parsed number. |
| ScraperProperties.TrimSpaceFormatInt | main.go:77 | A decimal rendering has no white space to trim and reads back as its value. |
| ScraperProperties.ParseIntFormatInt | main.go:74-81 | Every int32 written in decimal parses back to itself. |
| ScraperProperties.ParseIntPaddedNumber | main.go:74-81 | The same holds with white space on either side. |
| ScraperProperties.ParseIntWraps | main.go:77-78 | A decimal literal of any int64 value parses to its 32-bit wrap, which is congruent to it modulo 2^32. |
| Scraper.ParseAttendeesCount | main.go:84-87 | Without a colon, the whole text is read as the count. |
| ScraperProperties.AttendeesAfterFirstColon | main.go:85-86 | With a colon, the count is the text after the first colon read as an integer, whatever follows. |
| ScraperProperties.AttendeesRoundTrip | main.go:84-87 | A colon-free caption, a colon and a space-padded int32 give back that int32. |
| ScraperProperties.AttendeesExampleColon | main.go:84-87 | "Attendees:   7" gives 7. |
| ScraperProperties.AttendeesExampleNoColon | main.go:84-87 | "No colon here" gives 0. |
| ScraperProperties.AttendeesExampleBareNumber | main.go:84-87 | "42" gives 42. |
| Scraper.ContenderId | main.go:90-98 | The ID is 0 when the cell has no link, when the link does not mention "dal", and when the link has no "l/". |
| Scraper.FallbackNeverParses | main.go:94-95 | For a link mentioning "dal", the suffix from position 1 never parses, so the slice from Index + 2 with Index = -1 yields 0. |
| ScraperProperties.ContenderIdAfterMarker | main.go:93-95 | For a link mentioning "dal", the ID is the parse of exactly the text after the first "l/". |
| ScraperProperties.ContenderIdWithoutMarker | main.go:94-95 | A link mentioning "dal" without any "l/" yields 0. |
| ScraperProperties.ContenderIdRoundTrip | main.go:90-98 | The ID written into a link "/dal/<id>" is the ID read back, for every int32. |
| Scraper.CellText | main.go:119 | A cell's stored text has no leading or trailing newline. A missing cell gives "". A cell whose text is already newline-bare is stored exactly as it is. |
| ScraperProperties.CellTextOfPadded | main.go:119 | A cell whose text is a newline-bare middle padded with newlines is stored as exactly that middle: only the surrounding newlines are removed. |
| Scraper.MapRow | main.go:110-121 | Cells 0-5 fill place, name, country, club, finish time and speed, in that order: a newline-bare cell text is stored as it is. Every text field is newline-bare. A row shorter than a field's position leaves that field "", and the ID 0. |
| Scraper.SkipHeader | main.go:108-109 | The first row is skipped and every later row is converted in order: n rows give max(0, n-1) items, item k coming from row k+1. |
| Scraper.Results | main.go:108-123 | A results table of n rows gives max(0, n-1) records, record k being the mapping of row k+1. |
| ScraperProperties.MapRowRenderRow | main.go:110-121 | Mapping is positional: a record laid out as six cells, its ID in a "/dal/" link in cell 1, maps back to exactly that record. |
| ScraperProperties.MapRowIgnoresExtraCells | main.go:111-119 | Cells after the sixth have no effect on the record. |
| ScraperProperties.MapRowIdFromNameCell | main.go:115-117 | The ID depends only on the link of cell 1. |
| ScraperProperties.MapRowIgnoresNewlines | main.go:119 | Newlines added around any cell's text never reach the record. |
| ScraperProperties.MapRowTextsIgnoreHref | main.go:110-121 | Whatever the links, rows that agree on the trimmed texts of cells 0-5 agree on every field except the ID. |
| ScraperProperties.MapRowSameCells | main.go:110-121 | Rows that agree on the newline-trimmed texts of cells 0-5 and on cell 1's link give the same record. |
| ScraperProperties.RenderedRowAt | main.go:108-109 | Behind a header row, rendered record k sits at row k+1. |
| ScraperProperties.ResultsRoundTrip | main.go:108-123 | A header row followed by rendered records reads back as exactly those records, in order. |
| Scraper.ExtractSubGroup | main.go:101-127 | A cell yields a sub-group exactly when its anchor has an href. The title never starts or ends with a newline, and equals the anchor text when that is already newline-bare. |
| Scraper.LinkedCells | main.go:151-157 | Keeps only the cells with a link; the cells it keeps all have links, and there are no more of them than cells. |
| Scraper.LinkedCellsConcat | main.go:151-157 | The linked cells of a concatenation are those of each part, in order. |
| Scraper.LinkedTailSnoc | main.go:151-157 | Appending a cell to a row of two or more cells appends it to the linked cells after cell 0 exactly when it has a link. |
| Scraper.GroupOf | main.go:150-158 | The title is cell 0's untrimmed text, or "" for a row without cells. There is one sub-group per linked cell after cell 0, in cell order: sub-group k is the one extracted from linked cell k. |
| Scraper.ExtractGroups | main.go:149-160 | One group per row of the groups table, group i being built from row i. |
| Scraper.ExtractCompetition | main.go:136-160 | The title and description are copied from the page, and the attendee count is parseAttendeesCount of the attendee line; without a colon, that is the whole line read as an integer. There is one group per row of the groups table, group i built from row i and titled by its first cell. |
| ScraperProperties.CompetitionAttendeesAfterColon | main.go:137-139 | When the attendee line is a colon-free caption, a colon and a rest, the competition's count is the rest read as an integer. |
| ScraperProperties.GroupOfAppendCell | main.go:151-157 | A further cell without a link leaves the group unchanged; one with a link appends exactly its sub-group. |
| ScraperProperties.ExtractGroupsConcat | main.go:149-160 | Splitting the groups table splits the groups in the same place, keeping order. |
| ScraperProperties.SubGroupOfRendered | main.go:101-126 | A linked cell whose anchor text is a title padded with newlines, whatever the cell's full text, and whose page holds a header and rendered records, yields a sub-group with that title and exactly those records. |
| ScraperProperties.SubGroupOfBareTitle | main.go:101-126 | The same for a cell whose text and anchor text are one newline-bare title. |
| ScraperProperties.GroupOfTwoLinks | main.go:150-158 | A row of a title cell and two linked cells gives that title and those two sub-groups, in cell order. |
| ScraperProperties.EndToEnd | main.go:136-160 | An event page with one group row of two linked sub-group cells, whose pages hold a header and rendered records, yields one group holding those two sub-groups with exactly those records. The IDs are the digits in each contender link. |

## Left out

- Fetching pages (`loadHTML`, main.go:54-72): HTTP, status checks and `log.Fatal` on failure. A fetched page is the input function `Fetch`, so a failed fetch is outside the model.
- HTML parsing and the goquery selectors (`#turinys`, `h2 + b`, `h4 + table:first-of-type`, `.tbl`, `tr`, `td`, `a`) and `.Text()`. The model starts from the texts and links those selectors yield.
- Several result tables matching `.tbl` on one page: their rows would be concatenated. `Fetch` already returns the concatenated rows.
- `mapstructure.Decode` (main.go:121): modelled only by its effect, which is named fields filled positionally. Cells after the sixth map to the key "", which matches no field.
- JSON marshalling, the `mux` router, the landing-page template, `writeJSON`'s URL construction and `main` (main.go:162-206). A sub-group with no result rows marshals as `null` rather than `[]`; the model does not distinguish nil from empty sequences.
- Strings are sequences of Unicode characters, whereas Go slices strings by byte. The only byte offset that is not at a match is the position-1 fallback in `extractContenderID`, and it yields 0 either way.
- Scraper.ParseAttendeesCount: its contract covers only the no-colon case. The colon case is stated by ScraperProperties.AttendeesAfterFirstColon, because a direct ensures would repeat the body.
- Scraper.ExtractSubGroup: its contract does not describe the results list, and ties the title to the anchor text only when that text is already newline-bare. ScraperProperties.SubGroupOfRendered states both for newline-padded titles and rendered result pages.
- Scraper.MapRow: its contract equates field j with cell j's text only when that text is already newline-bare. ScraperProperties.CellTextOfPadded and ScraperProperties.MapRowTextsIgnoreHref cover texts padded with newlines.
