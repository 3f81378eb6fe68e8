# Eldercare data extraction: a Dafny model

The repository runs two Node scripts. Each sends a PDF URL to a hosted
chat-completion API and turns the model's reply into JSON files for a static
site:

- `scripts/extract-pdf-data.js` runs daily. It takes the report on free places
  in Slovenian eldercare homes and writes a dated snapshot
  `src/data/<today>.json`. It also records today's totals in the series
  `src/data/chart.json`, with one entry per day kept sorted by date.
- `scripts/extract-pricing-data.js` takes the price list of every facility
  in `pricing-urls.json`. It writes each one to `src/data/pricing/<slug>.json`,
  where the slug is derived from the facility's name.

This project models the deterministic core of the two scripts and proves
properties of it.

- `Fences` models how the JSON text is chosen from a reply. The first match
  of `` /```(?:json)?\s*([\s\S]*?)```/ `` is taken and its group trimmed;
  without a match the whole reply is used. Lemmas relate this function to a
  backtracking matcher's view of the pattern: leftmost start, tag before no
  tag, greedy `\s*`, lazy group.
- `Replies` models how a reply becomes the extracted value in each script:
  - HTTP failure;
  - `response.json()`;
  - `choices?.[0]?.message?.content`;
  - the falsiness check;
  - fence selection and `JSON.parse`.

  The two scripts differ here. Only the pricing script checks `response.ok`.
  Only the pricing script accepts non-string content as the value. Only the
  daily script wraps a content `SyntaxError` in its own message.
- `Slugs` models `slugify`: lower case, NFD, deletion of U+0300..U+036F, each
  run outside `[a-z0-9]` collapsed to `-`, and edge hyphens trimmed.
  `SlugExamples` works one facility name through all the steps.
- `JsValues` models the JavaScript values the scripts handle:
  - JSON values and `undefined`;
  - property reads that throw on `undefined` and `null`;
  - optional chaining;
  - falsiness;
  - object spread.
- `Artifacts` models the `{ ...value, _metadata: { source, extractedAt, script } }`
  record both scripts write.
- `Chart` models the chart update. It has two parts:
  - Functional definitions: `IndexOfDate` is `findIndex`, `Upserted` is the
    replace-or-push, and `SortedByDate` is the stable sort by date.
  - The class `ChartStore`, whose methods change the array in place. They
    are proved to compute those definitions.
- `DailyRun` models the daily script's `main` over a data directory held as
  values (`Daily`), plus a class `DataDir` whose `Run` method changes the
  directory in place.
- `PricingRun` models the pricing script's loop. `Written` folds the URL
  outcomes into a map from file name to contents. The class `PricingDir` runs
  the loop in place.

Two behaviours of the code are easy to miss, and the model keeps both:

- The daily script never looks at the HTTP status. A failed request is parsed
  like any other body.
- Neither script puts the raw reply text in the error it throws:
  - the daily script prints the text on the error stream and throws only the
    parser's message behind a fixed prefix;
  - the pricing script rethrows the parser's error unchanged.

## Model

| member | source | states |
|---|---|---|
| JsValues.GetProperty | scripts/extract-pdf-data.js:102-103 | a property read throws exactly on `undefined` and `null`; it yields a value exactly when the target is an object holding the key, and then that field |
| JsValues.OptionalProperty | scripts/extract-pdf-data.js:53 | `x?.key` is `undefined` on `undefined`/`null`; on an object holding the key it is that field, and in every other case `undefined` |
| JsValues.OptionalIndex | scripts/extract-pdf-data.js:53 | `x?.[i]` is `undefined` on `undefined`/`null` and otherwise the plain read `x[i]`; on an array it is the element, or `undefined` past the end |
| JsValues.GetIndex | scripts/extract-pdf-data.js:53 | an index read throws exactly on `undefined`/`null`; on an array it is the element, or `undefined` past the end |
| JsValues.IndexedItems | scripts/extract-pdf-data.js:78 | spreading an array gives each element under its index numeral and no other key |
| JsValues.Spread | scripts/extract-pdf-data.js:77-78 | what `{...v}` copies: an object's fields, an array's elements and a string's characters under index numerals, nothing otherwise; its meaning is stated by `Artifacts.WithMetadata`, `ArrayAnswerIsIndexed` and `ScalarAnswerKeepsOnlyMetadata` |
| JsValues.DecimalInjective | scripts/extract-pricing-data.js:162 | distinct indices have distinct numerals, so spreading an array keeps every element under its own key |
| Fences.FindFence | scripts/extract-pricing-data.js:128 | a reported position holds three backticks at or after the start |
| Fences.FindFenceIsFirst | scripts/extract-pricing-data.js:128 | no fence starts before the reported one, and none at all when none is reported |
| Fences.FencedBlock | scripts/extract-pricing-data.js:128 | the group of the first match; `FencedBlockIsFirstMatch` proves it is the match a backtracking engine reports |
| Fences.SelectJsonText | scripts/extract-pricing-data.js:127-131 | without a match the content is parsed unchanged; with one, the text parsed has no white space at either end |
| Fences.SkipSpacesSpans | scripts/extract-pricing-data.js:128 | `\s*` passes over white space only, and `SkipSpaces` stops at the first non-space |
| Fences.Trim | scripts/extract-pricing-data.js:130 | the trimmed text neither starts nor ends with white space |
| Fences.TrimRemovesOnlyEdgeSpaces | scripts/extract-pricing-data.js:130 | `trim()` returns a slice of the text with only white space outside it |
| Fences.TrimIsUnique | scripts/extract-pricing-data.js:130 | any split into spaces, a core without edge spaces, and spaces gives that core as the trim |
| Fences.TrimSkipsLeadingSpaces | scripts/extract-pricing-data.js:128-130 | white space eaten by `\s*` makes no difference to the trimmed group |
| Fences.TrimOfTrimmed | scripts/extract-pricing-data.js:130 | trimming text without edge spaces changes nothing |
| Fences.FencedBlockIsFirstMatch | scripts/extract-pricing-data.js:128 | `FencedBlock` is None exactly when the pattern matches nowhere; otherwise it is the group of a match the engine prefers over every other match (leftmost, tag first, longest `\s*`, shortest group) |
| Fences.FencedIffFencePair | scripts/extract-pricing-data.js:127-131 | the fenced branch is taken exactly when two non-overlapping fences occur; otherwise the reply is parsed unchanged |
| Fences.SelectedBlockHasNoFence | scripts/extract-pricing-data.js:128-130 | the selected text contains no three backticks |
| Fences.SelectIsIdempotent | scripts/extract-pricing-data.js:127-131 | selecting from the selected text changes nothing |
| Fences.FindFenceAt | scripts/extract-pricing-data.js:128 | a fence with no backtick before it is the first fence |
| Fences.TagEndAfter | scripts/extract-pricing-data.js:128 | the optional `json` tag is taken exactly when it is there |
| Fences.SelectBody | scripts/extract-pricing-data.js:127-131 | a body without backticks closed by a fence selects as the trimmed body |
| Fences.SelectFromFencedBlock | scripts/extract-pricing-data.js:127-131 | for a preamble, a fence with an optional `json` tag, a body, a closing fence and any trailer, the text parsed is the trimmed body |
| Fences.SelectExample | scripts/extract-pricing-data.js:127-131 | a reply with a preamble and a `json` fence around `{"a":1}` yields exactly `{"a":1}` |
| Replies.ReplyContent | scripts/extract-pricing-data.js:117 | reading `choices?.[0]?.message?.content` throws exactly when the body parsed to `null`; it finds a value exactly when the body holds one at `choices[0].message.content`, and then that value |
| Replies.ReplyContentOfReply | scripts/extract-pricing-data.js:117 | a reply of the expected shape yields its content |
| Replies.ExtractPricing | scripts/extract-pricing-data.js:111-137 | a failed HTTP status throws with the status and body; otherwise an unparsable body throws its SyntaxError, a null body a TypeError and falsy content `NoContent`; string content yields the parse of its selected text, a failure rethrown with the parser's message; any other content is the value itself; no value arises otherwise |
| Replies.ExtractDaily | scripts/extract-pdf-data.js:51-70 | the HTTP status never causes an error; an unparsable body throws its SyntaxError, a null body or non-string content a TypeError, falsy content `NoContent`; non-empty string content yields the parse of its selected text, and a parse failure throws the fixed prefix followed by the parser's message |
| Replies.ContentParse | scripts/extract-pdf-data.js:65-69 | the content parse succeeds exactly when JSON.parse of the selected text does, with its value; a failure carries the given prefix followed by the parser's message |
| JsValues.IsFalsy | scripts/extract-pricing-data.js:119 | `!content` holds of `undefined`, `null`, `false`, `0` and `""`; `ExtractPricing` and `ExtractDaily` state that exactly these throw `NoContent` |
| Replies.ExtractorsAgree | scripts/extract-pdf-data.js:51-70 | on a successful response, whenever the daily extraction yields a value the pricing one yields the same; the two fail alike except on `SyntaxError` wording |
| Replies.StructuredContent | scripts/extract-pricing-data.js:124-135 | truthy non-string content is the pricing script's value unparsed, and a `TypeError` in the daily script |
| Replies.FencedReplyIsParsed | scripts/extract-pricing-data.js:127-132 | a fenced reply is parsed from its trimmed body by both scripts |
| Slugs.Accent | scripts/extract-pricing-data.js:143 | a letter that NFD decomposes is a lower-case Latin letter from U+00E0..U+017E whose base is in `a-z` and whose mark is in U+0300..U+036F |
| Slugs.Decompose | scripts/extract-pricing-data.js:143 | NFD leaves a character alone or splits it into a base `a-z` and one combining mark |
| Slugs.LowerCase | scripts/extract-pricing-data.js:142 | `toLowerCase` character by character; `FoldedOfConcat` shows it works on each character alone |
| Slugs.Nfd | scripts/extract-pricing-data.js:143 | `normalize("NFD")` as each character's `Decompose`, concatenated |
| Slugs.StripMarks | scripts/extract-pricing-data.js:144 | deletes U+0300..U+036F; `MarksAreDeleted` shows a mark vanishes from the slug |
| Slugs.CollapseSeparators | scripts/extract-pricing-data.js:145 | the result uses only `[a-z0-9-]` and has no two adjacent hyphens; `SeparatorRunIsOneHyphen` states where each hyphen goes |
| Slugs.CollapseFrom | scripts/extract-pricing-data.js:145 | the collapsed text uses only `[a-z0-9-]` and has no two adjacent hyphens; it starts with `-` exactly when the input starts with a non-alphanumeric; `CollapseOfPrefix` and `CollapseOfSuffix` show it depends only on the text from `from` on, run by run |
| Slugs.CollapseOfSuffix | scripts/extract-pricing-data.js:145 | collapsing from a position depends only on the text after it |
| Slugs.CollapseOfPrefix | scripts/extract-pricing-data.js:145 | a text ending in a letter or digit collapses on its own, followed by the collapse of what comes after it |
| Slugs.SeparatorRunIsOneHyphen | scripts/extract-pricing-data.js:145 | a maximal run of characters outside `[a-z0-9]` becomes exactly one hyphen, in its place, with the text on each side collapsed on its own |
| Slugs.WordCollapses | scripts/extract-pricing-data.js:145 | a run of letters and digits is kept unchanged |
| Slugs.TrimHyphens | scripts/extract-pricing-data.js:146 | the result is a slice of its input with hyphens only outside it, has no edge hyphen, and keeps the alphabet and the no-double-hyphen property |
| Slugs.Slugify | scripts/extract-pricing-data.js:140-147 | every slug uses only `a-z`, `0-9` and `-`, never starts or ends with `-`, and never holds `--`; `SlugOfSpacedWords` and `SlugExample` give the slug of concrete names |
| Slugs.SlugOfSpacedWords | scripts/extract-pricing-data.js:140-147 | three words separated by single spaces, each folding to letters and digits, give the folded words joined by single hyphens |
| Slugs.CollapseOfSpacedWords | scripts/extract-pricing-data.js:145 | single spaces between words become single hyphens |
| Slugs.HyphenatedWordsAreSlug | scripts/extract-pricing-data.js:146 | words joined by hyphens have no edge hyphen to trim |
| Slugs.TrimKeepsSlug | scripts/extract-pricing-data.js:146 | trimming leaves a slug unchanged |
| Slugs.CapitalisedWordFolds | scripts/extract-pricing-data.js:142-144 | a capital followed by letters and digits folds to its lower case followed by the same letters and digits |
| SlugExamples.SlugExample | scripts/extract-pricing-data.js:140-147 | `slugify("Dom Starej\u0161ih Maribor")` is `"dom-starejsih-maribor"` |
| SlugExamples.CaronFolds | scripts/extract-pricing-data.js:142-144 | `Starej\u0161ih` folds to `starejsih` |
| Slugs.SlugKeepsLettersAndDigits | scripts/extract-pricing-data.js:145-146 | the letters and digits of the slug are those of the folded name, in order |
| Slugs.SlugIsFixpoint | scripts/extract-pricing-data.js:140-147 | a slug is its own slug |
| Slugs.SlugifyIsIdempotent | scripts/extract-pricing-data.js:140-147 | `slugify(slugify(s)) == slugify(s)` |
| Slugs.FoldedOfConcat | scripts/extract-pricing-data.js:142-144 | lower-casing, NFD and mark deletion work character by character |
| Slugs.MarksAreDeleted | scripts/extract-pricing-data.js:144 | a combining mark in U+0300..U+036F is deleted rather than turned into a hyphen |
| Slugs.AccentedLetterFoldsToBase | scripts/extract-pricing-data.js:143-144 | a decomposable letter contributes exactly its base letter, so `š` gives `s` |
| Artifacts.WithMetadata | scripts/extract-pricing-data.js:161-168 | the output holds every key the spread copies plus `_metadata`, which is `{source, extractedAt, script}`, and every other key keeps its value |
| Artifacts.MetadataRoundTrip | scripts/extract-pdf-data.js:77-84 | removing `_metadata` from the written object gives back the extracted object when it had no `_metadata` of its own |
| Artifacts.RestampReplaces | scripts/extract-pdf-data.js:77-84 | stamping an already stamped object replaces the old record |
| Artifacts.ArrayAnswerIsIndexed | scripts/extract-pdf-data.js:78 | an array answer is written with its elements under their index numerals |
| Artifacts.ScalarAnswerKeepsOnlyMetadata | scripts/extract-pdf-data.js:78 | a null, boolean or numeric answer leaves only the record |
| Chart.DateLeTotal | scripts/extract-pdf-data.js:113 | any two dates are ordered one way or the other |
| Chart.DateLeTransitive | scripts/extract-pdf-data.js:113 | the date order is transitive |
| Chart.DateLeAntisymmetric | scripts/extract-pdf-data.js:113 | dates ordered both ways are equal |
| Chart.IndexOfDate | scripts/extract-pdf-data.js:99 | `findIndex` gives the first position holding the date, or -1 exactly when no entry holds it |
| Chart.Upserted | scripts/extract-pdf-data.js:106-110 | the entry replaces the first entry of its date with the length unchanged, or is appended; every other position is unchanged |
| Chart.SortedByDate | scripts/extract-pdf-data.js:113 | the stable sort by date keeps the length; `SortIsSortedPermutation` and `SortOfSorted` state what it computes |
| Chart.Updated | scripts/extract-pdf-data.js:99-113 | the chart after today's entry: `UpdatedEntries`, `UpdatedIsSortedPermutation` and `UpdatedKeepsDatesUnique` state what it holds |
| Chart.InsertIsPermutation | scripts/extract-pdf-data.js:113 | one insertion step adds exactly the inserted entry |
| Chart.InsertKeepsSorted | scripts/extract-pdf-data.js:113 | inserting into a sorted chart keeps it sorted |
| Chart.SortIsSortedPermutation | scripts/extract-pdf-data.js:113 | the sorted chart is in date order and a permutation of the input |
| Chart.SortOfSorted | scripts/extract-pdf-data.js:113 | sorting an already sorted chart changes nothing |
| Chart.SortedUniqueIsDetermined | scripts/extract-pdf-data.js:113 | two sorted charts with one entry per date that hold the same entries are equal |
| Chart.UpdatedEntries | scripts/extract-pdf-data.js:99-113 | after the update the chart holds today's entry and every old entry of another date, and nothing else |
| Chart.UpdatedKeepsDatesUnique | scripts/extract-pdf-data.js:99-113 | a chart with one entry per date keeps one entry per date, and holds the new entry, so today has exactly one |
| Chart.UpdatedIsSortedPermutation | scripts/extract-pdf-data.js:106-113 | the updated chart is sorted, and its entries are the old ones with the first entry of today's date, if any, exchanged for the new entry |
| Chart.UpdatedLength | scripts/extract-pdf-data.js:106-110 | the chart grows by one when today was missing, and otherwise keeps its length |
| Chart.RerunIsIdempotent | scripts/extract-pdf-data.js:99-113 | recording the same entry twice leaves the chart as recording it once |
| Chart.RerunOverwrites | scripts/extract-pdf-data.js:99-113 | a second entry for the same day replaces the first, as if only the second run had happened |
| Chart.ChartStore.constructor | scripts/extract-pdf-data.js:93-96 | the store holds the chart that was read |
| Chart.ChartStore.FindIndex | scripts/extract-pdf-data.js:99 | the loop returns `IndexOfDate` of the current entries |
| Chart.ChartStore.Set | scripts/extract-pdf-data.js:107 | `chartData[i] = e` changes that position only |
| Chart.ChartStore.Push | scripts/extract-pdf-data.js:109 | `push` appends the entry |
| Chart.ChartStore.InsertNext | scripts/extract-pdf-data.js:113 | shifting the `i`-th entry back past later dates is one insertion step, and the rest is untouched |
| Chart.ChartStore.SortByDate | scripts/extract-pdf-data.js:113 | the in-place sort leaves `SortedByDate` of the old entries |
| Chart.ChartStore.Update | scripts/extract-pdf-data.js:99-113 | find, replace or push, then sort leaves `Updated` of the old chart |
| DailyRun.AllApplications | scripts/extract-pdf-data.js:102-103 | the chained read throws exactly when `data` is not an object holding a non-null `grandTotals`; it yields a value exactly when `data.grandTotals.allApplications` exists, and then that field |
| DailyRun.DatedFile | scripts/extract-pdf-data.js:87 | the snapshot's name `<today>.json`, read by `Daily` |
| DailyRun.TodayEntry | scripts/extract-pdf-data.js:100-104 | the entry is dated today, and exists exactly when `allApplications` can be read and is neither `undefined` nor `null` |
| DailyRun.TodayEntryOfReport | scripts/extract-pdf-data.js:100-104 | the entry takes `freeSpots` and `active` of `allApplications`, `undefined` when missing |
| DailyRun.Daily | scripts/extract-pdf-data.js:73-123 | the exit code is 0 or 1; code 0 exactly when extraction and the entry succeed; a failed extraction changes nothing; a successful one writes `<today>.json` with the metadata; code 1 leaves the chart unchanged; after code 0 the chart is the old chart updated with today's entry |
| DailyRun.SuccessfulRunRecordsToday | scripts/extract-pdf-data.js:99-115 | after exit code 0 the chart is sorted, has one entry per date and has an entry for today |
| DailyRun.RunKeepsDatesUnique | scripts/extract-pdf-data.js:99-115 | every run keeps the chart at one entry per date |
| DailyRun.RerunSameDay | scripts/extract-pdf-data.js:86-115 | running twice on one day with the same reply leaves what one run with the later timestamp leaves |
| DailyRun.DataDir.constructor | scripts/extract-pdf-data.js:86-96 | the directory holds the files and the chart that were read |
| DailyRun.DataDir.Run | scripts/extract-pdf-data.js:74-122 | the in-place run leaves the state and exit code `Daily` gives |
| PricingRun.FacilityName | scripts/extract-pricing-data.js:171 | `pricing.name` can be lower-cased exactly when the value is an object whose `name` is a string |
| PricingRun.FileName | scripts/extract-pricing-data.js:171 | the file name is a slug followed by `.json` |
| PricingRun.Outcome | scripts/extract-pricing-data.js:159-176 | a URL writes a file exactly when its extraction succeeds with a string `name`; the file is `<slug of name>.json` and holds the extracted value spread with `_metadata` for this URL; an extraction error is the URL's error |
| PricingRun.Apply | scripts/extract-pricing-data.js:157-178 | no file disappears, and every new file is the write of some outcome |
| PricingRun.Written | scripts/extract-pricing-data.js:157-178 | the directory after the loop; `WrittenConcat`, `FailedJobIsSkipped`, `UnwrittenFileIsKept`, `LastWriteWins` and `AddedFilesComeFromJobs` state what it holds |
| PricingRun.AddedFilesComeFromJobs | scripts/extract-pricing-data.js:157-178 | every file the loop adds is the output of one URL and is named `<slug>.json` |
| PricingRun.WrittenConcat | scripts/extract-pricing-data.js:157-178 | processing a list of URLs is processing its first part and then the rest |
| PricingRun.FailedJobIsSkipped | scripts/extract-pricing-data.js:175-177 | a failing URL leaves the directory as if it were not listed, and later URLs are still processed |
| PricingRun.UnwrittenFileIsKept | scripts/extract-pricing-data.js:157-178 | a file no URL writes keeps its contents |
| PricingRun.LastWriteWins | scripts/extract-pricing-data.js:171-173 | a slug's file holds the output of the last URL that produced the slug, stamped with that URL |
| PricingRun.PricingDir.constructor | scripts/extract-pricing-data.js:153-155 | the directory starts with the files already there |
| PricingRun.PricingDir.Save | scripts/extract-pricing-data.js:159-176 | one iteration writes exactly the URL's `Outcome` and leaves the directory unchanged on an error |
| PricingRun.PricingDir.Run | scripts/extract-pricing-data.js:157-178 | the in-place loop leaves `Written` of the old directory |

## Left out

- The HTTP request and its headers, the request body, the prompts and the
  schema constant are not modelled. Each call's `Response` is a parameter.
- Environment checks, `process.exit`, console output and `mkdirSync` are not
  modelled. The exit code is a result of `Daily`.
- Files are not modelled. The file system is a map from name to contents,
  and an absent `chart.json` is an empty chart.
- A `chart.json` that does not parse, or whose entries have no string
  `date`, is not modelled.
- The clock is not modelled. `toISOString()` and
  `toLocaleDateString("en-CA")` are string parameters.
- `JSON.parse` is a total function parameter: a value, or the message of its
  `SyntaxError`. Its grammar, number rounding and `JSON.stringify`
  formatting and key order are not modelled.
- `toLowerCase` and `normalize("NFD")` are tabulated for U+0000..U+017F
  only: ASCII, Latin-1 and Latin Extended-A. This covers Slovenian names.
  Other characters are taken as their own lower case and decomposition.
  Canonical reordering of several combining marks is not modelled.
- `localeCompare` is the order of character codes. It agrees with the locale
  order on `YYYY-MM-DD` dates, which are the only dates the script stores.
- Chart.RerunIsIdempotent, Chart.RerunOverwrites and
  DailyRun.RerunSameDay assume the chart holds one entry per date. Every run
  keeps this, as DailyRun.RunKeepsDatesUnique shows. With duplicate dates,
  only the first entry of the date is replaced.
- Chart.ChartStore.SortByDate: the engine's sort is modelled as a stable
  insertion sort. Every stable sort gives the same order, which
  Chart.SortedUniqueIsDetermined shows for charts with unique dates.
- Replies.ExtractDaily does not state that the raw reply is printed to the
  error stream, since console output is not modelled.
- A name without letters or digits gives the file name `.json`. The model
  keeps this, since `FileName` has no further requirement.
