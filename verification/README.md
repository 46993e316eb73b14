# Texas festival and venue directory — a verified model of its data layer

The site is a static directory of Texas songwriter festivals and music venues. Its browser
code fetches two JSON files and turns them into what the pages show. This project models
that layer in Dafny and proves what it guarantees:

- the two `slugify` variants that make page identifiers out of names;
- date parsing and the date-range label;
- flattening festivals into per-season records (`expandInstances`);
- the slug-keyed festival table and its description fallbacks (`buildFestivalMap`);
- the dated-first ordering of seasons (`summarizeInstances`);
- the "is it still upcoming" test and the placeholder-URL screen;
- the directory page's filter, calendar index and month selection;
- the festival detail page's address resolution, default season, season switch and notices;
- the venue directory's typing, filtering and option lists;
- the venue detail page's slug table and lookup.

Calendar days are `Calendar.Day(year, month, day)` triples with Gregorian month lengths and
an explicit successor. They stand in for JavaScript `Date` values at local midnight, and
`Calendar.Instant` stands for "now". The clock, the address bar, `fetch` and the DOM become
parameters:

- `now: Instant`;
- `hash`/`slugParam`;
- the decoded JSON as `seq<Festival>`/`seq<Venue>`;
- `hasHero`/`hasMonthSelect` for the presence of the elements the handlers test.

Pure code (`assets/js/data.js`, the predicates inside the handlers) is modelled as
functions with lemmas. The page `state` objects are classes whose methods update their
fields as the handlers do:

- `ListPage.ListPageState`;
- `DetailPage.DetailPageState`;
- `Venues.VenuesPageState`;
- `VenueDetail.VenueDetailState`.

The day-by-day calendar walk and the `map.set` loops are methods with loop invariants. Each
is proved against a specification function (`CalendarIndex.Indexes`,
`Festivals.FestivalMapOf`, `VenueDetail.VenueMapOf`).

Modules, in dependency order:

- `Wrappers`;
- `Text` (JavaScript string operations);
- `Calendar`;
- `Labels` (parseDate, formatDate, formatDateRange, isUpcoming);
- `Slug`;
- `Links` (isMeaningfulUrl);
- `Sorting` (filter, stable sort);
- `Keyed` (keyed tables and de-duplication);
- `Festivals`;
- `CalendarIndex`;
- `ListPage`;
- `Routing` (resolveSlug);
- `DetailPage`;
- `Venues`;
- `VenueDetail`.

## Model

| member | source | states |
|---|---|---|
| Text.Trim | assets/js/data.js:32 | `String.prototype.trim`: the result has no JavaScript white space at either end; it is empty exactly when the input is all white space; an already trimmed string is unchanged. |
| Text.TrimPadding | assets/js/data.js:179 | White space added on either side does not change what `trim` returns. |
| Text.RemoveFirst | public/assets/js/detail-page.js:37 | `replace("#", "")` removes only the first `#`: the result is the text before the first `#` followed by the text after it, and without a `#` the string is unchanged. |
| Text.ContainsInfix | public/assets/js/list-page.js:133-137 | `includes` finds a text wherever it occurs in the haystack. |
| Text.ToUpper | assets/js/data.js:184 | `toUpperCase` maps each code point in place and keeps the length. |
| Text.PadStart | public/assets/js/list-page.js:476 | `padStart(width, c)` keeps the text as a suffix, fills the front with `c` only, and reaches exactly `max(length, width)`. |
| Text.DecimalValue | public/assets/js/list-page.js:132 | `String(year)` is a decimal numeral whose value is the year. |
| Text.DecimalInjective | public/assets/js/list-page.js:132 | Different years give different `String(year)` texts, so the year filter selects exactly one year. |
| Text.DecimalOfDigits | public/assets/js/list-page.js:476 | A digit string without a leading zero is the decimal numeral of its value, so printing a parsed date field gives back its digits. |
| Text.StrLeTotalOrder | assets/js/data.js:150 | The string comparison that orders years and options is reflexive, total, transitive and antisymmetric. |
| Text.Utf16Length | assets/js/data.js:140 | JavaScript `.length` counts UTF-16 code units: never fewer than the code points. |
| Calendar.DaysInMonth | public/assets/js/list-page.js:282 | Months have 28 to 31 days, and 29 exactly for February of a leap year. |
| Calendar.DayLeTotalOrder | assets/js/data.js:149 | Day order, the order of the start timestamps, is a total order. |
| Calendar.NextDay | public/assets/js/list-page.js:282 | `cursor.setDate(getDate() + 1)` gives a valid day strictly after the cursor, with no valid day in between. |
| Calendar.ParseFullDate | assets/js/data.js:43 | A `YYYY-MM-DD` full date of RFC 3339 section 5.6 denotes a valid calendar day. |
| Calendar.IsoRoundTrip | public/assets/js/list-page.js:475-477 | `toISODate` writes a full date that parses back to the same day (four-digit years). |
| Calendar.IsoRoundTripString | public/assets/js/list-page.js:475-477 | A stored full date, once parsed, is written back by `toISODate` as the same text. |
| Calendar.ToISODateInjective | public/assets/js/list-page.js:262 | Different days get different `dateKey`s, so keying the calendar by day is keying it by `toISODate`. |
| Calendar.Pad2Value | public/assets/js/list-page.js:476 | Two-digit zero padding of a month or day is two digits carrying the same value. |
| Calendar.MonthOf | public/assets/js/list-page.js:263-270 | A day's month key has a zero-based month index below 12. |
| Calendar.MonthLeTotalOrder | public/assets/js/list-page.js:286-292 | Year-then-month order of month keys is a total order. |
| Calendar.MonthAbbrev | assets/js/data.js:5-9 | The short month names are three letters. |
| Calendar.MonthAbbrevInverse | assets/js/data.js:5-9 | A short month name identifies its month. |
| Calendar.FormatDay | assets/js/data.js:5-9 | The en-US "Mon D, YYYY" text of a day is ASCII and at least eight characters. |
| Calendar.FormatDayParts | assets/js/data.js:5-9 | A formatted day begins with its month name, and the rest after the space is the day, a comma and the year. |
| Calendar.FormatDayInjective | assets/js/data.js:5-9 | Different days are formatted differently. |
| Calendar.StripTime | assets/js/data.js:166-168 | `stripTime` gives the latest local midnight not after the given instant. |
| Calendar.MidnightNotBeforeStripped | assets/js/data.js:156 | A day's midnight is at or after `stripTime(now)` exactly when the day is today or later. |
| Labels.ParseDate | assets/js/data.js:38-44 | `parseDate` is null exactly for an empty or `"TBD"` value; otherwise it is a valid day. |
| Labels.ParseDateIso | assets/js/data.js:38-44 | A parsed full date is the day whose ISO text is that date. |
| Labels.FormatDate | assets/js/data.js:46-49 | `formatDate` returns `"TBD"` exactly when `parseDate` returns null. |
| Labels.ShapeOfLabel | assets/js/data.js:51-75 | The label's shape follows the five cases: "Dates TBD" with no bounds, "Starts …" with a start only, "Ends …" with an end only, one day for equal days, two days with an en dash otherwise. |
| Labels.RangeLabelInjective | assets/js/data.js:51-75 | Different (start, end) pairs get different labels, so the label loses no information. |
| Labels.BothTbd | assets/js/data.js:55-57 | Two `"TBD"` bounds give "Dates TBD". |
| Labels.UpcomingByDay | assets/js/data.js:154-164 | `isUpcoming` holds exactly when the start is today or later, or, without a start, the end is. |
| Labels.FormatCity | assets/js/data.js:170-172 | `formatCity` is never empty: a non-empty city is kept as it is, and an absent, `null` or empty city reads "Texas". |
| Slug.ReplaceAmp | assets/js/data.js:33 | After `replace(/&/g, "and")` no `&` is left, and text without `&` is unchanged. |
| Slug.Collapse | assets/js/data.js:34 | `replace(/[^a-z0-9]+/g, "-")` leaves only `[a-z0-9-]` with no `--`; it keeps a leading identifier character and makes a leading separator run a hyphen. |
| Slug.TrimHyphens | assets/js/data.js:35 | Stripping edge hyphens from collapsed text yields a slug. |
| Slug.Slugify | assets/js/data.js:25-36 | The result is a slug: only `a-z`, `0-9` and `-`, no edge hyphen, no `--`. A missing or empty name gives `""`. |
| Slug.SlugifyPlain | public/assets/js/venues-page.js:21-26 | The venue pages' variant gives a slug too, and `""` for an empty name. |
| Slug.SeparatorSlug | assets/js/data.js:34 | Two words joined by any non-identifier character become `word-word`, in both variants (except `&` in the festival one). |
| Slug.AmpersandSlug | assets/js/data.js:33-34 | `"a & b"` becomes `"a-and-b"`. |
| Slug.NonAsciiLetterSeparates | assets/js/data.js:31-34 | A non-ASCII letter such as "é" is not folded: it separates words like punctuation. |
| Slug.LowerUpperWord | assets/js/data.js:31 | `toLowerCase` undoes the upper-casing of an `[a-z0-9]` word. |
| Slug.UpperAmpersandSlug | assets/js/data.js:25-36 | Upper case is folded and trailing punctuation dropped: `"A & B!!"` becomes `"a-and-b"`. |
| Slug.AmpersandPunctuationCollapse | assets/js/data.js:34 | Each separator run, trailing punctuation included, becomes one hyphen. |
| Slug.TrimTrailingHyphen | assets/js/data.js:35 | The trailing hyphen left by final punctuation is stripped. |
| Slug.SlugFixedPoint | assets/js/data.js:30-35 | A slug is returned unchanged by both variants. |
| Slug.SlugifyIdempotent | assets/js/data.js:30-35 | Slugifying twice is slugifying once, in both variants. |
| Slug.VenueAmpersandExample | public/assets/js/venues-page.js:21-26 | The venue variant does not expand `&`: `"R&B"` becomes `"r-b"`. |
| Links.BlankNotMeaningful | assets/js/data.js:174-182 | Empty or all-white-space URLs are not meaningful. |
| Links.PaddingIgnored | assets/js/data.js:179 | Surrounding white space does not change the verdict. |
| Links.PlaceholderRejected | assets/js/data.js:184-187 | A URL whose trimmed upper-case form is TBD, TBA or COMING SOON is rejected, whatever the URL parser would say. |
| Links.LowerCasePlaceholder | assets/js/data.js:184-187 | `"tbd"` is rejected: the comparison ignores case. |
| Links.MixedCasePlaceholder | assets/js/data.js:184-187 | `"Coming soon"` is rejected. |
| Sorting.Filter | public/assets/js/list-page.js:131 | `Array.prototype.filter` keeps exactly the elements that pass, and no others. |
| Sorting.FilterPartition | assets/js/data.js:145-146 | The dated and undated filters split the records: together they are a permutation of the input. |
| Sorting.FilterMonotone | public/assets/js/list-page.js:131-153 | Filtering by a stronger predicate equals filtering the weaker result again, so it is an order-preserving subsequence of it. |
| Sorting.SortBy | assets/js/data.js:149-150 | The stable sort returns a permutation of its input. |
| Sorting.SortBySorted | assets/js/data.js:149-150 | Under a total preorder the sorted output is ordered. |
| Sorting.SortByStable | assets/js/data.js:149 | The sort is stable: records with equal keys keep their input order. |
| Sorting.PermutationDistinct | public/assets/js/venues-page.js:97 | Sorting distinct values keeps them distinct. |
| Keyed.IndexByKeys | assets/js/data.js:114-121 | The keys of a table built by `map.set` are exactly the keys of the kept items. |
| Keyed.IndexByLastWins | assets/js/data.js:121-122 | When items share a key, the later item's value is the one kept. |
| Keyed.IndexBySnoc | assets/js/data.js:122 | One more item adds or overwrites exactly its own key. |
| Keyed.DedupKeys | public/assets/js/list-page.js:277-280 | "Push unless present" keeps every key that occurs. |
| Keyed.DedupDistinct | public/assets/js/list-page.js:277-280 | After "push unless present" no two entries share a key. |
| Keyed.DedupFirstOccurrences | public/assets/js/list-page.js:277-280 | Each kept entry is the first occurrence of its key, in first-occurrence order. |
| Festivals.FirstNonEmpty | assets/js/data.js:85 | An `a \|\| b \|\| ""` chain is `""` exactly when all parts are empty; otherwise it is the first non-empty part. |
| Festivals.FirstNonEmptyNested | assets/js/data.js:94-95 | Nested fallbacks flatten: `a \|\| (b \|\| c)` and `(a \|\| b) \|\| c` are the chain `a, b, c`. |
| Festivals.ExpandInstanceFields | assets/js/data.js:88-108 | Each record has the festival's slug and name and the season's year. Its parsed bounds are the parsed dates. `hasExactDates` holds exactly when both parse. The label is `formatDateRange`. The descriptions follow their two fallback chains. |
| Festivals.ExpandSeasons | assets/js/data.js:87-110 | One record per season, in season order. |
| Festivals.ExpandFestival | assets/js/data.js:78-87 | A festival without a name contributes nothing; a named one contributes one record per season. |
| Festivals.ExpandCount | assets/js/data.js:77-112 | The number of records is the total season count of named festivals. |
| Festivals.ExpandAppend | assets/js/data.js:78 | Expansion distributes over concatenation, so output order is festival then season. |
| Festivals.ExpandedOrigin | assets/js/data.js:77-112 | Every record is the expansion of some season of some named festival. |
| Festivals.ExpandedSlugs | assets/js/data.js:84-93 | Every record's slug is `slugify` of its festival's name. |
| Festivals.MapSeason | assets/js/data.js:126-131 | A table season keeps the season and adds its parsed bounds and its range label. |
| Festivals.MapSeasons | assets/js/data.js:126-131 | Seasons are mapped one to one, in order. |
| Festivals.Descriptions | assets/js/data.js:138-139 | The season descriptions, in order. |
| Festivals.RichestIsFirstLongest | assets/js/data.js:137-142 | The derived description is the first among the longest descriptions in UTF-16 length, or `""` without seasons. |
| Festivals.Entry | assets/js/data.js:121-132 | A table entry has the slug, name and summary. Its description falls back summary → description → richest season description → `""`. Its seasons are the input seasons in order, each with its parsed bounds and range label. |
| Festivals.BuildFestivalMap | assets/js/data.js:114-135 | The reduce loop builds exactly the specified slug table. |
| Festivals.FestivalMapKeys | assets/js/data.js:114-121 | The table's keys are exactly the slugs of the named festivals. |
| Festivals.FestivalMapLastWins | assets/js/data.js:121-122 | A later festival with an equal slug replaces an earlier one. |
| Festivals.OptDayLeTotalPreorder | assets/js/data.js:149 | Comparing starts is a total preorder. |
| Festivals.StrLeTotalPreorder | assets/js/data.js:150 | Comparing `String(year)` texts is a total preorder. |
| Festivals.DatedByStart | assets/js/data.js:145-149 | The dated part is a permutation of the records with a start, ordered by start. |
| Festivals.UndatedByYear | assets/js/data.js:146-150 | The undated part is a permutation of the records without a start, ordered by year text. |
| Festivals.SummarizePermutation | assets/js/data.js:144-152 | `summarizeInstances` returns a permutation of its input. |
| Festivals.SummarizeOrdered | assets/js/data.js:144-152 | Dated records come first, ordered by start; undated records follow, ordered by year text. |
| Festivals.SummarizeStable | assets/js/data.js:149 | Records with the same start keep their input order. |
| Festivals.DatedThenUndated | assets/js/data.js:148-151 | Joining the start-ordered dated list and the year-ordered undated list keeps both orders, with every dated record first. |
| CalendarIndex.ExpandedDatesValid | assets/js/data.js:88-89 | Every expanded record's parsed bounds are valid days. |
| CalendarIndex.NoBoundsNoDays | public/assets/js/list-page.js:247-249 | A record with neither bound is placed under no day. |
| CalendarIndex.SingleBoundOneDay | public/assets/js/list-page.js:251-261 | A record with one bound is placed under exactly that day. |
| CalendarIndex.BothBoundsRange | public/assets/js/list-page.js:251-283 | A record with both bounds is placed under exactly the days from start to end inclusive. |
| CalendarIndex.InvertedNoDays | public/assets/js/list-page.js:261 | A start after the end places the record under no day. |
| CalendarIndex.BucketSnoc | public/assets/js/list-page.js:273-280 | One more record changes a day's list only if it covers the day, and then by "push unless (slug, year) present". |
| CalendarIndex.BucketNonEmpty | public/assets/js/list-page.js:273-275 | A day's list is non-empty exactly when some record covers the day. |
| CalendarIndex.BucketContents | public/assets/js/list-page.js:277-280 | A day's list holds only records covering the day. Every covering record's (slug, year) appears in it, and no (slug, year) twice. |
| CalendarIndex.WalkStep | public/assets/js/list-page.js:261-283 | Advancing the cursor adds exactly the current day to the walked days. |
| CalendarIndex.SpanSnoc | public/assets/js/list-page.js:246-284 | The days, lists and months of `xs + [x]` are those of `xs` extended by what `x` covers. |
| CalendarIndex.RecordMonth | public/assets/js/list-page.js:263-271 | Registering the cursor's month keeps the months list exactly the touched months, without repeats. |
| CalendarIndex.RecordDay | public/assets/js/list-page.js:273-280 | Registering the record under the cursor's day keeps every day's list equal to its specified bucket. |
| CalendarIndex.WalkSpan | public/assets/js/list-page.js:258-283 | The `while (cursor <= last)` walk registers the record under exactly the days it covers and their months. |
| CalendarIndex.AddSpan | public/assets/js/list-page.js:246-284 | Processing one more record keeps the day table and month list the index of the records so far. |
| CalendarIndex.BuildCalendar | public/assets/js/list-page.js:242-284 | The `forEach` loop builds the index: the day keys are exactly the covered days, and each day's list is its de-duplicated bucket. The months are exactly the touched ones, each once. |
| CalendarIndex.SortMonthsStrict | public/assets/js/list-page.js:286-292 | The sorted months are the same set, in strictly increasing year-then-month order. |
| ListPage.FilteredOf | public/assets/js/list-page.js:131-153 | `state.filtered` holds exactly the records the predicate keeps: year, search, then past/undated/upcoming. |
| ListPage.MissingCitySearchable | public/assets/js/list-page.js:133-137 | A season with an absent city is found by the search "undefined", which the template literal writes in its place, and is kept by it. |
| ListPage.KeepDated | public/assets/js/list-page.js:143-152 | With past seasons hidden, a dated record is kept exactly when it matches and its effective start is today or later. |
| ListPage.KeepUndated | public/assets/js/list-page.js:147-150 | A record without dates is kept whether or not past seasons are shown. |
| ListPage.ShowPastWidens | public/assets/js/list-page.js:143-145 | Hiding past seasons gives a subsequence of the list with them shown, so turning the toggle on never shrinks the list. |
| ListPage.LongerSearchNarrows | public/assets/js/list-page.js:133-137 | Extending the search term only removes records. |
| ListPage.AllYearsWidens | public/assets/js/list-page.js:132 | Any single year selects a subsequence of "all". |
| ListPage.SelectionRule | public/assets/js/list-page.js:295-325 | A selected month is always a listed one. A listed previous choice is kept; otherwise the first month is chosen. With the selector present, nothing is selected exactly when no month is listed. |
| ListPage.DayEventPills | public/assets/js/list-page.js:403-414 | A day cell names at most three festivals in order, and adds "+N more" with N = count − 3 only when there are more than three. |
| ListPage.SummarizedDatesValid | public/assets/js/list-page.js:44 | Summarizing keeps every record's bounds valid. |
| ListPage.ListedInstances | public/assets/js/list-page.js:44 | The listed records are the summarized expansion of the data, and all their bounds are valid days. |
| ListPage.ListPageState.constructor | public/assets/js/list-page.js:13-23 | The initial `state`: empty lists and map, no month, empty search, year "all", past hidden. |
| ListPage.ListPageState.SyncMonthSelect | public/assets/js/list-page.js:301-328 | Without the selector nothing changes. With it, no months clears the choice and an unset choice becomes the first month. No other field changes. |
| ListPage.ListPageState.PrepareCalendarData | public/assets/js/list-page.js:242-299 | The calendar fields become the index of `filtered`, with the months sorted. The selection follows `SelectionRule`. The lists and filters are untouched. |
| ListPage.ListPageState.UpdateFiltered | public/assets/js/list-page.js:125-162 | `filtered` becomes the filter of `instances` under the current settings, and the calendar is rebuilt from it. |
| ListPage.ListPageState.Load | public/assets/js/list-page.js:42-45 | `instances` becomes the summarized expansion of the data; then `filtered`, the calendar and the month selection are rebuilt as `updateFiltered` does. |
| ListPage.ListPageState.SetSearch | public/assets/js/list-page.js:53-56 | The search becomes the trimmed lower-cased input; the list, the calendar and the month selection are rebuilt. |
| ListPage.ListPageState.SetYear | public/assets/js/list-page.js:58-61 | The year becomes the selection; the list, the calendar and the month selection are rebuilt. |
| ListPage.ListPageState.SetShowPast | public/assets/js/list-page.js:94-97 | The toggle sets `showPast`; the list, the calendar and the month selection are rebuilt. |
| ListPage.ListPageState.SelectMonth | public/assets/js/list-page.js:73-76 | The month selector sets the chosen month (none for an empty value) and changes nothing else. |
| Routing.ResolveSlug | public/assets/js/detail-page.js:36-45 | The trimmed hash, without its first `#`, wins when non-empty. Otherwise the trimmed `slug` parameter is used when present, else `""`. The result never has white space at either end. |
| Routing.SlugTrimmed | public/assets/js/venue-detail.js:79 | Trimming leaves a slug unchanged. |
| Routing.HashLinkResolves | public/assets/js/detail-page.js:36-41 | A link `#<slug>` resolves to that slug, whatever the query says. |
| Routing.QueryResolves | public/assets/js/detail-page.js:43-44 | With no hash, `?slug=<slug>` resolves to that slug. |
| DetailPage.EnrichDescription | public/assets/js/detail-page.js:86 | A season's description falls back to the festival's; slug and bounds are carried over. |
| DetailPage.EnrichInstances | public/assets/js/detail-page.js:69-88 | Enrichment keeps the count and order of seasons. |
| DetailPage.EnrichSeasons | public/assets/js/detail-page.js:70 | Each season is enriched in place in the list. |
| DetailPage.SeasonsOfPermutation | public/assets/js/detail-page.js:58 | The page's seasons are a permutation of the enriched seasons, with dated ones first and in start order. |
| DetailPage.FindUpcoming | public/assets/js/detail-page.js:92-100 | `findIndex` gives the first upcoming season, or −1 exactly when none is upcoming. |
| DetailPage.PickDefaultInstanceIndex | public/assets/js/detail-page.js:90-103 | The default index is valid for a non-empty list. |
| DetailPage.PickDefaultIsFirstUpcoming | public/assets/js/detail-page.js:90-103 | The default is the first upcoming season if there is one, else 0. |
| DetailPage.UpcomingByDate | public/assets/js/detail-page.js:93-99 | A season counts as upcoming when its start, or without a start its end, is today or later. |
| DetailPage.LeadingDigits | public/assets/js/detail-page.js:149 | `parseInt` reads the longest digit prefix. |
| DetailPage.ParseInt10 | public/assets/js/detail-page.js:149 | Text with no digit at all is NaN. |
| DetailPage.ParseIntDecimal | public/assets/js/detail-page.js:149-150 | The option values `String(i)` parse back to `i`, also with trailing text. |
| DetailPage.ParseIntNegative | public/assets/js/detail-page.js:149-150 | A leading minus sign negates the digits that follow it. |
| DetailPage.ParseIntOfDigits | public/assets/js/detail-page.js:149 | Text starting with a digit parses to the value of its digit prefix. |
| DetailPage.ParseIntOfNegated | public/assets/js/detail-page.js:149 | A minus sign followed by digits parses to the negated value. |
| DetailPage.DefaultSelection | public/assets/js/detail-page.js:58-62 | The page's seasons are the summarized enriched seasons, and the default index is inside them when there are any, 0 otherwise. |
| DetailPage.Notices | public/assets/js/detail-page.js:180-187 | The dates notice is listed exactly for a missing or "TBD" start, and the map notice exactly for a URL that is not meaningful. There are at most two, and with two the dates notice comes first. |
| DetailPage.NoticeTexts | public/assets/js/detail-page.js:182-185 | The pushed sentences, one per notice, in order. |
| DetailPage.NoticeHiddenRule | public/assets/js/detail-page.js:188-193 | The notice element is hidden exactly when the start is given and not "TBD" and the map URL is meaningful. |
| DetailPage.TbdSeasonNotice | public/assets/js/detail-page.js:181-190 | A "TBD" season shows the notice, and the joined text begins with the dates-pending sentence. |
| DetailPage.JoinHead | public/assets/js/detail-page.js:189 | A joined text begins with its first part. |
| DetailPage.DetailPageState.constructor | public/assets/js/detail-page.js:3-8 | The initial `pageState`: no table, no festival, no seasons, index 0. |
| DetailPage.DetailPageState.RenderSlug | public/assets/js/detail-page.js:47-67 | An empty slug or missing table changes nothing, and an unknown slug leaves the state unchanged. A known slug sets the festival, its summarized enriched seasons and the default index. |
| DetailPage.DetailPageState.Show | public/assets/js/detail-page.js:60-62 | The three assignments: the festival becomes current with the given seasons and index, the table is untouched, and the page invariant (an index inside a non-empty season list, 0 for an empty one) holds. |
| DetailPage.DetailPageState.Load | public/assets/js/detail-page.js:10-34 | Without a slug on a page with a hero nothing changes. Otherwise the table becomes `buildFestivalMap` of the data and the slug is rendered: shown exactly when it is in the table, not found exactly when it is non-empty and missing. When the slug is ignored or unknown, the festival, seasons and index are kept. |
| DetailPage.DetailPageState.SelectSeason | public/assets/js/detail-page.js:148-155 | The index changes exactly when the value parses to an in-range index, and then to that index. |
| Venues.VenueType | public/assets/js/venues-page.js:28-47 | The type is always one of the nine labels or "Music Venue". |
| Venues.VenueTypeFirstMapped | public/assets/js/venues-page.js:41-45 | The first tag, in list order, that is in the map decides the label. |
| Venues.VenueTypeNoneMapped | public/assets/js/venues-page.js:41-46 | Without a mapped tag, including no tags, the type is "Music Venue". |
| Venues.GetVenueType | public/assets/js/venue-detail.js:17-36 | The early-return `for` loop computes the specified type. |
| Venues.VenueTypeAsWritten | public/assets/js/venues-page.js:41-44 | The lookup as written may return an inherited `Object.prototype` member instead of a label. |
| Venues.InheritedTagAsWritten | public/assets/js/venues-page.js:41-44 | The tag `"toString"` returns the inherited function as written, where "Music Venue" is intended. |
| Venues.AsWrittenAgrees | public/assets/js/venues-page.js:41-46 | Without inherited member names among the tags, the code as written and the corrected type agree. |
| Venues.ListVenue | public/assets/js/venues-page.js:62-67 | A listed venue keeps the venue, has the venue-variant `slugify` of its name and `getVenueType` of its tags, and its display instance is its first instance when there is one. |
| Venues.ListedVenueShape | public/assets/js/venues-page.js:64-66 | The listed slug is the venue-variant `slugify` of the name, and the type is a valid label. |
| Venues.ListVenues | public/assets/js/venues-page.js:62-67 | Loading lists every venue, one to one, in order. |
| Venues.AllListedIff | public/assets/js/venues-page.js:65 | Every listed venue has a display instance exactly when every venue has an instance. |
| Venues.VenueTestConjunctive | public/assets/js/venues-page.js:119-148 | A venue is kept exactly when the city and type are "all" or equal, and the search is empty or found in the lower-cased joined fields. |
| Venues.FilterVenues | public/assets/js/venues-page.js:118-148 | The filter throws exactly when some venue's test reaches a missing instance. Otherwise it keeps exactly the passing venues, in order. |
| Venues.FilterListedNeverThrows | public/assets/js/venues-page.js:119-148 | When every venue has an instance the filter never throws. |
| Venues.AllCitiesWidens | public/assets/js/venues-page.js:121 | Any one city selects a subsequence of "all". |
| Venues.AllTypesWidens | public/assets/js/venues-page.js:126 | Any one type selects a subsequence of "all". |
| Venues.EmptySearchWidens | public/assets/js/venues-page.js:131 | Any search selects a subsequence of the empty search. |
| Venues.DistinctSortedOptions | public/assets/js/venues-page.js:96-97 | The options are exactly the distinct values, sorted strictly ascending. |
| Venues.Cities | public/assets/js/venues-page.js:96 | The cities of the listed venues' display instances, in order. |
| Venues.Types | public/assets/js/venues-page.js:107 | The types of the listed venues, in order. |
| Venues.VenuesPageState.constructor | public/assets/js/venues-page.js:5-11 | The initial `state`: no venues, empty search, city and type "all". |
| Venues.VenuesPageState.UpdateFiltered | public/assets/js/venues-page.js:118-151 | `filtered` becomes the venues passing the current filters. A throwing filter leaves it unchanged. |
| Venues.VenuesPageState.SetSearch | public/assets/js/venues-page.js:78-81 | The search becomes the trimmed lower-cased input, and the list is re-filtered: the filter succeeds exactly when it does not throw, and then sets `filtered`. |
| Venues.VenuesPageState.SetCity | public/assets/js/venues-page.js:83-86 | The city becomes the selection, and the list is re-filtered: the filter succeeds exactly when it does not throw, and then sets `filtered`. |
| Venues.VenuesPageState.SetType | public/assets/js/venues-page.js:88-91 | The type becomes the selection, and the list is re-filtered: the filter succeeds exactly when it does not throw, and then sets `filtered`. |
| Venues.VenuesPageState.PopulateFilters | public/assets/js/venues-page.js:94-116 | The distinct sorted cities and types are appended to the option lists; nothing else changes. |
| Venues.VenuesPageState.AppendCityOptions | public/assets/js/venues-page.js:99-104 | The `forEach` appends every city option, in order. |
| Venues.VenuesPageState.AppendTypeOptions | public/assets/js/venues-page.js:110-115 | The `forEach` appends every type option, in order. |
| Venues.VenuesPageState.Load | public/assets/js/venues-page.js:60-75 | `venues` becomes the listed data, and filling options and the list succeeds exactly when every venue has an instance. On success the options and the filtered list are set; on failure they are untouched. |
| Venues.VenuesPageState.ShowListed | public/assets/js/venues-page.js:69-70 | Populating the options and then filtering sets both from the listed venues. |
| VenueDetail.VenueMapKeys | public/assets/js/venue-detail.js:60-64 | The table's keys are exactly the slugs of the venue names. |
| VenueDetail.DirectoryLinkShowsVenue | public/assets/js/venue-detail.js:61-64 | The directory's `#<slug>` link resolves to the slug, and the slug maps to that venue unless a later name gives the same slug. |
| VenueDetail.ViewOf | public/assets/js/venue-detail.js:102-103 | The view shows the venue with its first instance, if any, and `getVenueType` of its tags, a valid type label. |
| VenueDetail.VenueMapLastWins | public/assets/js/venue-detail.js:61-64 | A venue whose slug no later venue shares is the one its slug maps to. |
| VenueDetail.VenueMapStep | public/assets/js/venue-detail.js:63 | One more venue sets exactly its slug's entry to itself. |
| VenueDetail.BuildVenueMap | public/assets/js/venue-detail.js:61-64 | The `forEach` loop builds exactly the specified slug table. |
| VenueDetail.VenueDetailState.constructor | public/assets/js/venue-detail.js:5-8 | The initial `pageState`: an empty table and no current venue. |
| VenueDetail.VenueDetailState.FillVenueMap | public/assets/js/venue-detail.js:60-64 | The data's slug entries are set on the page's table and the current venue is untouched. |
| VenueDetail.VenueDetailState.RenderSlug | public/assets/js/venue-detail.js:89-107 | An empty slug or empty table changes nothing, and an unknown slug leaves the current venue unchanged. A known slug makes the mapped venue current and shows its first instance and type. |
| VenueDetail.VenueDetailState.Load | public/assets/js/venue-detail.js:46-66 | Without a slug on a page with a hero nothing changes. Otherwise the table is filled and the slug rendered: shown exactly when the table has it, not found exactly when it is non-empty and the non-empty table lacks it. The current venue changes only when shown. |

## Left out

- DOM rendering, templating, `hidden`/aria toggles and event wiring, including the `hashchange` listeners. Only the state changes the handlers make are modelled.
- `fetch`, the `loadFestivals` cache and HTTP status handling. The decoded JSON is a parameter. Inputs that are not the expected shape (non-string names, a festival without an `instances` array, a missing `data.venues`) are not representable. A season's `city` and `venue_name` keep whether they are absent or `null`; every other absent text field is read as `""`.
- Venues.DistinctSortedOptions: a venue's absent `city` is read as `""`. In the code, `new Set(...)` keeps `undefined` as its own value and `sort()` puts it last, with the option text "undefined"; the model's `""` sorts first instead. The venue search is exact here, because `Array.prototype.join` writes `undefined` and `null` as `""`.
- `Intl.DateTimeFormat` and `toLocaleString` are replaced by a fixed "Mon D, YYYY" format. `monthLabel` is not modelled.
- JavaScript `Date` local-time semantics and Invalid Date. Date fields are `""`, `"TBD"` or a well-formed RFC 3339 full date (a precondition; the code does not validate them).
- The WHATWG URL parsing inside `isMeaningfulUrl` (assets/js/data.js:189-198) is a parameter `isWebUrl`; only the blank and placeholder screening before it is modelled.
- `instanceToICS` is imported by the pages but defined outside the code shown, so it is not part of this model.
- `window.location.hash` is taken as the decoded text; percent-encoding is not modelled.
- Rendering after a festival with no seasons, or after a venue without instances, throws while drawing (`updateHero` on `undefined`). The state update before it is modelled; the exception is not.
- `slugify` of the venue pages throws on a venue without a name. Names are modelled as present strings.
- The initial `state.showPast = toggle.checked` read at binding time (public/assets/js/list-page.js:93) is not modelled; `SetShowPast` covers the change handler.
- The calendar and day-detail drawing (`renderCalendar`, `showDayDetail`, `calendarCell`) is presentation and not modelled.
- Logging (`console.warn`, `console.error`) and `showError` messages.
- Text.ToLower: exact for ASCII and for the code points whose lower-case form contains an ASCII letter (U+0130, U+212A). Other code points are kept as they are, so search matching of other non-ASCII letters is approximate. Slugs are exact, because every other letter becomes a separator anyway.
- Text.ToUpper: exact for ASCII and the two code points whose upper-case form is an ASCII letter (U+0131, U+017F), which is all the placeholder comparison needs.
- Text.StrLeTotalOrder: strings are ordered by code point. JavaScript's `sort()` and `localeCompare` on year texts differ from this only for astral characters against U+E000–U+FFFF, and year texts are digits.
- Calendar.IsoRoundTrip: years are unbounded naturals; the round trip is stated for four-digit years, as `toISODate` does not pad the year.
- Venues.VenueType: models the intended behaviour, not the inherited-member lookup of the code (see Findings; `Venues.VenueTypeAsWritten` models the code as written).

## Findings

| source | as written | input that shows it | evidently intended | confidence | as-written member | corrected member |
|---|---|---|---|---|---|---|
| public/assets/js/venues-page.js:41-46 (same in public/assets/js/venue-detail.js:30-35) | `typeMap[tag]` is an ordinary property lookup on an object literal, so it also finds members inherited from `Object.prototype`, and the truthy function is returned as the venue type | `tags = ["toString"]` (likewise "constructor", "valueOf", "hasOwnProperty", "__proto__", …) | only the nine own keys of the map give a label; any other tag falls through to "Music Venue" | not executed | Venues.InheritedTagAsWritten | Venues.VenueType |
