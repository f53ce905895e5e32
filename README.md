# ms-ucpnz article fetcher, modelled in Dafny

This project models the article fetcher of the ms-ucpnz news microservice
(`internal/fetcher/article.go`). The fetcher turns a page of one news site
into an `Article` record: it parses the URL, downloads the page, hashes the
URL into an id, reads the title and the update time, drops the article when
today's day of the month in the local zone, minus the article's day of the
month in UTC+8, exceeds three (a test of days of the month, not of age across
a month boundary), extracts the article
body from the paragraphs of the content container, scrubs it with a chain of
regular-expression rewrites, and wraps it in a markdown document. The same
file also gives lookup by id and keyword search over the stored articles, and
a `sort.Interface` that orders articles by update time.

Layout:

- `wrappers.dfy`: `Option` and `Result`.
- `gostrings.dfy` (`GoStrings`): `strings.TrimSpace` with Go's white-space
  set, ASCII `strings.ToLower`, `strings.Contains`.
- `goregexp.dfy` (`GoRegexp`): each regular expression the fetcher uses as an
  explicit scanner with RE2 semantics (`.` does not match a newline, matches
  are leftmost-first, lazy and non-overlapping): the paragraph scan
  `<p.*?>(.*?)</p>`, single-character and literal replacement, and the lazy
  `open.*?close` deletions.
- `extraction.dfy` (`Extraction`): the body `fetchContent` builds: the joined
  paragraph captures and the ordered rewrite chain.
- `gotime.dfy` (`GoTime`): protobuf timestamps, `Before`, the fixed UTC+8
  zone of `shanghai`, and the civil calendar behind `Time.Day`.
- `format.dfy` (`Format`): the document `fmtContent` builds.
- `fetcher.dfy` (`Fetcher`): the errors, the library calls as functions of an
  `Env`, the class `Article` with `NewArticle`, `Get`, `Search`, `filter`,
  `fetchContent` and `fetchArticle`, and the value-level pipeline `Fetch`
  that `FetchArticle` is proved against; `FetchArticle` hands each stage
  after the URL parse to a method of its own (`FetchArticlePage`,
  `FetchArticleFields`, `FetchArticleBody`), one per stage function of `Fetch`.
- `byupdatetime.dfy` (`ByUpdateTime`): `Len`, `Less` and `Swap` over an
  array of articles.

The storage behind `load()` is a parameter: `Get` and `Search` take what it
returned (`Result<seq<Article>, Error>`). The library calls (`md5`,
`url.Parse`, `exhtml.GetRawAndDoc`, `exhtml.DivWithAttr2`,
`gears.ReplaceIllegalChar`, RFC 3339 parsing and formatting,
`url.QueryUnescape`) are function fields of `Fetcher.Lib`; the clock is
`Env.now` and the offset of the local zone is `Env.localOffset`. A Go runtime
panic (a method called through a nil pointer) is the error `NilDereference`.

The `fmtContent` header links the website title as `/list/?v=<website title>`:
the format string's `%[1]s` repeats the first argument, the title, not the
domain.

## Model

| member | source | states |
|---|---|---|
| GoStrings.TrimSpace | internal/fetcher/article.go:72 | the result is a contiguous slice of the input with only white space dropped on either side, and it neither starts nor ends with white space |
| GoStrings.ToLower | internal/fetcher/article.go:72 | same length, every character mapped by the ASCII lower-case map |
| GoStrings.TrimSpaceToLower | internal/fetcher/article.go:72 | trimming and lower-casing commute |
| GoStrings.ContainsIff | internal/fetcher/article.go:78-85 | `Contains(s, sub)` holds exactly when `sub` occurs at some index of `s` |
| GoStrings.ContainsEmpty | internal/fetcher/article.go:78 | every string contains the empty string, so a blank keyword matches every title |
| GoRegexp.ReplaceChar | internal/fetcher/article.go:239-242 | same length; each occurrence of the character is replaced and every other character is kept |
| GoRegexp.DeleteLiteral | internal/fetcher/article.go:255-256 | deleting the leftmost non-overlapping occurrences of a literal never lengthens the text |
| GoRegexp.DeleteLiteralAbsent | internal/fetcher/article.go:255-256 | where the literal occurs nowhere, deleting it leaves the text unchanged |
| GoRegexp.DeleteLiteralKeeps | internal/fetcher/article.go:255-256 | from any position up to the first occurrence of the literal after it, the text is kept as it is |
| GoRegexp.DeleteLiteralFirst | internal/fetcher/article.go:255-256 | the leftmost occurrence of the literal is deleted, the text before it is kept, and the scan resumes right after it |
| GoRegexp.DeleteLiteralSubseq | internal/fetcher/article.go:255-256 | the result of the literal deletion is a subsequence of its input |
| GoRegexp.DeleteLazy | internal/fetcher/article.go:253-264 | a lazy `open.*?close` deletion never lengthens the text |
| GoRegexp.DeleteLazyAbsent | internal/fetcher/article.go:253-264 | where no `open.*?close` match starts, the deletion leaves the text unchanged |
| GoRegexp.DeleteLazyKeeps | internal/fetcher/article.go:253-264 | from any position up to the first position after it where a lazy match starts, the text is kept as it is |
| GoRegexp.DeleteLazyFirst | internal/fetcher/article.go:253-264 | the leftmost lazy match is deleted, the text before it is kept, and the scan resumes right after it |
| GoRegexp.DeleteLazySubseq | internal/fetcher/article.go:253-254 | the result of a lazy deletion is a subsequence of its input |
| GoRegexp.FindOnLine | internal/fetcher/article.go:227 | the reported index is the leftmost occurrence and has no newline before it; when none is reported every occurrence lies after a newline (`.` does not cross lines) |
| GoRegexp.LazyMatch | internal/fetcher/article.go:253-264 | a reported lazy match starts with the opening text, ends with the closing text and has no newline in between |
| GoRegexp.LazyMatchShortest | internal/fetcher/article.go:253-264 | the reported lazy match is the shortest one (no earlier closing text after the opening); none is reported only when the text does not start with the opening text or every closing text after it lies past a newline |
| GoRegexp.ParagraphAt | internal/fetcher/article.go:227-228 | a reported match's `>` comes before its `</p>`, and the `</p>` lies inside the text |
| GoRegexp.ParagraphAtMatches | internal/fetcher/article.go:227-228 | the reported match is the one RE2's leftmost-first lazy semantics prefers (shortest `<p.*?>` opening, then the nearest `</p>` on the line), and when none is reported no match starts there |
| GoRegexp.Captures | internal/fetcher/article.go:228-230 | the captured paragraph texts contain no newline |
| GoRegexp.CapturesSkip | internal/fetcher/article.go:227-230 | from any position up to the first position where a paragraph match starts, the scan captures nothing |
| GoRegexp.CapturesFirst | internal/fetcher/article.go:227-230 | the first capture is group 1 of the leftmost paragraph match, and the remaining captures are those of the text after its `</p>`: the matches are taken in document order, without overlap, none skipped |
| GoRegexp.CapturesEmpty | internal/fetcher/article.go:228-233 | the scan captures nothing exactly when no position of the fragment starts a paragraph match |
| Extraction.JoinParagraphsAppend | internal/fetcher/article.go:234-237 | writing one more paragraph and `"  \n"` to the buffer extends the join by exactly that |
| Extraction.SplitJoin | internal/fetcher/article.go:234-238 | the joined body splits back into the captured paragraphs, in document order |
| Extraction.UnquoteSpec | internal/fetcher/article.go:239-242 | after the quote passes every 「 is “ and every 」 is ”, every other character is unchanged, and neither corner quote remains |
| Extraction.StripTagsTagFree | internal/fetcher/article.go:253-254 | after `<.*?>` no `<` is followed by a `>` before the next newline |
| Extraction.DeleteLiteralTagFree | internal/fetcher/article.go:255-256 | deleting the login prompt keeps a tag-free text tag-free |
| Extraction.BlockPassInert | internal/fetcher/article.go:257-264 | on a tag-free text a block deletion `open.*?close` changes nothing when `open` starts with `<` and holds no `>` and no newline, and `close` has a `>` before its first newline (as `</script>`, `</blockquote>`, `</iframe>` and `</strong>` do) |
| Extraction.BlockPassesInert | internal/fetcher/article.go:257-264 | the script, blockquote, iframe and strong passes leave a tag-free text unchanged |
| Extraction.ScrubIsTagAndPromptPasses | internal/fetcher/article.go:239-264 | the whole rewrite chain equals the quote passes, the tag pass and the prompt deletion alone, and its result is tag-free |
| Extraction.Scrub | internal/fetcher/article.go:239-264 | no contract of its own; the passes in their order, whose properties are in `Extraction.ScrubIsTagAndPromptPasses` and `Extraction.ScrubSpec` |
| Extraction.StripTagsNoTag | internal/fetcher/article.go:253-254 | a text without `<` is left unchanged by `<.*?>` |
| Extraction.ScrubSpec | internal/fetcher/article.go:239-264 | the scrubbed body holds no corner quote and no tag within a line, and is a subsequence of the quote-converted body; on a body without `<` it is exactly the quote-converted body with the sign-in prompt deleted, and the quote-converted body itself when the prompt does not occur |
| Extraction.ExtractSpec | internal/fetcher/article.go:225-266 | extraction fails exactly when no paragraph matches; on success the pre-cleanup body splits back into the captures and the result is quote- and tag-free |
| GoTime.Shanghai | internal/fetcher/article.go:189-192 | the same instant, shown 28800 seconds east of UTC |
| GoTime.EraOf | internal/fetcher/article.go:204 | a day count splits into 400-year eras and a day of the era |
| GoTime.YearOfEra | internal/fetcher/article.go:204 | a day of an era splits into a year of the era and a day of that year, leap days counted; the day is below 366 only in a year whose February has 29 days, and below 365 otherwise |
| GoTime.MonthOfYear | internal/fetcher/article.go:204 | a day of a March-based year splits into a month and a day of the month, at most 30 in April, June, September and November, at most 29 in February, at most 31 otherwise |
| GoTime.CivilFromDays | internal/fetcher/article.go:204 | the date of a day count has a month from 1 to 12 and a day from 1 to 31 |
| GoTime.CivilRoundTrip | internal/fetcher/article.go:204 | the civil date determines the day count: converting back recovers it |
| GoTime.Day | internal/fetcher/article.go:203-204 | `Time.Day` lies between 1 and 31 |
| GoTime.SameMonthDays | internal/fetcher/article.go:204 | within one calendar month the difference of the days of the month is the number of days between the dates |
| GoTime.ShanghaiDateExample | internal/fetcher/article.go:174 | the sample date attribute 2020-11-05T13:30:02Z is 5 November 2020 in UTC+8 |
| GoTime.ShanghaiDayAhead | internal/fetcher/article.go:189-192 | 2020-11-05T16:30:00Z is already the 6th in UTC+8 |
| GoTime.UtcDayBehind | internal/fetcher/article.go:189-192 | the same instant is still the 5th at offset zero, so the zone changes the day |
| GoTime.DayOfMarchExample | internal/fetcher/article.go:204 | 2021-03-02T04:00:00Z is the 2nd in UTC+8 |
| GoTime.DayOfJanuaryExample | internal/fetcher/article.go:203 | 2021-01-29T12:00:00Z is the 29th in UTC+8 |
| Format.FmtContent | internal/fetcher/article.go:269-286 | no contract of its own; its layout is stated by `Format.FmtContentLayout` and `Format.FmtContentInjective` |
| Format.FmtContentLayout | internal/fetcher/article.go:269-286 | the document starts with `# title` and a blank line, then the metadata preamble, then the body, then a blank line and the footer linking the unescaped URL (or the URL and the unescape error); the body reads back from between them |
| Format.FmtContentInjective | internal/fetcher/article.go:279-284 | two bodies give the same document only if they are equal |
| Fetcher.NotFoundMentionsId | internal/fetcher/article.go:59-60 | the not-found message contains the id asked for |
| Fetcher.NotFoundErrorAsWritten | internal/fetcher/article.go:59-60 | no contract of its own; the not-found path as written, a nil dereference when `U` is nil, shown by `Fetcher.GetNotFoundOnFreshArticle` |
| Fetcher.GetNotFoundOnFreshArticle | internal/fetcher/article.go:34-40 | on an article from `NewArticle` the not-found path as written panics, while the corrected error reads `... no article with id: <id>, url: <nil>` |
| Fetcher.Article.constructor | internal/fetcher/article.go:34-40 | the website domain and title come from the configuration, the website id is the md5 of the domain, every other field is empty |
| Fetcher.Article.Get | internal/fetcher/article.go:48-61 | a load error is passed on; otherwise the result is the first loaded article whose id equals the argument, and the not-found error only when no loaded article has that id |
| Fetcher.Article.Search | internal/fetcher/article.go:63-90 | a load error is passed on; otherwise the result is `Found` of the loaded articles and the normalised keywords: each article in load order, once per matching keyword in argument order |
| Fetcher.HitsSpec | internal/fetcher/article.go:71-87 | the entries the keyword loop appends for an article are copies of it, at most one per keyword, and none exactly when no keyword matches |
| Fetcher.SearchMembership | internal/fetcher/article.go:69-89 | an article is in the result exactly when it was loaded and some keyword matches it |
| Fetcher.SearchMultiplicity | internal/fetcher/article.go:69-89 | an article occurs in the result (times loaded) × (matching keywords) times; duplicates arise only from several matching keywords or repeated loading |
| Fetcher.SearchSize | internal/fetcher/article.go:69-89 | the result has at most (articles) × (keywords) entries |
| Fetcher.SearchOneKey | internal/fetcher/article.go:70-89 | with one keyword the result is the matching articles in load order; a keyword that is blank after trimming returns every loaded article |
| Fetcher.NormalizeIgnoresCase | internal/fetcher/article.go:72 | a keyword and its lower-cased form normalise alike |
| Fetcher.SearchIgnoresCase | internal/fetcher/article.go:71-72 | lower-casing the keywords does not change the keys `Search` matches with |
| Fetcher.Article.Filter | internal/fetcher/article.go:199-215 | accepts exactly when today's day of the month minus the article's day of the month in UTC+8 (the epoch when unset) is at most `days`, and then returns the article itself; otherwise the out-of-range error |
| Fetcher.DuringWithinMonth | internal/fetcher/article.go:202-208 | when now and the update time fall in the same month in UTC+8, the test counts whole days between them |
| Fetcher.DuringAcrossMonths | internal/fetcher/article.go:202-212 | across a month boundary an article more than 31 days old (29th, checked on the 2nd) passes the three-day test |
| Fetcher.ContentOf | internal/fetcher/article.go:217-266 | no contract of its own; `Fetcher.ContentOfSpec` states what it returns and `Fetcher.Article.FetchContent` is proved equal to it |
| Fetcher.Article.FetchContent | internal/fetcher/article.go:217-267 | the nil-raw error (a panic when `U` is nil too), "no <p> matched", or the scrubbed join of the captures, as `ContentOf` states |
| Fetcher.ContentOfSpec | internal/fetcher/article.go:225-266 | `fetchContent` fails with "no <p> matched" exactly when the container holds no paragraph match; a body it returns has no corner quote, no tag within a line, and is a subsequence of the quote-converted join, whose captures split back out; when the join holds no `<` the body is exactly the quote-converted join with the sign-in prompt deleted |
| Fetcher.TitleOf | internal/fetcher/article.go:153-162 | no contract of its own; the title stage of `Fetcher.Fetch`, covered by `Fetcher.FieldsStale` and `Fetcher.FetchSuccess` |
| Fetcher.UpdateTimeOf | internal/fetcher/article.go:164-187 | no contract of its own; the update-time stage of `Fetcher.Fetch`, covered by `Fetcher.FieldsStale` and `Fetcher.FetchSuccess` |
| Fetcher.Fetch | internal/fetcher/article.go:110-151 | no contract of its own, nor have its stages `FetchPage`, `FetchFields` and `FetchBody`; `Fetcher.Article.FetchArticle` is proved against it and `Fetcher.FetchBadUrl`, `Fetcher.FetchStale` and `Fetcher.FetchSuccess` state its outcomes |
| Fetcher.Article.FetchArticle | internal/fetcher/article.go:110-151 | the new fields and the result are those of `Fetch`: the stages URL parse, fetch, id, title, time, filter, content and format in order, the first failure returned with the fields as far as set |
| Fetcher.Article.FetchArticlePage | internal/fetcher/article.go:115-121 | once the URL has parsed, the new fields and the result are those of `FetchPage`: a failed request clears `raw` and `doc` and ends the run, a page sets them and the id |
| Fetcher.Article.FetchArticleFields | internal/fetcher/article.go:123-131 | once the page has arrived, the new fields and the result are those of `FetchFields`: title, then update time, each failure ending the run with that field cleared |
| Fetcher.Article.FetchArticleBody | internal/fetcher/article.go:133-148 | once the update time is set, the new fields and the result are those of `FetchBody`: the three-day filter, then the content and its formatting |
| Fetcher.FetchBadUrl | internal/fetcher/article.go:112-115 | a URL that does not parse sets `U` to nil, changes nothing else and returns the parse error |
| Fetcher.FetchStale | internal/fetcher/article.go:134-137 | the out-of-range error is returned exactly when URL, page, title and update time all succeed and the update time fails the three-day test |
| Fetcher.FieldsStale | internal/fetcher/article.go:124-137 | once the page has arrived, the out-of-range error comes exactly when title and update time are found and the update time fails the three-day test |
| Fetcher.FetchStaleKeepsContent | internal/fetcher/article.go:134-143 | on the out-of-range error `fetchContent` never ran: `Content` is unchanged |
| Fetcher.FetchSuccess | internal/fetcher/article.go:110-151 | on success the id is the md5 of the URL, `U` the parsed URL, the update time passed the three-day test, the website fields are kept, and `Content` is the heading, preamble, the body `fetchContent` returned and the footer |
| Fetcher.BodySuccess | internal/fetcher/article.go:134-151 | when the last stage succeeds the filter passed, the content was found and `Content` is the formatted document with that content between preamble and footer |
| ByUpdateTime.Less | internal/fetcher/article.go:96-98 | no contract of its own; its order properties are in `ByUpdateTime.LessStrictWeakOrder` and `ByUpdateTime.UnsetSortsFirst` |
| ByUpdateTime.LessStrictWeakOrder | internal/fetcher/article.go:96-98 | `Less` is irreflexive and transitive, and two articles are incomparable exactly when their update times are the same instant |
| ByUpdateTime.UnsetSortsFirst | internal/fetcher/article.go:96-98 | an article without update time sorts before one updated after the epoch |
| ByUpdateTime.Swap | internal/fetcher/article.go:95 | the two entries are exchanged, nothing else changes, and the entries are a permutation of the old ones |

`ByUpdateTime.Len` is the array length and has no contract of its own.

## Left out

- `List` and `load()`: storage is not part of this model; `Get` and `Search` take what `load()` returned.
- The DOM walks of `fetchTitle` and `fetchUpdateTime` (`ElementsByTag`, `ElementsByTagAndClass`, `FirstChild.Data`, `LastChild.Attr[1]`): `Doc` holds only what they find. The panics of an empty `<title>` element and of a date element without a second attribute are not modelled, and a nil document is taken to have no `<title>`.
- `exhtml.GetRawAndDoc`, `exhtml.DivWithAttr2`, md5, `url.Parse`, `url.QueryUnescape`, `gears.ReplaceIllegalChar` and RFC 3339 parsing and formatting: library code, modelled as arbitrary functions in `Fetcher.Lib`. A failed fetch is taken to leave `raw` and `doc` nil.
- The package-level `timeout` initialiser and its log line: configuration; the timeout is folded into `Lib.getRawAndDoc`.
- `time.Now()`: the clock is the parameter `Env.now`, and the local zone is a fixed offset (`Env.localOffset`), so daylight-saving changes are not modelled.
- `Fetcher.Article.Get`: returns the corrected not-found error (`Fetcher.NotFoundError`, with `<nil>` for a nil `U`) where the code as written dereferences the nil `U` and panics; the as-written outcome is `Fetcher.NotFoundErrorAsWritten` (see Findings).
- `GoStrings.ToLower`: maps ASCII letters only, not the full Unicode case mapping of `strings.ToLower`.
- `Fetcher.Article.Search`: the six `switch` cases, which all append the article, are tested as one disjunction (`Matches`) in the same order.
- `Fetcher.FetchSuccess`: the quote- and tag-freedom of the body is stated by `Fetcher.ContentOfSpec` for the body `fetchContent` returned, not repeated here.
- `ErrSameArticleExist` is declared but never used by the fetcher.
- Unicode handling of bytes: page text is a sequence of characters, not bytes.

## Findings

| source | as written | input that shows it | evidently intended | confidence | as-written member | corrected member |
|---|---|---|---|---|---|---|
| internal/fetcher/article.go:59-60 | the not-found error calls `a.U.String()` on the receiver | `NewArticle().Get(id)` for an id no stored article has: `U` is nil and `(*url.URL).String` dereferences it | an error naming the id, with `<nil>` for the missing URL | not executed | Fetcher.GetNotFoundOnFreshArticle | Fetcher.NotFoundMentionsId |
