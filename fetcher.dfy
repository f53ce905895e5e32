/** The article fetcher of internal/fetcher/article.go: the `Article` record,
    lookup and keyword search over the stored articles, the recency filter,
    body extraction and the `fetchArticle` pipeline. */
module Fetcher {
  import opened Wrappers
  import opened GoStrings
  import opened GoRegexp
  import opened GoTime
  import Extraction
  import Format

  /** The errors the fetcher returns, and the Go runtime panic of a method
      called through a nil pointer. */
  datatype Error =
    | LoadError(reason: string)
    | NotFound(site: string, id: string, url: string)
    | NilDereference
    | UrlError(reason: string)
    | FetchError(reason: string)
    | NoTitleElement(site: string)
    | DocNil(site: string, url: string)
    | NoDateElement(site: string, url: string)
    | NoDateValue(site: string, url: string)
    | TimeParseError(reason: string)
    | TimeOverDays
    | RawNil(site: string, url: string)
    | NoParagraph
  {
    /** The text `Error()` returns. */
    function Message(): string
    {
      match this
      case LoadError(reason) => reason
      case NotFound(site, id, url) => "[" + site + "] no article with id: " + id + ", url: " + url
      case NilDereference => "runtime error: invalid memory address or nil pointer dereference"
      case UrlError(reason) => reason
      case FetchError(reason) => reason
      case NoTitleElement(site) => "[" + site + "] getTitle error, there is no element <title>"
      case DocNil(site, url) => "[" + site + "] fetchUpdateTime: doc is nil: " + url
      case NoDateElement(site, url) => "[" + site + "] fetchUpdateTime extract nothing: " + url
      case NoDateValue(site, url) => "[" + site + "] fetchUpdateTime got nothing: " + url
      case TimeParseError(reason) => reason
      case TimeOverDays => "article update time out of range"
      case RawNil(site, url) => "[" + site + "] fetchContent: raw is nil: " + url
      case NoParagraph => "no <p> matched"
    }
  }

  /** A parsed `*url.URL`, represented by what its `String()` returns. */
  datatype Url = Url(text: string)

  /** What the fetcher reads from a parsed page: the text of the first
      `<title>` element and the `datetime` value inside the first
      `span.td-post-date`, each `None` when the element is missing. */
  datatype Doc = Doc(title: Option<string>, postDate: Option<string>)

  /** What `exhtml.GetRawAndDoc` hands back: the raw bytes and the parsed tree,
      either of which may be nil. */
  datatype Page = Page(raw: Option<string>, doc: Option<Doc>)

  /** `configs.Data.MS`: the site's domain and title. */
  datatype Config = Config(domain: string, title: string)

  /** The library calls the fetcher makes, as functions. */
  datatype Lib = Lib(
    md5Hex: string -> string,                          // fmt.Sprintf("%x", md5.Sum(...))
    parseUrl: string -> Result<Url, string>,           // url.Parse
    getRawAndDoc: Url -> Result<Page, string>,         // exhtml.GetRawAndDoc with the configured timeout
    replaceIllegalChar: string -> string,              // gears.ReplaceIllegalChar
    parseRfc3339: string -> Result<Timestamp, string>, // time.Parse(time.RFC3339, ...) and timestamppb.New
    formatRfc3339: Timestamp -> string,                // AsTime().Format(time.RFC3339)
    queryUnescape: string -> Result<string, string>,   // url.QueryUnescape
    contentDiv: string -> string                       // exhtml.DivWithAttr2(raw, "class", "td-post-content tagdiv-type")
  )

  /** Everything outside the fetcher: configuration, library and clock
      (`time.Now()` and the offset of the local zone). */
  datatype Env = Env(config: Config, lib: Lib, now: Timestamp, localOffset: int)

  /** `time.Now().Day()`. */
  function NowDay(env: Env): int
  {
    Day(Time(env.now, env.localOffset))
  }

  /** The fields of an `Article` as a value. */
  datatype ArticleState = ArticleState(
    Id: string, Title: string, Content: string,
    WebsiteId: string, WebsiteDomain: string, WebsiteTitle: string,
    UpdateTime: Option<Timestamp>, U: Option<Url>,
    raw: Option<string>, doc: Option<Doc>)

  /** What `NewArticle` builds. */
  function Fresh(env: Env): ArticleState
  {
    ArticleState("", "", "", env.lib.md5Hex(env.config.domain), env.config.domain, env.config.title,
                 None, None, None, None)
  }

  /** The error `Get` means to return when no article has the id: `%s` on a
      nil `*url.URL` prints `<nil>`. */
  function NotFoundError(site: string, id: string, u: Option<Url>): Error
  {
    NotFound(site, id, match u case None => "<nil>" case Some(x) => x.text)
  }

  /** The not-found path as written: `a.U.String()` is called directly, and
      on a nil `U` it dereferences nil. */
  function NotFoundErrorAsWritten(site: string, id: string, u: Option<Url>): Error
  {
    match u
    case None => NilDereference
    case Some(x) => NotFound(site, id, x.text)
  }

  /** The not-found message names the id it was asked for. */
  lemma NotFoundMentionsId(site: string, id: string, u: Option<Url>)
    ensures Contains(NotFoundError(site, id, u).Message(), id)
  {
    var e := NotFoundError(site, id, u);
    ContainsInfix("[" + site + "] no article with id: ", id, ", url: " + e.url);
    assert e.Message() == ("[" + site + "] no article with id: ") + id + (", url: " + e.url);
  }

  /** On an article whose `U` was never set (what `NewArticle` returns), the
      not-found path as written panics instead of reporting the id; the
      corrected error reports it. */
  lemma GetNotFoundOnFreshArticle(env: Env, id: string)
    ensures Fresh(env).U.None?
    ensures NotFoundErrorAsWritten(env.config.title, id, Fresh(env).U) == NilDereference
    ensures NotFoundError(env.config.title, id, Fresh(env).U).Message()
         == "[" + env.config.title + "] no article with id: " + id + ", url: <nil>"
  {
  }

  /** The title `fetchTitle` returns for a parsed page: the trimmed text of
      the first `<title>` with illegal characters replaced. */
  function TitleOf(env: Env, doc: Option<Doc>): Result<string, Error>
  {
    match doc
    case None => Err(NoTitleElement(env.config.title))
    case Some(d) =>
      match d.title
      case None => Err(NoTitleElement(env.config.title))
      case Some(t) => Ok(env.lib.replaceIllegalChar(TrimSpace(t)))
  }

  /** The update time `fetchUpdateTime` returns: the parsed `datetime`
      value, or one of its four errors. */
  function UpdateTimeOf(env: Env, doc: Option<Doc>, u: Url): Result<Timestamp, Error>
  {
    match doc
    case None => Err(DocNil(env.config.title, u.text))
    case Some(d) =>
      match d.postDate
      case None => Err(NoDateElement(env.config.title, u.text))
      case Some(v) =>
        if v == "" then Err(NoDateValue(env.config.title, u.text))
        else match env.lib.parseRfc3339(v)
          case Err(e) => Err(TimeParseError(e))
          case Ok(t) => Ok(t)
  }

  /** The `during` test of `filter`: the day of the month now, less the day
      of the month of `ts` in UTC+8, is at most `days`. */
  predicate During(nowDay: int, days: int, ts: Timestamp)
  {
    nowDay - Day(Shanghai(ts)) <= days
  }

  /** When now and the article fall in the same month of UTC+8, the test
      counts whole calendar days between them. */
  lemma DuringWithinMonth(now: Timestamp, days: int, ts: Timestamp)
    requires CivilFromDays(WallDays(Shanghai(now))).year == CivilFromDays(WallDays(Shanghai(ts))).year
    requires CivilFromDays(WallDays(Shanghai(now))).month == CivilFromDays(WallDays(Shanghai(ts))).month
    ensures During(Day(Shanghai(now)), days, ts) <==> WallDays(Shanghai(now)) - WallDays(Shanghai(ts)) <= days
  {
    SameMonthDays(WallDays(Shanghai(now)), WallDays(Shanghai(ts)));
  }

  /** Across a month boundary the test compares days of the month only: at
      2021-03-02T04:00:00Z (the 2nd at UTC+8) an article of
      2021-01-29T12:00:00Z (the 29th at UTC+8), more than 31 days old, passes
      a three-day filter. */
  lemma DuringAcrossMonths()
    ensures Day(Time(Timestamp(1_614_657_600, 0), ShanghaiOffset)) == 2
    ensures Day(Shanghai(Timestamp(1_611_921_600, 0))) == 29
    ensures During(2, 3, Timestamp(1_611_921_600, 0))
    ensures 1_614_657_600 - 1_611_921_600 > 31 * SecondsPerDay
  {
    DayOfMarchExample();
    DayOfJanuaryExample();
  }

  /** What `fetchContent` returns for the fields `raw` and `U`. */
  function ContentOf(env: Env, raw: Option<string>, u: Option<Url>): Result<string, Error>
  {
    match raw
    case None => Err(if u.None? then NilDereference else RawNil(env.config.title, u.value.text))
    case Some(page) =>
      match Extraction.Extract(env.lib.contentDiv(page))
      case None => Err(NoParagraph)
      case Some(body) => Ok(body)
  }

  /** `fetchContent` fails with "no <p> matched" exactly when the container
      holds no paragraph match; otherwise its body is free of corner quotes
      and of tags within a line, and its characters appear in order in the
      quote-converted join of the captured paragraphs, from which those
      paragraphs can be split back. When the join holds no `<`, the body is
      that quote-converted join with the sign-in prompt deleted. */
  lemma ContentOfSpec(env: Env, page: string, u: Option<Url>)
    ensures var frag := env.lib.contentDiv(page);
      (ContentOf(env, Some(page), u) == Err(NoParagraph)) <==> (forall i :: 0 <= i <= |frag| ==> ParagraphAt(frag[i..]).None?)
    ensures var frag := env.lib.contentDiv(page);
      var joined := Extraction.JoinParagraphs(Captures(frag));
      ContentOf(env, Some(page), u).Ok? ==>
        && Extraction.SplitParagraphs(joined) == Captures(frag)
        && '「' !in ContentOf(env, Some(page), u).value
        && '」' !in ContentOf(env, Some(page), u).value
        && Extraction.NoTagOnLine(ContentOf(env, Some(page), u).value)
        && Subseq(ContentOf(env, Some(page), u).value, Extraction.Unquote(joined))
        && ('<' !in joined ==>
              ContentOf(env, Some(page), u).value == DeleteLiteral(Extraction.LoginPrompt, Extraction.Unquote(joined)))
  {
    var frag := env.lib.contentDiv(page);
    Extraction.ExtractSpec(frag);
    Extraction.ScrubSpec(Extraction.JoinParagraphs(Captures(frag)));
  }

  /** The document `fmtContent` makes of `body` from the article's title,
      update time, website fields and URL `u`. */
  function Render(env: Env, title: string, updateTime: Option<Timestamp>, websiteTitle: string, websiteDomain: string,
                  u: Url, body: string): string
  {
    Format.FmtContent(title, env.lib.formatRfc3339(OrEpoch(updateTime)), websiteTitle, websiteDomain,
                      u.text, env.lib.queryUnescape(u.text), body)
  }

  /** The fields after `fetchArticle(rawurl)` and the error it returns
      (`None` when it returns the article). */
  datatype Fetched = Fetched(state: ArticleState, err: Option<Error>)

  /** `fetchArticle` on values: the stages in order, each failure ending the
      run with the fields as far as they were set. */
  function Fetch(env: Env, rawurl: string, s: ArticleState): Fetched
  {
    match env.lib.parseUrl(rawurl)
    case Err(e) => Fetched(s.(U := None), Some(UrlError(e)))
    case Ok(u) => FetchPage(env, rawurl, u, s.(U := Some(u)))
  }

  /** The run once the URL has parsed to `u`: the page request, then the id. */
  function FetchPage(env: Env, rawurl: string, u: Url, s: ArticleState): Fetched
  {
    match env.lib.getRawAndDoc(u)
    case Err(e) => Fetched(s.(raw := None, doc := None), Some(FetchError(e)))
    case Ok(page) => FetchFields(env, u, s.(raw := page.raw, doc := page.doc, Id := env.lib.md5Hex(rawurl)))
  }

  /** The run once the page has arrived: the title, then the update time. */
  function FetchFields(env: Env, u: Url, s: ArticleState): Fetched
  {
    match TitleOf(env, s.doc)
    case Err(e) => Fetched(s.(Title := ""), Some(e))
    case Ok(title) =>
      var s := s.(Title := title);
      match UpdateTimeOf(env, s.doc, u)
      case Err(e) => Fetched(s.(UpdateTime := None), Some(e))
      case Ok(t) => FetchBody(env, u, s.(UpdateTime := Some(t)))
  }

  /** The run once the update time is set: the three-day filter, then the
      content and its formatting. */
  function FetchBody(env: Env, u: Url, s: ArticleState): Fetched
  {
    if !During(NowDay(env), 3, OrEpoch(s.UpdateTime)) then Fetched(s, Some(TimeOverDays))
    else match ContentOf(env, s.raw, s.U)
      case Err(e) => Fetched(s.(Content := ""), Some(e))
      case Ok(body) => Fetched(s.(Content := Render(env, s.Title, s.UpdateTime, s.WebsiteTitle, s.WebsiteDomain, u, body)), None)
  }

  /** A URL that does not parse changes nothing but `U`, which becomes nil. */
  lemma FetchBadUrl(env: Env, rawurl: string, s: ArticleState)
    requires env.lib.parseUrl(rawurl).Err?
    ensures Fetch(env, rawurl, s) == Fetched(s.(U := None), Some(UrlError(env.lib.parseUrl(rawurl).error)))
  {
  }

  /** Title and update time are found on the page and the update time fails
      the three-day test. */
  predicate Stale(env: Env, u: Url, page: Page)
  {
    && TitleOf(env, page.doc).Ok?
    && UpdateTimeOf(env, page.doc, u).Ok?
    && !During(NowDay(env), 3, UpdateTimeOf(env, page.doc, u).value)
  }

  /** `fetchArticle` fails with the time-out-of-range error exactly when the
      URL parses, the page arrives, title and update time are found and the
      update time fails the three-day test. */
  lemma FetchStale(env: Env, rawurl: string, s: ArticleState)
    ensures Fetch(env, rawurl, s).err == Some(TimeOverDays) <==>
      && env.lib.parseUrl(rawurl).Ok?
      && env.lib.getRawAndDoc(env.lib.parseUrl(rawurl).value).Ok?
      && Stale(env, env.lib.parseUrl(rawurl).value, env.lib.getRawAndDoc(env.lib.parseUrl(rawurl).value).value)
  {
    if env.lib.parseUrl(rawurl).Ok? {
      var u := env.lib.parseUrl(rawurl).value;
      if env.lib.getRawAndDoc(u).Ok? {
        var page := env.lib.getRawAndDoc(u).value;
        FieldsStale(env, u, s.(U := Some(u), raw := page.raw, doc := page.doc, Id := env.lib.md5Hex(rawurl)));
      }
    }
  }

  /** The time-out-of-range error after the page arrived, stage by stage. */
  lemma FieldsStale(env: Env, u: Url, s: ArticleState)
    ensures FetchFields(env, u, s).err == Some(TimeOverDays) <==> Stale(env, u, Page(s.raw, s.doc))
  {
    if TitleOf(env, s.doc).Ok? && UpdateTimeOf(env, s.doc, u).Ok? {
      var s' := s.(Title := TitleOf(env, s.doc).value, UpdateTime := Some(UpdateTimeOf(env, s.doc, u).value));
      var c := ContentOf(env, s'.raw, s'.U);
      assert c.Err? ==> c.error != TimeOverDays;
    }
  }

  /** On the time-out-of-range error the content stage never ran: `Content`
      is as it was. */
  lemma FetchStaleKeepsContent(env: Env, rawurl: string, s: ArticleState)
    requires Fetch(env, rawurl, s).err == Some(TimeOverDays)
    ensures Fetch(env, rawurl, s).state.Content == s.Content
  {
    FetchStale(env, rawurl, s);
  }

  /** A successful `fetchArticle`: every stage succeeded, the id is the hash
      of the URL, the update time passed the three-day test, the website
      fields are those of the article, and `Content` is the formatted
      document: heading, metadata, then the body `fetchContent` returned
      (see `ContentOfSpec`), then the footer linking the URL. */
  lemma FetchSuccess(env: Env, rawurl: string, s: ArticleState)
    requires Fetch(env, rawurl, s).err.None?
    ensures var t := Fetch(env, rawurl, s).state;
      && env.lib.parseUrl(rawurl).Ok? && t.U == Some(env.lib.parseUrl(rawurl).value)
      && t.Id == env.lib.md5Hex(rawurl)
      && t.UpdateTime.Some? && During(NowDay(env), 3, t.UpdateTime.value)
      && t.WebsiteId == s.WebsiteId && t.WebsiteDomain == s.WebsiteDomain && t.WebsiteTitle == s.WebsiteTitle
    ensures var t := Fetch(env, rawurl, s).state;
      var url := env.lib.parseUrl(rawurl).value.text;
      && ContentOf(env, t.raw, t.U).Ok?
      && Format.Layout(t.Content,
                       Format.Preamble(t.Title, env.lib.formatRfc3339(t.UpdateTime.value), t.WebsiteTitle, t.WebsiteDomain),
                       ContentOf(env, t.raw, t.U).value,
                       Format.Footer(url, env.lib.queryUnescape(url)))
      && t.Content[..|"# " + t.Title + "\n\n"|] == "# " + t.Title + "\n\n"
  {
    var u := env.lib.parseUrl(rawurl).value;
    var page := env.lib.getRawAndDoc(u).value;
    var s1 := s.(U := Some(u), raw := page.raw, doc := page.doc, Id := env.lib.md5Hex(rawurl));
    var s2 := s1.(Title := TitleOf(env, s1.doc).value, UpdateTime := Some(UpdateTimeOf(env, s1.doc, u).value));
    assert Fetch(env, rawurl, s) == FetchBody(env, u, s2);
    BodySuccess(env, u, s2);
  }

  /** The last stage, when it succeeds: the filter passed, the content was
      found, and `Content` is the document formatted around it. */
  lemma BodySuccess(env: Env, u: Url, s: ArticleState)
    requires FetchBody(env, u, s).err.None?
    ensures During(NowDay(env), 3, OrEpoch(s.UpdateTime)) && ContentOf(env, s.raw, s.U).Ok?
    ensures var t := FetchBody(env, u, s).state;
      var d := Render(env, s.Title, s.UpdateTime, s.WebsiteTitle, s.WebsiteDomain, u, ContentOf(env, s.raw, s.U).value);
      && t == s.(Content := d)
      && Format.Layout(d, Format.Preamble(s.Title, env.lib.formatRfc3339(OrEpoch(s.UpdateTime)), s.WebsiteTitle, s.WebsiteDomain),
                       ContentOf(env, s.raw, s.U).value,
                       Format.Footer(u.text, env.lib.queryUnescape(u.text)))
      && d[..|"# " + s.Title + "\n\n"|] == "# " + s.Title + "\n\n"
  {
    Format.FmtContentLayout(s.Title, env.lib.formatRfc3339(OrEpoch(s.UpdateTime)), s.WebsiteTitle, s.WebsiteDomain,
                            u.text, env.lib.queryUnescape(u.text), ContentOf(env, s.raw, s.U).value);
  }

  /** The keyword as `Search` compares it: trimmed and lower-cased. */
  function Normalize(kw: string): string
  {
    ToLower(TrimSpace(kw))
  }

  /** A keyword differing only in case normalises alike. */
  lemma NormalizeIgnoresCase(kw: string)
    ensures Normalize(ToLower(kw)) == Normalize(kw)
  {
    TrimSpaceToLower(kw);
    ToLowerIdempotent(TrimSpace(kw));
  }

  /** The cases of `Search`'s switch: some case holds for article `a` and the
      normalised keyword `v`. */
  predicate Matches(a: Article, v: string)
    reads a
  {
    || a.Id == v
    || a.WebsiteId == v
    || Contains(ToLower(a.Title), v)
    || Contains(ToLower(a.Content), v)
    || Contains(ToLower(a.WebsiteDomain), v)
    || Contains(ToLower(a.WebsiteTitle), v)
  }

  /** The keywords as `Search` compares them. */
  function Keys(kws: seq<string>): (vs: seq<string>)
    ensures |vs| == |kws|
  {
    seq(|kws|, i requires 0 <= i < |kws| => Normalize(kws[i]))
  }

  /** Search ignores the case of its keywords and the space around them:
      keywords that agree once trimmed and lower-cased are the same keys. */
  lemma SearchIgnoresCase(kws: seq<string>)
    ensures Keys(seq(|kws|, i requires 0 <= i < |kws| => ToLower(kws[i]))) == Keys(kws)
  {
    var lowered := seq(|kws|, i requires 0 <= i < |kws| => ToLower(kws[i]));
    forall i | 0 <= i < |kws| ensures Keys(lowered)[i] == Keys(kws)[i] {
      NormalizeIgnoresCase(kws[i]);
    }
  }

  /** What the keyword loop appends for one article: the article once for
      every key that matches it, in key order. */
  function Hits(a: Article, vs: seq<string>): seq<Article>
    reads a
  {
    if vs == [] then []
    else Hits(a, vs[..|vs| - 1]) + (if Matches(a, vs[|vs| - 1]) then [a] else [])
  }

  /** What `Search` returns for the loaded articles `xs` and the keys `vs`:
      the hits of each article, in load order. */
  function Found(xs: seq<Article>, vs: seq<string>): seq<Article>
    reads xs
  {
    if xs == [] then []
    else Found(xs[..|xs| - 1], vs) + Hits(xs[|xs| - 1], vs)
  }

  /** The hits of an article are copies of it, at most one per key, and
      there are none exactly when no key matches. */
  lemma {:induction false} HitsSpec(a: Article, vs: seq<string>)
    ensures forall y :: y in Hits(a, vs) ==> y == a
    ensures |Hits(a, vs)| <= |vs|
    ensures Hits(a, vs) == [] <==> forall k :: 0 <= k < |vs| ==> !Matches(a, vs[k])
  {
    if vs != [] {
      var init := vs[..|vs| - 1];
      HitsSpec(a, init);
      assert forall k :: 0 <= k < |init| ==> init[k] == vs[k];
    }
  }

  /** An article occurs in the result exactly when it was loaded and some
      key matches it. */
  lemma {:induction false} SearchMembership(xs: seq<Article>, vs: seq<string>, x: Article)
    ensures x in Found(xs, vs) <==> x in xs && exists k :: 0 <= k < |vs| && Matches(x, vs[k])
  {
    if xs != [] {
      var init, last := xs[..|xs| - 1], xs[|xs| - 1];
      SearchMembership(init, vs, x);
      HitsSpec(last, vs);
      SplitLast(xs);
      assert Found(xs, vs) == Found(init, vs) + Hits(last, vs);
      if Hits(last, vs) != [] {
        assert Hits(last, vs)[0] in Hits(last, vs);
      }
    }
  }

  /** Appending to a concatenation appends to its second part. */
  lemma AppendAssoc(p: seq<Article>, q: seq<Article>, e: seq<Article>)
    ensures (p + q) + e == p + (q + e)
  {
  }

  /** The prefix as long as the sequence is the sequence. */
  lemma WholePrefix<T>(s: seq<T>, n: nat)
    requires n == |s|
    ensures s[..n] == s
  {
  }

  /** A non-empty sequence is its prefix followed by its last element. */
  lemma SplitLast(xs: seq<Article>)
    requires xs != []
    ensures xs == xs[..|xs| - 1] + [xs[|xs| - 1]]
  {
  }

  /** A sequence of copies of `x` holds `x` as many times as it is long. */
  lemma {:induction false} AllCopies(s: seq<Article>, x: Article)
    requires forall y :: y in s ==> y == x
    ensures multiset(s)[x] == |s|
  {
    if s != [] {
      assert s == [s[0]] + s[1..];
      assert s[0] in s;
      assert forall y :: y in s[1..] ==> y in s;
      AllCopies(s[1..], x);
    }
  }

  /** An article's hits hold `x` once per matching key if the article is `x`,
      and not at all otherwise. */
  lemma HitsCount(a: Article, vs: seq<string>, x: Article)
    ensures multiset(Hits(a, vs))[x] == if a == x then |Hits(x, vs)| else 0
  {
    HitsSpec(a, vs);
    if a == x {
      AllCopies(Hits(a, vs), x);
    } else {
      assert x !in Hits(a, vs);
    }
  }

  /** The count of `x` in the result grows by its count in the last
      article's hits. */
  lemma FoundCount(xs: seq<Article>, vs: seq<string>, x: Article)
    requires xs != []
    ensures multiset(Found(xs, vs))[x]
         == multiset(Found(xs[..|xs| - 1], vs))[x] + multiset(Hits(xs[|xs| - 1], vs))[x]
  {
  }

  /** Each loaded copy of an article appears in the result once per matching
      key: duplicates come only from several keys matching, or from the
      article being loaded more than once. */
  lemma {:induction false} SearchMultiplicity(xs: seq<Article>, vs: seq<string>, x: Article)
    ensures multiset(Found(xs, vs))[x] == multiset(xs)[x] * |Hits(x, vs)|
  {
    if xs != [] {
      var init, last := xs[..|xs| - 1], xs[|xs| - 1];
      SearchMultiplicity(init, vs, x);
      FoundCount(xs, vs, x);
      HitsCount(last, vs, x);
      var counts: multiset<Article> := multiset(init);
      assert multiset(xs)[x] == counts[x] + (if last == x then 1 else 0) by {
        SplitLast(xs);
      }
      CountStep(multiset(Found(xs, vs))[x], multiset(Found(init, vs))[x],
                multiset(xs)[x], counts[x], |Hits(x, vs)|, last == x);
    }
  }

  /** The arithmetic of one step of `SearchMultiplicity`. */
  lemma CountStep(f: int, fi: int, n: int, m: int, h: int, same: bool)
    requires fi == m * h
    requires f == fi + (if same then h else 0)
    requires n == m + (if same then 1 else 0)
    ensures f == n * h
  {
    if same {
      assert n * h == m * h + h;
    }
  }

  /** The result holds at most one entry per (article, keyword) pair. */
  lemma {:induction false} SearchSize(xs: seq<Article>, vs: seq<string>)
    ensures |Found(xs, vs)| <= |xs| * |vs|
  {
    if xs != [] {
      SearchSize(xs[..|xs| - 1], vs);
      HitsSpec(xs[|xs| - 1], vs);
      assert (|xs| - 1) * |vs| + |vs| == |xs| * |vs|;
    }
  }

  /** The loaded articles a key matches, in load order. */
  function Filtered(xs: seq<Article>, v: string): seq<Article>
    reads xs
  {
    if xs == [] then []
    else Filtered(xs[..|xs| - 1], v) + (if Matches(xs[|xs| - 1], v) then [xs[|xs| - 1]] else [])
  }

  /** With one key, the result is the loaded articles that match it, in load
      order; the empty key (a blank keyword) matches them all. */
  lemma {:induction false} SearchOneKey(xs: seq<Article>, v: string)
    ensures Found(xs, [v]) == Filtered(xs, v)
    ensures v == "" ==> Found(xs, [v]) == xs
  {
    if xs != [] {
      var init, last := xs[..|xs| - 1], xs[|xs| - 1];
      SearchOneKey(init, v);
      assert [v][..0] == [];
      assert Hits(last, [v]) == (if Matches(last, v) then [last] else []);
      if v == "" {
        ContainsEmpty(ToLower(last.Title));
        SplitLast(xs);
      }
    }
  }

  /** One more key extends the hits by the article when the key matches. */
  lemma HitsStep(a: Article, vs: seq<string>, j: int)
    requires 0 <= j < |vs|
    ensures Hits(a, vs[..j + 1]) == Hits(a, vs[..j]) + (if Matches(a, vs[j]) then [a] else [])
  {
    assert vs[..j + 1][..j] == vs[..j];
  }

  /** One more keyword extends the hits by the article when the keyword,
      normalised, matches. */
  lemma KeyStep(a: Article, kws: seq<string>, j: int)
    requires 0 <= j < |kws|
    ensures Hits(a, Keys(kws)[..j + 1]) == Hits(a, Keys(kws)[..j]) + (if Matches(a, Normalize(kws[j])) then [a] else [])
  {
    HitsStep(a, Keys(kws), j);
  }

  /** One more article extends the result by its hits. */
  lemma FoundStep(xs: seq<Article>, vs: seq<string>, i: int)
    requires 0 <= i < |xs|
    ensures Found(xs[..i + 1], vs) == Found(xs[..i], vs) + Hits(xs[i], vs)
  {
    assert xs[..i + 1][..i] == xs[..i];
  }

  /** An index of the first article with the id. */
  predicate FirstWithId(xs: seq<Article>, id: string, k: int)
    reads xs
  {
    0 <= k < |xs| && xs[k].Id == id && forall i :: 0 <= i < k ==> xs[i].Id != id
  }

  /** A news article, fetched or loaded. */
  class Article {
    var Id: string
    var Title: string
    var Content: string
    var WebsiteId: string
    var WebsiteDomain: string
    var WebsiteTitle: string
    var UpdateTime: Option<Timestamp>
    var U: Option<Url>
    var raw: Option<string>
    var doc: Option<Doc>

    /** The fields as a value. */
    function State(): ArticleState
      reads this
    {
      ArticleState(Id, Title, Content, WebsiteId, WebsiteDomain, WebsiteTitle, UpdateTime, U, raw, doc)
    }

    /** `NewArticle`: the website fields from the configuration, the website
        id the hash of the domain, everything else empty. */
    constructor (env: Env)
      ensures State() == Fresh(env)
    {
      Id, Title, Content := "", "", "";
      WebsiteDomain := env.config.domain;
      WebsiteTitle := env.config.title;
      WebsiteId := env.lib.md5Hex(env.config.domain);
      UpdateTime, U, raw, doc := None, None, None, None;
    }

    /** `Get(id)` over what `load()` returned: the first loaded article with
        the id, or the not-found error naming the id. */
    method Get(env: Env, loaded: Result<seq<Article>, Error>, id: string) returns (r: Result<Article, Error>)
      ensures loaded.Err? ==> r == Err(loaded.error)
      ensures loaded.Ok? && r.Ok? ==> exists k :: FirstWithId(loaded.value, id, k) && r.value == loaded.value[k]
      ensures loaded.Ok? && r.Err? ==>
        && (forall k :: 0 <= k < |loaded.value| ==> loaded.value[k].Id != id)
        && r.error == NotFoundError(env.config.title, id, U)
    {
      if loaded.Err? {
        return Err(loaded.error);
      }
      var xs := loaded.value;
      for i := 0 to |xs|
        invariant forall k :: 0 <= k < i ==> xs[k].Id != id
      {
        if xs[i].Id == id {
          assert FirstWithId(xs, id, i);
          return Ok(xs[i]);
        }
      }
      return Err(NotFoundError(env.config.title, id, U));
    }

    /** `Search(keyword...)` over what `load()` returned. */
    method Search(loaded: Result<seq<Article>, Error>, keyword: seq<string>) returns (r: Result<seq<Article>, Error>)
      ensures loaded.Err? ==> r == Err(loaded.error)
      ensures loaded.Ok? ==> r == Ok(Found(loaded.value, Keys(keyword)))
    {
      if loaded.Err? {
        return Err(loaded.error);
      }
      var xs := loaded.value;
      var found: seq<Article> := [];
      for i := 0 to |xs|
        invariant found == Found(xs[..i], Keys(keyword))
      {
        var a := xs[i];
        for j := 0 to |keyword|
          invariant found == Found(xs[..i], Keys(keyword)) + Hits(a, Keys(keyword)[..j])
        {
          var v := Normalize(keyword[j]);
          KeyStep(a, keyword, j);
          if Matches(a, v) {
            AppendAssoc(Found(xs[..i], Keys(keyword)), Hits(a, Keys(keyword)[..j]), [a]);
            found := found + [a];
          }
        }
        WholePrefix(Keys(keyword), |keyword|);
        FoundStep(xs, Keys(keyword), i);
      }
      WholePrefix(xs, |xs|);
      return Ok(found);
    }

    /** `filter(days)`: the article itself when its update time (the epoch if
        unset) passes the day-of-month test, the out-of-range error otherwise. */
    method Filter(env: Env, days: int) returns (r: Result<Article, Error>)
      ensures r.Ok? <==> NowDay(env) - Day(Shanghai(OrEpoch(UpdateTime))) <= days
      ensures r.Ok? ==> r.value == this
      ensures r.Err? ==> r.error == TimeOverDays
    {
      if !During(NowDay(env), days, OrEpoch(UpdateTime)) {
        return Err(TimeOverDays);
      }
      return Ok(this);
    }

    /** `fetchContent`: collects the paragraph captures of the container,
        joins them and runs the rewrite passes. */
    method FetchContent(env: Env) returns (r: Result<string, Error>)
      ensures r == ContentOf(env, raw, U)
    {
      if raw.None? {
        if U.None? {
          return Err(NilDereference);
        }
        return Err(RawNil(env.config.title, U.value.text));
      }
      var fragment := env.lib.contentDiv(raw.value);
      // The scan already keeps group 1 of each match.
      var ps := Captures(fragment);
      if |ps| == 0 {
        return Err(NoParagraph);
      }
      var b := "";
      for i := 0 to |ps|
        invariant b == Extraction.JoinParagraphs(ps[..i])
      {
        Extraction.JoinParagraphsAppend(ps[..i], ps[i]);
        assert ps[..i + 1] == ps[..i] + [ps[i]];
        b := b + ps[i];
        b := b + Extraction.ParagraphEnd;
      }
      WholePrefix(ps, |ps|);
      var body := b;
      body := ReplaceChar('「', '“', body);
      body := ReplaceChar('」', '”', body);
      body := DeleteLazy("<", ">", body);
      body := DeleteLiteral(Extraction.LoginPrompt, body);
      body := Extraction.BlockPass("script", body);
      body := Extraction.BlockPass("blockquote", body);
      body := Extraction.BlockPass("iframe", body);
      body := Extraction.BlockPass("strong", body);
      return Ok(body);
    }

    /** The result `fetchArticle` returns for a run that ended with `err`. */
    function Outcome(err: Option<Error>): Result<Article, Error>
    {
      match err
      case None => Ok(this)
      case Some(e) => Err(e)
    }

    /** `fetchArticle(rawurl)`: runs the stages in order, setting the fields
        as it goes, and returns the article or the first error. */
    method FetchArticle(env: Env, rawurl: string) returns (r: Result<Article, Error>)
      modifies this
      ensures State() == Fetch(env, rawurl, old(State())).state
      ensures r == Outcome(Fetch(env, rawurl, old(State())).err)
    {
      var parsed := env.lib.parseUrl(rawurl);
      if parsed.Err? {
        U := None;
        return Err(UrlError(parsed.error));
      }
      U := Some(parsed.value);
      r := FetchArticlePage(env, rawurl, parsed.value);
    }

    /** The rest of `fetchArticle` once the URL has parsed: the page request
        and the id. */
    method FetchArticlePage(env: Env, rawurl: string, u: Url) returns (r: Result<Article, Error>)
      modifies this
      ensures State() == FetchPage(env, rawurl, u, old(State())).state
      ensures r == Outcome(FetchPage(env, rawurl, u, old(State())).err)
    {
      var page := env.lib.getRawAndDoc(u);
      if page.Err? {
        raw, doc := None, None;
        return Err(FetchError(page.error));
      }
      raw, doc := page.value.raw, page.value.doc;
      Id := env.lib.md5Hex(rawurl);
      r := FetchArticleFields(env, u);
    }

    /** The rest of `fetchArticle` once the page has arrived: the title and
        the update time. */
    method FetchArticleFields(env: Env, u: Url) returns (r: Result<Article, Error>)
      modifies this
      ensures State() == FetchFields(env, u, old(State())).state
      ensures r == Outcome(FetchFields(env, u, old(State())).err)
    {
      var title := TitleOf(env, doc);
      if title.Err? {
        Title := "";
        return Err(title.error);
      }
      Title := title.value;
      var ts := UpdateTimeOf(env, doc, u);
      if ts.Err? {
        UpdateTime := None;
        return Err(ts.error);
      }
      UpdateTime := Some(ts.value);
      r := FetchArticleBody(env, u);
    }

    /** The rest of `fetchArticle` once the update time is set: the
        three-day filter, the content and its formatting. */
    method FetchArticleBody(env: Env, u: Url) returns (r: Result<Article, Error>)
      modifies this
      ensures State() == FetchBody(env, u, old(State())).state
      ensures r == Outcome(FetchBody(env, u, old(State())).err)
    {
      var kept := Filter(env, 3);
      if kept.Err? {
        return Err(kept.error);
      }
      var body := FetchContent(env);
      if body.Err? {
        Content := "";
        return Err(body.error);
      }
      Content := body.value;
      Content := Render(env, Title, UpdateTime, WebsiteTitle, WebsiteDomain, u, Content);
      return Ok(this);
    }
  }
}
