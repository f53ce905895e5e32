/** `fmtContent` (internal/fetcher/article.go:269-286): the markdown document
    wrapped around an extracted body. */
module Format {
  import opened Wrappers

  /** The link target in the footer: the unescaped URL, or, when unescaping
      fails, the URL as it is followed by a note with the error text. */
  function LinkTarget(url: string, unescaped: Result<string, string>): string
  {
    match unescaped
    case Ok(u) => u
    case Err(e) => url + "\n\nunescape url error:\n" + e
  }

  /** The ` @ [title](/list/?v=title): [domain](http://domain)` part; the
      `%[1]s` verb repeats the website title, not the domain. */
  function WebTitle(websiteTitle: string, websiteDomain: string): string
  {
    " @ [" + websiteTitle + "](/list/?v=" + websiteTitle + "): [" + websiteDomain + "](http://" + websiteDomain + ")"
  }

  /** Everything before the body: the title heading, the update time with
      the website links, and a rule. */
  function Preamble(title: string, lastUpdate: string, websiteTitle: string, websiteDomain: string): string
  {
    "# " + title + "\n\n" + "LastUpdate: " + lastUpdate + WebTitle(websiteTitle, websiteDomain) + "\n\n" + "---\n"
  }

  /** Everything after the body: a blank line and the line linking back to
      the source. */
  function Footer(url: string, unescaped: Result<string, string>): string
  {
    var u := LinkTarget(url, unescaped);
    "\n\n" + "原地址：" + "[" + u + "](" + u + ")"
  }

  /** The document `fmtContent` builds. Its error result is always nil. */
  function FmtContent(title: string, lastUpdate: string, websiteTitle: string, websiteDomain: string,
                      url: string, unescaped: Result<string, string>, body: string): string
  {
    Preamble(title, lastUpdate, websiteTitle, websiteDomain) + body + Footer(url, unescaped)
  }

  /** The three parts of a concatenation can be read back by position. */
  lemma Parts(p: string, b: string, f: string)
    ensures var d := p + b + f;
      && d[..|p|] == p
      && d[|d| - |f|..] == f
      && d[|p|..|d| - |f|] == b
  {
  }

  /** `d` reads as `p`, then `body`, then `f`. */
  predicate Layout(d: string, p: string, body: string, f: string)
  {
    && |d| == |p| + |body| + |f|
    && d[..|p|] == p
    && d[|d| - |f|..] == f
    && d[|p|..|d| - |f|] == body
  }

  /** The document opens with the title heading and the preamble, closes with
      the footer after a blank line, and the body can be read back from
      between them. */
  lemma FmtContentLayout(title: string, lastUpdate: string, websiteTitle: string, websiteDomain: string,
                         url: string, unescaped: Result<string, string>, body: string)
    ensures var d := FmtContent(title, lastUpdate, websiteTitle, websiteDomain, url, unescaped, body);
      && Layout(d, Preamble(title, lastUpdate, websiteTitle, websiteDomain), body, Footer(url, unescaped))
      && d[..|"# " + title + "\n\n"|] == "# " + title + "\n\n"
  {
    var p := Preamble(title, lastUpdate, websiteTitle, websiteDomain);
    var f := Footer(url, unescaped);
    var h := "# " + title + "\n\n";
    Parts(p, body, f);
    assert p[..|h|] == h;
  }

  /** Two bodies formatted with the same metadata give the same document only
      if they are the same body. */
  lemma FmtContentInjective(title: string, lastUpdate: string, websiteTitle: string, websiteDomain: string,
                            url: string, unescaped: Result<string, string>, b1: string, b2: string)
    requires FmtContent(title, lastUpdate, websiteTitle, websiteDomain, url, unescaped, b1)
          == FmtContent(title, lastUpdate, websiteTitle, websiteDomain, url, unescaped, b2)
    ensures b1 == b2
  {
    FmtContentLayout(title, lastUpdate, websiteTitle, websiteDomain, url, unescaped, b1);
    FmtContentLayout(title, lastUpdate, websiteTitle, websiteDomain, url, unescaped, b2);
  }
}
