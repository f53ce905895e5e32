/** The text work of `fetchContent` (internal/fetcher/article.go:222-266) once
    the content container has been isolated: collect the paragraphs, join them,
    then run the ordered chain of rewrites. */
module Extraction {
  import opened Wrappers
  import opened GoStrings
  import opened GoRegexp

  /** What `fetchContent` writes after every paragraph. */
  const ParagraphEnd := "  \n"

  /** The sign-in prompt the site leaves in article bodies, deleted verbatim. */
  const LoginPrompt := "Log in to leave a comment   "

  /** The buffer `b` after the write loop: each paragraph followed by `ParagraphEnd`. */
  function JoinParagraphs(ps: seq<string>): string
  {
    if ps == [] then "" else ps[0] + ParagraphEnd + JoinParagraphs(ps[1..])
  }

  /** One more loop iteration appends one paragraph and its terminator. */
  lemma {:induction false} JoinParagraphsAppend(ps: seq<string>, p: string)
    ensures JoinParagraphs(ps + [p]) == JoinParagraphs(ps) + p + ParagraphEnd
    decreases |ps|
  {
    if ps == [] {
      assert [p][1..] == [];
    } else {
      assert (ps + [p])[1..] == ps[1..] + [p];
      JoinParagraphsAppend(ps[1..], p);
    }
  }

  /** Cuts a joined body back into paragraphs: each line without its newline
      and without the two spaces before it. */
  function SplitParagraphs(s: string): seq<string>
    decreases |s|
  {
    if s == [] then []
    else match FindOnLine("\n", s)
      case None => [s]
      case Some(k) => [s[..if k < 2 then 0 else k - 2]] + SplitParagraphs(s[k + 1..])
  }

  /** In a joined body the first line ends right after the first paragraph
      and its two spaces. */
  lemma FirstLineEnd(p: string, rest: string)
    requires '\n' !in p
    ensures FindOnLine("\n", p + ParagraphEnd + rest) == Some(|p| + 2)
  {
    var s := p + ParagraphEnd + rest;
    var k := |p| + 2;
    assert s[..k] == p + "  ";
    assert s[k..k + 1] == "\n";
    assert forall i :: 0 <= i < k ==> s[i] == s[..k][i] != '\n';
    var r := FindOnLine("\n", s);
    assert r.Some?;
    var j := r.value;
    assert s[j] == s[j..j + 1][0] == '\n';
    assert j >= k;
    assert !(k < j);
  }

  /** The joined body determines the paragraphs: cutting it at its newlines
      gives them back, provided none of them holds a newline (which the
      paragraph scan guarantees). */
  lemma {:induction false} SplitJoin(ps: seq<string>)
    requires forall i :: 0 <= i < |ps| ==> '\n' !in ps[i]
    ensures SplitParagraphs(JoinParagraphs(ps)) == ps
    decreases |ps|
  {
    if ps != [] {
      var p := ps[0];
      var rest := JoinParagraphs(ps[1..]);
      var s := JoinParagraphs(ps);
      assert s == p + ParagraphEnd + rest;
      FirstLineEnd(p, rest);
      assert s[|p| + 3..] == rest;
      assert s[..|p|] == p;
      SplitJoin(ps[1..]);
    }
  }

  /** The two quote passes: 「 becomes “ and 」 becomes ”. */
  function Unquote(s: string): string
  {
    ReplaceChar('」', '”', ReplaceChar('「', '“', s))
  }

  /** The `<.*?>` pass. */
  function StripTags(s: string): string
  {
    DeleteLazy("<", ">", s)
  }

  /** `<name.*?</name>`: the start of an element through its end tag. */
  function BlockPass(name: string, s: string): string
  {
    DeleteLazy("<" + name, "</" + name + ">", s)
  }

  /** The rewrites of article.go:239-264, in their order. */
  function Scrub(body: string): string
  {
    var b := StripTags(Unquote(body));
    var b := DeleteLiteral(LoginPrompt, b);
    var b := BlockPass("script", b);
    var b := BlockPass("blockquote", b);
    var b := BlockPass("iframe", b);
    BlockPass("strong", b)
  }

  /** The body `fetchContent` returns for a container fragment, or `None` for
      "no <p> matched". */
  function Extract(fragment: string): Option<string>
  {
    var ps := Captures(fragment);
    if ps == [] then None else Some(Scrub(JoinParagraphs(ps)))
  }

  /** After the quote passes each 「 is “, each 」 is ”, every other character
      is untouched, and no corner bracket is left. */
  lemma UnquoteSpec(s: string)
    ensures |Unquote(s)| == |s|
    ensures forall i :: 0 <= i < |s| ==>
      Unquote(s)[i] == (if s[i] == '「' then '“' else if s[i] == '」' then '”' else s[i])
    ensures '「' !in Unquote(s) && '」' !in Unquote(s)
  {
  }

  /** No `<` is followed by a `>` before the next newline: nothing in `t` is
      left for `<.*?>` to match. */
  predicate TagFree(t: string)
    decreases |t|
  {
    t == [] || ((t[0] == '<' ==> FindOnLine(">", t[1..]).None?) && TagFree(t[1..]))
  }

  /** The same property stated over positions. */
  ghost predicate NoTagOnLine(t: string)
  {
    forall i, j :: 0 <= i < j < |t| && t[i] == '<' && t[j] == '>' ==> '\n' in t[i + 1..j]
  }

  lemma {:induction false} TagFreeNoTag(t: string)
    requires TagFree(t)
    ensures NoTagOnLine(t)
    decreases |t|
  {
    if t != [] {
      TagFreeNoTag(t[1..]);
      forall i, j | 0 <= i < j < |t| && t[i] == '<' && t[j] == '>' ensures '\n' in t[i + 1..j] {
        if i == 0 {
          assert OccursAt(t[1..], j - 1, ">");
          assert t[1..][..j - 1] == t[1..j];
        } else {
          assert t[1..][i - 1] == '<' && t[1..][j - 1] == '>';
          assert t[1..][i..j - 1] == t[i + 1..j];
        }
      }
    }
  }

  lemma TagFreeSuffix(t: string, n: nat)
    requires TagFree(t) && n <= |t|
    ensures TagFree(t[n..])
    decreases n
  {
    if n > 0 {
      assert t[1..][n - 1..] == t[n..];
      TagFreeSuffix(t[1..], n - 1);
    }
  }

  /** A `>` on the first line of `t` makes `.*?>` succeed. */
  lemma GtOnFirstLine(t: string, m: nat)
    requires OccursAt(t, m, ">") && '\n' !in t[..m]
    ensures FindOnLine(">", t).Some?
  {
  }

  /** If the first line of `u` holds no `>`, the tag pass cannot put one there. */
  lemma {:induction false} StripTagsKeepsNoClose(u: string)
    requires FindOnLine(">", u).None?
    ensures FindOnLine(">", StripTags(u)).None?
    decreases |u|
  {
    if u != [] {
      assert !OccursAt(u, 0, ">");
      if u[0] != '\n' {
        assert FindOnLine(">", u[1..]).None?;
        StripTagsKeepsNoClose(u[1..]);
      }
      assert LazyMatch("<", ">", u).None?;
      var r := StripTags(u);
      assert r == [u[0]] + StripTags(u[1..]);
      assert r[1..] == StripTags(u[1..]);
    }
  }

  /** After the `<.*?>` pass nothing is left for it to match. */
  lemma {:induction false} StripTagsTagFree(s: string)
    ensures TagFree(StripTags(s))
    decreases |s|
  {
    if s != [] {
      match LazyMatch("<", ">", s)
      case Some(n) =>
        StripTagsTagFree(s[n..]);
      case None =>
        StripTagsTagFree(s[1..]);
        if s[0] == '<' {
          StripTagsKeepsNoClose(s[1..]);
        }
        var r := StripTags(s);
        assert r == [s[0]] + StripTags(s[1..]);
        assert r[1..] == StripTags(s[1..]);
    }
  }

  /** Skipping a prefix without `>` or newline keeps the first line free of `>`. */
  lemma {:induction false} SkipNoClose(u: string, m: nat)
    requires FindOnLine(">", u).None? && m <= |u|
    requires '>' !in u[..m] && '\n' !in u[..m]
    ensures FindOnLine(">", u[m..]).None?
    decreases m
  {
    if m > 0 {
      assert u[0] in u[..m];
      assert u[1..][..m - 1] == u[1..m];
      assert u[1..][m - 1..] == u[m..];
      SkipNoClose(u[1..], m - 1);
    }
  }

  /** Deleting a literal with no `>` and no newline keeps the first line free of `>`. */
  lemma {:induction false} DeleteLiteralKeepsNoClose(lit: string, u: string)
    requires |lit| > 0 && '>' !in lit && '\n' !in lit
    requires FindOnLine(">", u).None?
    ensures FindOnLine(">", DeleteLiteral(lit, u)).None?
    decreases |u|
  {
    if u != [] {
      if OccursAt(u, 0, lit) {
        assert u[..|lit|] == lit;
        SkipNoClose(u, |lit|);
        DeleteLiteralKeepsNoClose(lit, u[|lit|..]);
      } else {
        assert !OccursAt(u, 0, ">");
        if u[0] != '\n' {
          assert FindOnLine(">", u[1..]).None?;
          DeleteLiteralKeepsNoClose(lit, u[1..]);
        }
        var r := DeleteLiteral(lit, u);
        assert r == [u[0]] + DeleteLiteral(lit, u[1..]);
        assert r[1..] == DeleteLiteral(lit, u[1..]);
      }
    }
  }

  /** Deleting such a literal keeps a tag-free text tag-free. */
  lemma {:induction false} DeleteLiteralTagFree(lit: string, s: string)
    requires |lit| > 0 && '>' !in lit && '\n' !in lit
    requires TagFree(s)
    ensures TagFree(DeleteLiteral(lit, s))
    decreases |s|
  {
    if s != [] {
      if OccursAt(s, 0, lit) {
        TagFreeSuffix(s, |lit|);
        DeleteLiteralTagFree(lit, s[|lit|..]);
      } else {
        DeleteLiteralTagFree(lit, s[1..]);
        if s[0] == '<' {
          DeleteLiteralKeepsNoClose(lit, s[1..]);
        }
        var r := DeleteLiteral(lit, s);
        assert r == [s[0]] + DeleteLiteral(lit, s[1..]);
        assert r[1..] == DeleteLiteral(lit, s[1..]);
      }
    }
  }

  /** A block pattern `open.*?close` whose `open` is a tag start and whose
      `close` holds a `>` on its first line. */
  predicate BlockPattern(open: string, close: string)
  {
    |open| > 0 && open[0] == '<' && '>' !in open && '\n' !in open && FindOnLine(">", close).Some?
  }

  /** `<name.*?</name>` is a block pattern for a tag name without `>` or newline. */
  lemma BlockPatternOf(name: string)
    requires '>' !in name && '\n' !in name
    ensures BlockPattern("<" + name, "</" + name + ">")
  {
    var open, close := "<" + name, "</" + name + ">";
    assert open[0] == '<' && open[1..] == name;
    assert forall c :: c in open ==> c == '<' || c in name;
    var m := |close| - 1;
    assert close[..m] == "</" + name;
    assert forall c :: c in close[..m] ==> c == '<' || c == '/' || c in name;
    assert OccursAt(close, m, ">");
    GtOnFirstLine(close, m);
  }

  /** A `>` at `m` on the first line of `close`, with `close` at `k` on the
      first line of `t`, is a `>` on the first line of `t`. */
  lemma GtInsideClose(close: string, t: string, k: nat, m: nat)
    requires OccursAt(close, m, ">") && '\n' !in close[..m]
    requires OccursAt(t, k, close) && '\n' !in t[..k]
    ensures OccursAt(t, k + m, ">") && '\n' !in t[..k + m]
  {
    assert t[k + m] == t[k..k + |close|][m];
    assert t[..k + m] == t[..k] + close[..m] by {
      assert t[k..k + m] == close[..m];
    }
  }

  /** Wherever `.*?close` succeeds, so does `.*?>`. */
  lemma CloseFindsGt(close: string, t: string)
    requires FindOnLine(">", close).Some? && FindOnLine(close, t).Some?
    ensures FindOnLine(">", t).Some?
  {
    var k := FindOnLine(close, t).value;
    var m := FindOnLine(">", close).value;
    GtInsideClose(close, t, k, m);
    GtOnFirstLine(t, k + m);
  }

  /** A block pattern cannot match at the start of a tag-free text. */
  lemma NoBlockAt(open: string, close: string, s: string)
    requires BlockPattern(open, close) && TagFree(s) && s != []
    ensures LazyMatch(open, close, s).None?
  {
    if OccursAt(s, 0, open) {
      assert s[0] == '<';
      assert s[1..][..|open| - 1] == open[1..];
      assert s[1..][|open| - 1..] == s[|open|..];
      SkipNoClose(s[1..], |open| - 1);
      if FindOnLine(close, s[|open|..]).Some? {
        CloseFindsGt(close, s[|open|..]);
        assert false;
      }
    }
  }

  /** On a tag-free text a block pass changes nothing. */
  lemma {:induction false} BlockPassInert(open: string, close: string, s: string)
    requires BlockPattern(open, close) && TagFree(s)
    ensures DeleteLazy(open, close, s) == s
    decreases |s|
  {
    if s != [] {
      NoBlockAt(open, close, s);
      BlockPassInert(open, close, s[1..]);
    }
  }

  /** A text without `<` holds no tag: `<.*?>` leaves it as it is. */
  lemma StripTagsNoTag(s: string)
    requires '<' !in s
    ensures StripTags(s) == s
  {
    forall i | 0 <= i < |s| ensures LazyMatch("<", ">", s[i..]).None? {
      OccursChar(s[i..], 0, '<');
    }
    DeleteLazyAbsent("<", ">", s);
  }

  /** The prompt holds neither `>` nor a newline. */
  lemma LoginPromptPlain()
    ensures |LoginPrompt| > 0 && '>' !in LoginPrompt && '\n' !in LoginPrompt
  {
  }

  /** The four block passes together change nothing on a tag-free text. */
  lemma BlockPassesInert(b: string)
    requires TagFree(b)
    ensures BlockPass("strong", BlockPass("iframe", BlockPass("blockquote", BlockPass("script", b)))) == b
  {
    BlockNameInert("script", b);
    BlockNameInert("blockquote", b);
    BlockNameInert("iframe", b);
    BlockNameInert("strong", b);
  }

  lemma BlockNameInert(name: string, b: string)
    requires '>' !in name && '\n' !in name && TagFree(b)
    ensures BlockPass(name, b) == b
  {
    BlockPatternOf(name);
    BlockPassInert("<" + name, "</" + name + ">", b);
  }

  /** The script, blockquote, iframe and strong passes have no effect: once
      `<.*?>` has run, the chain is the tag pass and the prompt deletion alone,
      and its result is tag-free. */
  lemma ScrubIsTagAndPromptPasses(body: string)
    ensures Scrub(body) == DeleteLiteral(LoginPrompt, StripTags(Unquote(body)))
    ensures TagFree(Scrub(body))
  {
    var t := StripTags(Unquote(body));
    var b := DeleteLiteral(LoginPrompt, t);
    StripTagsTagFree(Unquote(body));
    LoginPromptPlain();
    DeleteLiteralTagFree(LoginPrompt, t);
    BlockPassesInert(b);
  }

  /** What the chain guarantees: no corner bracket, no `<` followed by a `>` on
      the same line, and the characters that survive the quote passes keep
      their order. */
  lemma ScrubSpec(body: string)
    ensures '「' !in Scrub(body) && '」' !in Scrub(body)
    ensures NoTagOnLine(Scrub(body))
    ensures Subseq(Scrub(body), Unquote(body))
    ensures '<' !in body ==> Scrub(body) == DeleteLiteral(LoginPrompt, Unquote(body))
    ensures '<' !in body && (forall i :: 0 <= i < |body| ==> !OccursAt(Unquote(body), i, LoginPrompt)) ==>
      Scrub(body) == Unquote(body)
  {
    var u := Unquote(body);
    if '<' !in body {
      UnquoteSpec(body);
      assert '<' !in u;
      StripTagsNoTag(u);
      LoginPromptPlain();
      if forall i :: 0 <= i < |body| ==> !OccursAt(u, i, LoginPrompt) {
        DeleteLiteralAbsent(LoginPrompt, u);
      }
    }
    ScrubIsTagAndPromptPasses(body);
    TagFreeNoTag(Scrub(body));
    DeleteLazySubseq("<", ">", u);
    DeleteLiteralSubseq(LoginPrompt, StripTags(u));
    SubseqTrans(Scrub(body), StripTags(u), u);
    UnquoteSpec(body);
    if '「' in Scrub(body) { SubseqChars(Scrub(body), u, '「'); }
    if '」' in Scrub(body) { SubseqChars(Scrub(body), u, '」'); }
  }

  /** `Extract` fails exactly when no position starts a paragraph match; on
      success its body is the scrubbed join of the captures, from which the
      captures can be recovered before scrubbing. */
  lemma ExtractSpec(fragment: string)
    ensures Extract(fragment).None? <==> forall i :: 0 <= i <= |fragment| ==> ParagraphAt(fragment[i..]).None?
    ensures Extract(fragment).Some? ==>
      && SplitParagraphs(JoinParagraphs(Captures(fragment))) == Captures(fragment)
      && '「' !in Extract(fragment).value && '」' !in Extract(fragment).value
      && NoTagOnLine(Extract(fragment).value)
  {
    CapturesEmpty(fragment);
    SplitJoin(Captures(fragment));
    ScrubSpec(JoinParagraphs(Captures(fragment)));
  }
}
