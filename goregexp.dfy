/** The behaviour of Go's `regexp` package on the patterns the fetcher uses, as
    explicit scanners. Go's regular expressions are RE2: without the `s` flag
    `.` matches any character except a newline, a search reports the leftmost
    match, among the matches at one position it prefers the one a backtracking
    engine would find first (so `.*?` takes as little as it can), and
    `FindAll`/`ReplaceAll` resume after the end of each match, so matches never
    overlap. None of the patterns here can match the empty string. */
module GoRegexp {
  import opened Wrappers
  import opened GoStrings

  /** Where `.*?` followed by `pat` first completes in `t`: the least `k` at
      which `pat` occurs with no newline in `t[..k]`. */
  function FindOnLine(pat: string, t: string): (r: Option<nat>)
    ensures r.Some? ==> OccursAt(t, r.value, pat) && '\n' !in t[..r.value]
    ensures r.Some? ==> forall k :: 0 <= k < r.value ==> !OccursAt(t, k, pat)
    ensures r.None? ==> forall k :: OccursAt(t, k, pat) ==> '\n' in t[..k]
    decreases |t|
  {
    if OccursAt(t, 0, pat) then Some(0)
    else if t == [] || t[0] == '\n' then None
    else
      ShiftOccurs(t, pat);
      match FindOnLine(pat, t[1..])
      case None => None
      case Some(k) => Some(k + 1)
  }

  /** Dropping the first character shifts every occurrence by one. */
  lemma ShiftOccurs(t: string, pat: string)
    requires t != []
    ensures forall k :: 1 <= k ==> (OccursAt(t, k, pat) <==> OccursAt(t[1..], k - 1, pat))
    ensures forall k :: 1 <= k <= |t| ==> t[..k] == [t[0]] + t[1..][..k - 1]
  {
    forall k | 1 <= k ensures OccursAt(t, k, pat) <==> OccursAt(t[1..], k - 1, pat) {
      if k + |pat| <= |t| {
        assert t[k..k + |pat|] == t[1..][k - 1..k - 1 + |pat|];
      }
    }
  }

  /** `ReplaceAllString` of a one-character pattern by one character. */
  function ReplaceChar(from: char, to: char, s: string): (r: string)
    ensures |r| == |s|
    ensures forall i :: 0 <= i < |s| ==> r[i] == if s[i] == from then to else s[i]
  {
    if s == [] then [] else [if s[0] == from then to else s[0]] + ReplaceChar(from, to, s[1..])
  }

  /** `ReplaceAllString(s, "")` for a pattern made of literal characters only:
      each leftmost occurrence is dropped and the scan resumes after it. */
  function DeleteLiteral(lit: string, s: string): (r: string)
    requires |lit| > 0
    ensures |r| <= |s|
    decreases |s|
  {
    if s == [] then []
    else if OccursAt(s, 0, lit) then DeleteLiteral(lit, s[|lit|..])
    else [s[0]] + DeleteLiteral(lit, s[1..])
  }

  /** The length of the match of `open.*?close` at the start of `t`, if there is
      one: `open`, then the fewest non-newline characters before `close`. */
  function LazyMatch(open: string, close: string, t: string): (r: Option<nat>)
    ensures r.Some? ==> |open| + |close| <= r.value <= |t|
    ensures r.Some? ==> OccursAt(t, 0, open) && OccursAt(t, r.value - |close|, close)
    ensures r.Some? ==> '\n' !in t[|open|..r.value - |close|]
  {
    if OccursAt(t, 0, open) then
      ShiftFrom(t, |open|, close);
      match FindOnLine(close, t[|open|..])
      case None => None
      case Some(k) => Some(|open| + k + |close|)
    else None
  }

  /** The reported match is the shortest one: no `close` ends it earlier; and
      none is reported only when `t` does not start with `open` or every
      `close` after it lies past a newline. */
  lemma LazyMatchShortest(open: string, close: string, t: string)
    ensures LazyMatch(open, close, t).Some? ==>
              forall m :: |open| <= m < LazyMatch(open, close, t).value - |close| ==> !OccursAt(t, m, close)
    ensures LazyMatch(open, close, t).None? ==>
              !OccursAt(t, 0, open) || forall m :: |open| <= m && OccursAt(t, m, close) ==> '\n' in t[|open|..m]
  {
    if OccursAt(t, 0, open) {
      ShiftFrom(t, |open|, close);
    }
  }

  /** `ReplaceAllString(s, "")` for the pattern `open.*?close`. */
  function DeleteLazy(open: string, close: string, s: string): (r: string)
    requires |open| > 0
    ensures |r| <= |s|
    decreases |s|
  {
    if s == [] then []
    else match LazyMatch(open, close, s)
      case Some(n) => DeleteLazy(open, close, s[n..])
      case None => [s[0]] + DeleteLazy(open, close, s[1..])
  }

  /** From `a` up to the first occurrence of the literal at or after `a`,
      the text is kept as it is. */
  lemma {:induction false} DeleteLiteralKeeps(lit: string, s: string, a: nat, j: nat)
    requires |lit| > 0 && a <= j <= |s|
    requires forall i :: a <= i < j ==> !OccursAt(s, i, lit)
    ensures DeleteLiteral(lit, s[a..]) == s[a..j] + DeleteLiteral(lit, s[j..])
    decreases j - a
  {
    if a < j {
      DeleteLiteralStep(lit, s, a);
      DeleteLiteralKeeps(lit, s, a + 1, j);
      ConsSlice(s, a, j, DeleteLiteral(lit, s[j..]));
    } else {
      EmptySlice(s, a);
    }
  }

  /** No occurrence at `a`: the character there is kept. */
  lemma DeleteLiteralStep(lit: string, s: string, a: nat)
    requires |lit| > 0 && a < |s| && !OccursAt(s, a, lit)
    ensures DeleteLiteral(lit, s[a..]) == [s[a]] + DeleteLiteral(lit, s[a + 1..])
  {
    if a + |lit| <= |s| {
      assert s[a..][0..|lit|] == s[a..a + |lit|];
    }
    assert s[a..][1..] == s[a + 1..];
  }

  /** Where the literal does not occur, deleting it changes nothing. */
  lemma DeleteLiteralAbsent(lit: string, s: string)
    requires |lit| > 0
    requires forall i :: 0 <= i < |s| ==> !OccursAt(s, i, lit)
    ensures DeleteLiteral(lit, s) == s
  {
    DeleteLiteralKeeps(lit, s, 0, |s|);
    WholeSlice(s);
  }

  /** The leftmost occurrence is deleted, the text before it is kept, and the
      scan resumes right after it. */
  lemma DeleteLiteralFirst(lit: string, x: string, y: string)
    requires |lit| > 0
    requires forall i :: 0 <= i < |x| ==> !OccursAt(x + lit + y, i, lit)
    ensures DeleteLiteral(lit, x + lit + y) == x + DeleteLiteral(lit, y)
  {
    DeleteLiteralKeeps(lit, x + lit + y, 0, |x|);
    ConcatSlices(x, lit, y);
  }

  /** From `a` up to the first position at or after `a` where a lazy match
      starts, the text is kept as it is. */
  lemma {:induction false} DeleteLazyKeeps(open: string, close: string, s: string, a: nat, j: nat)
    requires |open| > 0 && a <= j <= |s|
    requires forall i {:trigger LazyMatch(open, close, s[i..])} :: a <= i < j ==> LazyMatch(open, close, s[i..]).None?
    ensures DeleteLazy(open, close, s[a..]) == s[a..j] + DeleteLazy(open, close, s[j..])
    decreases j - a
  {
    if a < j {
      DeleteLazyStep(open, close, s, a);
      DeleteLazyKeeps(open, close, s, a + 1, j);
      ConsSlice(s, a, j, DeleteLazy(open, close, s[j..]));
    } else {
      EmptySlice(s, a);
    }
  }

  /** No match at `a`: the character there is kept. */
  lemma DeleteLazyStep(open: string, close: string, s: string, a: nat)
    requires |open| > 0 && a < |s| && LazyMatch(open, close, s[a..]).None?
    ensures DeleteLazy(open, close, s[a..]) == [s[a]] + DeleteLazy(open, close, s[a + 1..])
  {
    assert s[a..][1..] == s[a + 1..];
  }

  /** Where no lazy match starts, deleting lazy matches changes nothing. */
  lemma DeleteLazyAbsent(open: string, close: string, s: string)
    requires |open| > 0
    requires forall i {:trigger LazyMatch(open, close, s[i..])} :: 0 <= i < |s| ==> LazyMatch(open, close, s[i..]).None?
    ensures DeleteLazy(open, close, s) == s
  {
    DeleteLazyKeeps(open, close, s, 0, |s|);
    WholeSlice(s);
  }

  /** The leftmost lazy match, at `j`, is deleted, the text before it is
      kept, and the scan resumes right after it. */
  lemma DeleteLazyFirst(open: string, close: string, s: string, j: nat)
    requires |open| > 0 && j <= |s|
    requires forall i {:trigger LazyMatch(open, close, s[i..])} :: 0 <= i < j ==> LazyMatch(open, close, s[i..]).None?
    requires LazyMatch(open, close, s[j..]).Some?
    ensures DeleteLazy(open, close, s)
         == s[..j] + DeleteLazy(open, close, s[j + LazyMatch(open, close, s[j..]).value..])
  {
    var n := LazyMatch(open, close, s[j..]).value;
    DeleteLazyKeeps(open, close, s, 0, j);
    DeleteLazyMatch(open, close, s[j..], n);
    PrefixSlices(s, j, n);
  }

  /* Slice identities, proved apart so that the deletion proofs above only
     rewrite with them. */

  lemma ConsSlice(s: string, a: nat, j: nat, d: string)
    requires a < j <= |s|
    ensures s[a..j] + d == [s[a]] + (s[a + 1..j] + d)
  {
  }

  lemma EmptySlice(s: string, a: nat)
    requires a <= |s|
    ensures s[a..a] == []
  {
  }

  lemma WholeSlice(s: string)
    ensures s[0..] == s && s[0..|s|] == s && s[|s|..] == []
  {
  }

  lemma PrefixSlices(s: string, j: nat, n: nat)
    requires j + n <= |s|
    ensures s[0..] == s && s[0..j] == s[..j] && s[j..][n..] == s[j + n..]
  {
  }

  lemma ConcatSlices(x: string, lit: string, y: string)
    ensures (x + lit + y)[0..] == x + lit + y && (x + lit + y)[0..|x|] == x
    ensures (x + lit + y)[|x|..] == lit + y
    ensures (lit + y)[0..|lit|] == lit && (lit + y)[|lit|..] == y
  {
  }

  /** A match of length `n` at the start is dropped. */
  lemma DeleteLazyMatch(open: string, close: string, s: string, n: nat)
    requires |open| > 0 && LazyMatch(open, close, s) == Some(n)
    ensures DeleteLazy(open, close, s) == DeleteLazy(open, close, s[n..])
  {
  }

  /** `t` starts with a match of `<p.*?>(.*?)</p>` whose `>` is at `j` and whose
      `</p>` is at `k`; the group captures `t[j + 1..k]`. This is any way of
      matching, not yet the one the engine prefers. */
  ghost predicate IsParagraphMatch(t: string, j: int, k: int)
  {
    && 2 <= j < k
    && OccursAt(t, 0, "<p") && OccursAt(t, k, "</p>") && t[j] == '>'
    && '\n' !in t[2..j] && '\n' !in t[j + 1..k]
  }

  /** The match of `<p.*?>(.*?)</p>` at the start of `t` that the engine reports:
      the position of its `>` and of its `</p>`. */
  function ParagraphAt(t: string): (r: Option<(nat, nat)>)
    ensures r.Some? ==> r.value.0 < r.value.1 && r.value.1 + 4 <= |t|
  {
    if OccursAt(t, 0, "<p") then
      match FindOnLine(">", t[2..])
      case None => None
      case Some(j0) =>
        var j := 2 + j0;
        match FindOnLine("</p>", t[j + 1..])
        case None => None
        case Some(k0) => Some((j, j + 1 + k0))
    else None
  }

  /** `FindAllSubmatch(s, -1)` for `<p.*?>(.*?)</p>`, keeping group 1 of every
      match in document order. */
  function Captures(s: string): (r: seq<string>)
    ensures forall i :: 0 <= i < |r| ==> '\n' !in r[i]
    decreases |s|
  {
    if s == [] then []
    else match ParagraphAt(s)
      case Some(m) =>
        ParagraphAtIsMatch(s);
        [s[m.0 + 1..m.1]] + Captures(s[m.1 + 4..])
      case None => Captures(s[1..])
  }

  /** Occurrences and prefixes of `t` from offset `d` on, seen in `t[d..]`. */
  lemma ShiftFrom(t: string, d: nat, pat: string)
    requires d <= |t|
    ensures forall k :: d <= k ==> (OccursAt(t, k, pat) <==> OccursAt(t[d..], k - d, pat))
    ensures forall k :: d <= k <= |t| ==> t[d..k] == t[d..][..k - d]
  {
    forall k | d <= k ensures OccursAt(t, k, pat) <==> OccursAt(t[d..], k - d, pat) {
      if k + |pat| <= |t| {
        assert t[k..k + |pat|] == t[d..][k - d..k - d + |pat|];
      }
    }
  }

  /** A single character at `j` is an occurrence of that one-character string. */
  lemma OccursChar(t: string, j: int, c: char)
    requires 0 <= j < |t|
    ensures OccursAt(t, j, [c]) <==> t[j] == c
  {
    assert t[j..j + 1] == [t[j]];
  }

  /** The reported paragraph match is a match. */
  lemma ParagraphAtIsMatch(t: string)
    requires ParagraphAt(t).Some?
    ensures IsParagraphMatch(t, ParagraphAt(t).value.0, ParagraphAt(t).value.1)
  {
    var u := t[2..];
    var j0 := FindOnLine(">", u).value;
    var j := 2 + j0;
    ShiftFrom(t, 2, ">");
    OccursChar(t, j, '>');
    var v := t[j + 1..];
    var k0 := FindOnLine("</p>", v).value;
    ShiftFrom(t, j + 1, "</p>");
    assert OccursAt(t, j + 1 + k0, "</p>");
    assert t[j + 1..j + 1 + k0] == v[..k0];
  }

  /** A `>` at `j` earlier on the line of the match's `>` at `j'` leaves no
      newline between `j` and the match's `</p>` at `k'`. */
  lemma LineFrom(t: string, j: int, j': int, k': int)
    requires 2 <= j <= j' < k' <= |t|
    requires '\n' !in t[2..j'] && t[j'] == '>' && '\n' !in t[j' + 1..k']
    ensures '\n' !in t[j + 1..k']
  {
    if j < j' {
      assert t[j + 1..k'] == t[2..j'][j - 1..] + [t[j']] + t[j' + 1..k'];
    }
  }

  /** Every paragraph match ends its opening tag no earlier than the reported
      one, and, when it shares that `>`, closes no earlier. */
  lemma MatchBounds(t: string, j': int, k': int)
    requires IsParagraphMatch(t, j', k')
    ensures ParagraphAt(t).Some?
    ensures ParagraphAt(t).value.0 <= j'
    ensures ParagraphAt(t).value.0 == j' ==> ParagraphAt(t).value.1 <= k'
  {
    var u := t[2..];
    ShiftFrom(t, 2, ">");
    OccursChar(t, j', '>');
    assert OccursAt(u, j' - 2, ">") && '\n' !in u[..j' - 2];
    var j0 := FindOnLine(">", u).value;
    var j := 2 + j0;
    assert j <= j';
    var v := t[j + 1..];
    ShiftFrom(t, j + 1, "</p>");
    LineFrom(t, j, j', k');
    assert OccursAt(v, k' - j - 1, "</p>") && '\n' !in v[..k' - j - 1];
  }

  /** The reported paragraph match is a match, and it is the one the engine
      prefers: the earliest `>`, then for that `>` the earliest `</p>`. When no
      match is reported, none exists. */
  lemma ParagraphAtMatches(t: string)
    ensures ParagraphAt(t).Some? ==>
      var (j, k) := ParagraphAt(t).value;
      && IsParagraphMatch(t, j, k)
      && forall j', k' :: IsParagraphMatch(t, j', k') ==> j < j' || (j == j' && k <= k')
    ensures ParagraphAt(t).None? ==> forall j, k :: !IsParagraphMatch(t, j, k)
  {
    forall j', k' | IsParagraphMatch(t, j', k')
      ensures ParagraphAt(t).Some?
      ensures ParagraphAt(t).value.0 < j' || (ParagraphAt(t).value.0 == j' && ParagraphAt(t).value.1 <= k')
    {
      MatchBounds(t, j', k');
    }
    if ParagraphAt(t).Some? {
      ParagraphAtIsMatch(t);
    }
  }

  /** `FindAllSubmatch` finds nothing exactly when no position of `s` starts a
      match: the condition behind the "no <p> matched" error. */
  lemma {:induction false} CapturesEmpty(s: string)
    ensures Captures(s) == [] <==> forall i :: 0 <= i <= |s| ==> ParagraphAt(s[i..]).None?
    decreases |s|
  {
    assert s[0..] == s;
    if s != [] && ParagraphAt(s).None? {
      CapturesEmpty(s[1..]);
      assert Captures(s) == Captures(s[1..]);
      forall i | 1 <= i <= |s| ensures s[i..] == s[1..][i - 1..] { }
    }
  }

  /** No match starts at `a`: the scan moves on by one character. */
  lemma CapturesStep(s: string, a: nat)
    requires a < |s| && ParagraphAt(s[a..]).None?
    ensures Captures(s[a..]) == Captures(s[a + 1..])
  {
    assert s[a..][1..] == s[a + 1..];
  }

  /** A match `(j, k)` at `a`: its group is the first capture and the scan
      resumes right after its `</p>`. */
  lemma CapturesMatch(s: string, a: nat, j: nat, k: nat)
    requires a <= |s| && ParagraphAt(s[a..]) == Some((j, k))
    ensures a + k + 4 <= |s|
    ensures Captures(s[a..]) == [s[a + j + 1..a + k]] + Captures(s[a + k + 4..])
  {
    CapturesAt(s[a..], j, k);
    MatchSlices(s, a, j, k);
  }

  /** One unfolding of the scan at a match. */
  lemma CapturesAt(t: string, j: nat, k: nat)
    requires ParagraphAt(t) == Some((j, k))
    ensures Captures(t) == [t[j + 1..k]] + Captures(t[k + 4..])
  {
    assert t != [];
    var c := Captures(t);
    assert c == [t[j + 1..k]] + Captures(t[k + 4..]);
  }

  lemma MatchSlices(s: string, a: nat, j: nat, k: nat)
    requires a <= |s| && j < k && k + 4 <= |s| - a
    ensures s[a..][j + 1..k] == s[a + j + 1..a + k] && s[a..][k + 4..] == s[a + k + 4..]
  {
  }

  /** From `a` up to the first position at or after `a` where a match starts,
      the scan captures nothing. */
  lemma {:induction false} CapturesSkip(s: string, a: nat, i: nat)
    requires a <= i <= |s|
    requires forall m {:trigger ParagraphAt(s[m..])} :: a <= m < i ==> ParagraphAt(s[m..]).None?
    ensures Captures(s[a..]) == Captures(s[i..])
    decreases i - a
  {
    if a < i {
      CapturesStep(s, a);
      CapturesSkip(s, a + 1, i);
    }
  }

  /** The first capture is group 1 of the leftmost match, at `i`, and the
      rest are those of the text after its `</p>`: the scan takes the
      matches in document order without overlap. */
  lemma CapturesFirst(s: string, i: nat, j: nat, k: nat)
    requires i <= |s|
    requires forall m {:trigger ParagraphAt(s[m..])} :: 0 <= m < i ==> ParagraphAt(s[m..]).None?
    requires ParagraphAt(s[i..]) == Some((j, k))
    ensures i + k + 4 <= |s|
    ensures Captures(s) == [s[i + j + 1..i + k]] + Captures(s[i + k + 4..])
  {
    CapturesSkip(s, 0, i);
    CapturesMatch(s, i, j, k);
    WholeSlice(s);
  }

  /** `a` is a subsequence of `b`: `b` with some characters dropped. */
  ghost predicate Subseq(a: string, b: string)
    decreases |b|
  {
    if a == [] then true
    else if b == [] then false
    else (a[0] == b[0] && Subseq(a[1..], b[1..])) || Subseq(a, b[1..])
  }

  /** A subsequence of a suffix is a subsequence of the whole. */
  lemma {:induction false} SubseqOfSuffix(a: string, b: string, n: nat)
    requires n <= |b| && Subseq(a, b[n..])
    ensures Subseq(a, b)
    decreases n
  {
    if n > 0 {
      assert b[1..][n - 1..] == b[n..];
      SubseqOfSuffix(a, b[1..], n - 1);
    }
  }

  lemma {:induction false} SubseqTrans(a: string, b: string, c: string)
    requires Subseq(a, b) && Subseq(b, c)
    ensures Subseq(a, c)
    decreases |c|
  {
    if a != [] {
      if Subseq(b, c[1..]) {
        SubseqTrans(a, b, c[1..]);
      } else if a[0] == b[0] && Subseq(a[1..], b[1..]) {
        SubseqTrans(a[1..], b[1..], c[1..]);
      } else {
        SubseqTrans(a, b[1..], c[1..]);
      }
    }
  }

  /** A subsequence has no character its source lacks. */
  lemma {:induction false} SubseqChars(a: string, b: string, x: char)
    requires Subseq(a, b) && x in a
    ensures x in b
    decreases |b|
  {
    if a[0] == b[0] && Subseq(a[1..], b[1..]) {
      if x != a[0] { SubseqChars(a[1..], b[1..], x); }
    } else {
      SubseqChars(a, b[1..], x);
    }
  }

  /** Deleting a literal keeps the other characters in order. */
  lemma {:induction false} DeleteLiteralSubseq(lit: string, s: string)
    requires |lit| > 0
    ensures Subseq(DeleteLiteral(lit, s), s)
    decreases |s|
  {
    if s != [] {
      if OccursAt(s, 0, lit) {
        DeleteLiteralSubseq(lit, s[|lit|..]);
        SubseqOfSuffix(DeleteLiteral(lit, s), s, |lit|);
      } else {
        DeleteLiteralSubseq(lit, s[1..]);
      }
    }
  }

  /** Deleting lazy matches keeps the other characters in order. */
  lemma {:induction false} DeleteLazySubseq(open: string, close: string, s: string)
    requires |open| > 0
    ensures Subseq(DeleteLazy(open, close, s), s)
    decreases |s|
  {
    if s != [] {
      match LazyMatch(open, close, s)
      case Some(n) =>
        DeleteLazySubseq(open, close, s[n..]);
        SubseqOfSuffix(DeleteLazy(open, close, s), s, n);
      case None =>
        DeleteLazySubseq(open, close, s[1..]);
    }
  }
}
