/**
 * String primitives shared by the front end (JavaScript) and the back end (Python),
 * restricted to ASCII: whitespace classes, word characters, lower-casing, trimming,
 * substring search, joining and splitting.
 */
module Text {
  import opened Wrappers

  /** Whose notion of whitespace applies. */
  datatype Lang = JS | Python

  /** JavaScript's `\s` and `trim()` over ASCII: space and \t \n \v \f \r (codes 9..13).
      Python's `\s`, `strip()` and `split()` also treat the separators \x1c..\x1f as whitespace. */
  predicate IsSpace(c: char, lang: Lang) {
    c == ' ' || ('\t' <= c <= '\r') || (lang == Python && 28 <= c as int <= 31)
  }

  /** Python's `\w` restricted to ASCII: Python 3 also counts non-ASCII letters and digits. */
  predicate IsWordChar(c: char) {
    ('a' <= c <= 'z') || ('A' <= c <= 'Z') || ('0' <= c <= '9') || c == '_'
  }

  /** `toLowerCase()` / `lower()` on one ASCII character. */
  function LowerChar(c: char): char {
    if 'A' <= c <= 'Z' then (c as int + 32) as char else c
  }

  function ToLower(s: string): (r: string)
    ensures |r| == |s|
    ensures forall i | 0 <= i < |s| :: r[i] == LowerChar(s[i])
  {
    seq(|s|, i requires 0 <= i < |s| => LowerChar(s[i]))
  }

  lemma ToLowerSlice(s: string, i: nat, j: nat)
    requires i <= j <= |s|
    ensures ToLower(s[i..j]) == ToLower(s)[i..j]
  {
  }

  lemma ToLowerAppend(a: string, b: string)
    ensures ToLower(a + b) == ToLower(a) + ToLower(b)
  {
  }

  // ---------------------------------------------------------------------------
  // Trimming

  predicate IsTrimmed(s: string, lang: Lang) {
    s == [] || (!IsSpace(s[0], lang) && !IsSpace(s[|s| - 1], lang))
  }

  predicate AllSpace(s: string, lang: Lang) {
    forall i | 0 <= i < |s| :: IsSpace(s[i], lang)
  }

  /** Drops leading whitespace (`trimStart`, `lstrip`). */
  function TrimStart(s: string, lang: Lang): (r: string)
    ensures |r| <= |s| && r == s[|s| - |r|..]
    ensures r == [] || !IsSpace(r[0], lang)
    ensures AllSpace(s[..|s| - |r|], lang)
    decreases |s|
  {
    if s != [] && IsSpace(s[0], lang) then
      var r := TrimStart(s[1..], lang);
      TrimStartStep(s, r, lang);
      r
    else s
  }

  lemma TrimStartStep(s: string, r: string, lang: Lang)
    requires s != [] && IsSpace(s[0], lang)
    requires |r| <= |s| - 1 && r == s[1..][|s| - 1 - |r|..] && AllSpace(s[1..][..|s| - 1 - |r|], lang)
    ensures r == s[|s| - |r|..] && AllSpace(s[..|s| - |r|], lang)
  {
    var k := |s| - |r|;
    assert s[1..][|s| - 1 - |r|..] == s[k..];
    forall i | 0 <= i < k ensures IsSpace(s[..k][i], lang) {
      if i > 0 {
        assert s[..k][i] == s[1..][..|s| - 1 - |r|][i - 1];
      }
    }
  }

  /** Drops trailing whitespace (`trimEnd`, `rstrip`). */
  function TrimEnd(s: string, lang: Lang): (r: string)
    ensures |r| <= |s| && r == s[..|r|]
    ensures r == [] || !IsSpace(r[|r| - 1], lang)
    ensures AllSpace(s[|r|..], lang)
    decreases |s|
  {
    if s != [] && IsSpace(s[|s| - 1], lang) then
      var r := TrimEnd(s[..|s| - 1], lang);
      TrimEndStep(s, r, lang);
      r
    else s
  }

  lemma TrimEndStep(s: string, r: string, lang: Lang)
    requires s != [] && IsSpace(s[|s| - 1], lang)
    requires |r| <= |s| - 1 && r == s[..|s| - 1][..|r|] && AllSpace(s[..|s| - 1][|r|..], lang)
    ensures r == s[..|r|] && AllSpace(s[|r|..], lang)
  {
    var n := |s| - 1;
    assert s[..n][..|r|] == s[..|r|];
    forall i | 0 <= i < |s| - |r| ensures IsSpace(s[|r|..][i], lang) {
      if |r| + i < n {
        assert s[|r|..][i] == s[..n][|r|..][i];
      } else {
        assert s[|r|..][i] == s[n];
      }
    }
  }

  /** `r` is `s` with whitespace (and only whitespace) cut from both ends. */
  predicate TrimmedSlice(s: string, r: string, lang: Lang) {
    IsTrimmed(r, lang)
    && exists a: nat ::
         (a + |r| <= |s| && r == s[a..a + |r|] && AllSpace(s[..a], lang) && AllSpace(s[a + |r|..], lang))
  }

  /** `trim()` in JavaScript, `strip()` in Python. */
  function Trim(s: string, lang: Lang): (r: string)
    ensures TrimmedSlice(s, r, lang)
  {
    var t := TrimStart(s, lang);
    var r := TrimEnd(t, lang);
    TrimParts(s, t, r, lang);
    r
  }

  /** The text `trim()` keeps lies between the whitespace `trimStart` and `trimEnd` drop. */
  lemma TrimParts(s: string, t: string, r: string, lang: Lang)
    requires |t| <= |s| && t == s[|s| - |t|..] && (t == [] || !IsSpace(t[0], lang))
    requires AllSpace(s[..|s| - |t|], lang)
    requires |r| <= |t| && r == t[..|r|] && (r == [] || !IsSpace(r[|r| - 1], lang))
    requires AllSpace(t[|r|..], lang)
    ensures IsTrimmed(r, lang)
    ensures |s| - |t| + |r| <= |s| && r == s[|s| - |t|..|s| - |t| + |r|]
    ensures AllSpace(s[..|s| - |t|], lang) && AllSpace(s[|s| - |t| + |r|..], lang)
    ensures TrimmedSlice(s, r, lang)
  {
    var a := |s| - |t|;
    SliceChain(s, t, r, a);
    var u := s[a + |r|..];
    var v := t[|r|..];
    forall i | 0 <= i < |u| ensures IsSpace(u[i], lang) {
      assert u[i] == v[i];
    }
    if r != [] {
      assert r[0] == t[0];
    }
  }

  /** A prefix of a suffix is a slice. */
  lemma SliceChain(s: string, t: string, r: string, a: nat)
    requires a <= |s| && t == s[a..] && |r| <= |t| && r == t[..|r|]
    ensures a + |r| <= |s| && r == s[a..a + |r|]
  {
    assert s[a..][..|r|] == s[a..a + |r|];
  }

  lemma {:induction false} TrimStartSkips(ws: string, s: string, lang: Lang)
    requires AllSpace(ws, lang)
    requires s == [] || !IsSpace(s[0], lang)
    ensures TrimStart(ws + s, lang) == s
    decreases |ws|
  {
    if ws == [] {
      assert ws + s == s;
    } else {
      assert ws + s == [ws[0]] + (ws[1..] + s);
      TrimStartCons(ws[0], ws[1..] + s, lang);
      AllSpaceTail(ws, lang);
      TrimStartSkips(ws[1..], s, lang);
    }
  }

  /** Leading whitespace does not change what `trimStart` keeps. */
  lemma {:induction false} TrimStartSpaces(ws: string, u: string, lang: Lang)
    requires AllSpace(ws, lang)
    ensures TrimStart(ws + u, lang) == TrimStart(u, lang)
    decreases |ws|
  {
    if ws == [] {
      assert ws + u == u;
    } else {
      assert ws + u == [ws[0]] + (ws[1..] + u);
      TrimStartCons(ws[0], ws[1..] + u, lang);
      AllSpaceTail(ws, lang);
      TrimStartSpaces(ws[1..], u, lang);
    }
  }

  /** Leading whitespace does not change what `trim()` keeps. */
  lemma TrimSpaces(ws: string, u: string, lang: Lang)
    requires AllSpace(ws, lang)
    ensures Trim(ws + u, lang) == Trim(u, lang)
  {
    TrimStartSpaces(ws, u, lang);
  }

  /** `lstrip()` leaves nothing exactly when the text is all whitespace. */
  lemma TrimStartEmpty(s: string, lang: Lang)
    ensures TrimStart(s, lang) == [] <==> AllSpace(s, lang)
  {
    var t := TrimStart(s, lang);
    if t == [] {
      assert s[..|s|] == s;
    } else {
      assert s[|s| - |t|] == t[0];
    }
  }

  lemma TrimStartCons(c: char, u: string, lang: Lang)
    requires IsSpace(c, lang)
    ensures TrimStart([c] + u, lang) == TrimStart(u, lang)
  {
    assert ([c] + u)[1..] == u;
  }

  lemma AllSpaceTail(ws: string, lang: Lang)
    requires ws != [] && AllSpace(ws, lang)
    ensures AllSpace(ws[1..], lang)
  {
    forall i | 0 <= i < |ws| - 1 ensures IsSpace(ws[1..][i], lang) {
      assert ws[1..][i] == ws[i + 1];
    }
  }

  lemma {:induction false} TrimEndSkips(s: string, ws: string, lang: Lang)
    requires AllSpace(ws, lang)
    requires s == [] || !IsSpace(s[|s| - 1], lang)
    ensures TrimEnd(s + ws, lang) == s
    decreases |ws|
  {
    if ws != [] {
      assert (s + ws)[..|s + ws| - 1] == s + ws[..|ws| - 1];
      TrimEndSkips(s, ws[..|ws| - 1], lang);
    }
  }

  lemma TrimOfTrimmed(s: string, lang: Lang)
    requires IsTrimmed(s, lang)
    ensures Trim(s, lang) == s
  {
  }

  lemma JsSpaceIsPythonSpace(s: string)
    requires IsTrimmed(s, Python)
    ensures IsTrimmed(s, JS)
  {
  }

  // ---------------------------------------------------------------------------
  // Substring search

  predicate OccursAt(s: string, pat: string, i: nat) {
    i + |pat| <= |s| && s[i..i + |pat|] == pat
  }

  predicate Contains(s: string, pat: string) {
    exists i: nat | i <= |s| :: OccursAt(s, pat, i)
  }

  /** First index at or after `from` where `pat` occurs (`indexOf(pat, from)`, `find`). */
  function IndexOf(s: string, pat: string, from: nat): (r: Option<nat>)
    ensures r.Some? ==> from <= r.value && OccursAt(s, pat, r.value)
    ensures r.Some? ==> forall j: nat | from <= j < r.value :: !OccursAt(s, pat, j)
    ensures r.None? ==> forall j: nat | from <= j :: !OccursAt(s, pat, j)
    decreases |s| + 1 - from
  {
    if from + |pat| > |s| then None
    else if OccursAt(s, pat, from) then Some(from)
    else IndexOf(s, pat, from + 1)
  }

  lemma IndexOfNone(s: string, pat: string)
    requires !Contains(s, pat)
    ensures IndexOf(s, pat, 0) == None
  {
  }

  /** An occurrence with none before it is the one `indexOf` finds. */
  lemma IndexOfFirst(s: string, pat: string, p: nat)
    requires OccursAt(s, pat, p) && forall q: nat | q < p :: !OccursAt(s, pat, q)
    ensures IndexOf(s, pat, 0) == Some(p)
  {
  }

  /** A non-empty pattern that starts nowhere inside the text is not found. */
  lemma IndexOfAbsent(s: string, pat: string)
    requires pat != [] && forall q: nat | q < |s| :: !OccursAt(s, pat, q)
    ensures IndexOf(s, pat, 0) == None
  {
  }

  /** An occurrence in a suffix is an occurrence in the whole text, shifted. */
  lemma OccursShift(s: string, pat: string, a: nat, j: nat)
    requires a <= |s|
    ensures OccursAt(s[a..], pat, j) <==> OccursAt(s, pat, a + j)
  {
    if a + j + |pat| <= |s| {
      assert s[a..][j..j + |pat|] == s[a + j..a + j + |pat|];
    }
  }

  /** A window that covers a character the pattern lacks cannot be an occurrence. */
  lemma {:induction false} NoOccurrenceAcross(s: string, pat: string, i: nat, k: nat)
    requires i <= k < i + |pat| && k < |s|
    requires s[k] !in pat
    ensures !OccursAt(s, pat, i)
  {
    if i + |pat| <= |s| {
      assert s[i..i + |pat|][k - i] == s[k];
    }
  }

  lemma {:induction false} NotContainsJoin(pat: string, a: string, c: char, b: string)
    requires c !in pat
    requires !Contains(a, pat) && !Contains(b, pat)
    ensures !Contains(a + [c] + b, pat)
  {
    var s := a + [c] + b;
    forall i: nat | i <= |s| ensures !OccursAt(s, pat, i) {
      if i + |pat| <= |a| {
        assert s[i..i + |pat|] == a[i..i + |pat|];
        assert !OccursAt(a, pat, i);
      } else if i > |a| {
        if i + |pat| <= |s| {
          assert s[i..i + |pat|] == b[i - |a| - 1..i - |a| - 1 + |pat|];
          assert !OccursAt(b, pat, i - |a| - 1);
        }
      } else {
        NoOccurrenceAcross(s, pat, i, |a|);
      }
    }
  }

  /** Appending text that lacks the pattern's last character cannot create an occurrence. */
  lemma {:induction false} NotContainsAppend(pat: string, a: string, b: string)
    requires |pat| > 0 && pat[|pat| - 1] !in b
    requires !Contains(a, pat)
    ensures !Contains(a + b, pat)
  {
    var s := a + b;
    forall i: nat | i <= |s| ensures !OccursAt(s, pat, i) {
      if i + |pat| <= |a| {
        assert s[i..i + |pat|] == a[i..i + |pat|];
        assert !OccursAt(a, pat, i);
      } else if i + |pat| <= |s| {
        assert s[i + |pat| - 1] in b;
        assert s[i..i + |pat|][|pat| - 1] == s[i + |pat| - 1];
      }
    }
  }

  lemma SliceOfSlice(s: string, i: nat, j: nat, k: nat, l: nat)
    requires i <= j <= |s| && k <= l <= j - i
    ensures s[i..j][k..l] == s[i + k..i + l]
  {
    assert forall m | 0 <= m < l - k :: s[i..j][k..l][m] == s[i + k + m];
  }

  lemma NotContainsShort(s: string, pat: string)
    requires |s| < |pat|
    ensures !Contains(s, pat)
  {
  }

  lemma {:induction false} NotContainsSlice(s: string, pat: string, i: nat, j: nat)
    requires i <= j <= |s|
    requires !Contains(s, pat)
    ensures !Contains(s[i..j], pat)
  {
    var t := s[i..j];
    forall k: nat | k <= |t| ensures !OccursAt(t, pat, k) {
      if k + |pat| <= |t| {
        SliceOfSlice(s, i, j, k, k + |pat|);
        assert !OccursAt(s, pat, i + k);
      }
    }
  }

  /** The text before the first occurrence of a non-empty pattern does not contain it. */
  lemma BeforeFirst(s: string, pat: string, p: nat)
    requires pat != [] && p <= |s|
    requires forall j: nat | j < p :: !OccursAt(s, pat, j)
    ensures !Contains(s[..p], pat)
  {
    forall j: nat | j <= p ensures !OccursAt(s[..p], pat, j) {
      if j + |pat| <= p {
        SliceOfSlice(s, 0, p, j, j + |pat|);
        assert !OccursAt(s, pat, j);
      }
    }
  }

  lemma {:induction false} ContainsTransitive(a: string, b: string, c: string)
    requires Contains(b, a) && Contains(c, b)
    ensures Contains(c, a)
  {
    var i: nat :| OccursAt(b, a, i);
    assert OccursAt(b, a, i);
    var j: nat :| OccursAt(c, b, j);
    assert OccursAt(c, b, j);
    SliceOfSlice(c, j, j + |b|, i, i + |a|);
    assert OccursAt(c, a, j + i);
  }

  lemma ContainsEmpty(s: string)
    ensures Contains(s, "")
  {
    assert OccursAt(s, "", 0);
  }

  lemma {:induction false} ContainsLower(s: string, pat: string)
    requires Contains(s, pat)
    ensures Contains(ToLower(s), ToLower(pat))
  {
    var i: nat :| OccursAt(s, pat, i);
    assert OccursAt(s, pat, i);
    ToLowerSlice(s, i, i + |pat|);
    assert OccursAt(ToLower(s), ToLower(pat), i);
  }

  // ---------------------------------------------------------------------------
  // Joining and splitting

  /** Python's `sep.join(xs)` and JavaScript's `xs.join(sep)`. */
  function Join(xs: seq<string>, sep: string): string {
    if |xs| == 0 then "" else if |xs| == 1 then xs[0] else xs[0] + sep + Join(xs[1..], sep)
  }

  /** Index of the first `c` in `s`, or `|s|` when there is none. */
  function IndexOfChar(s: string, c: char): (k: nat)
    ensures k <= |s|
    ensures k < |s| ==> s[k] == c
    ensures c !in s[..k]
    decreases |s|
  {
    if s == [] then 0 else if s[0] == c then 0 else 1 + IndexOfChar(s[1..], c)
  }

  /** `s.split(c)` for a one-character separator, in both languages. */
  function Split(s: string, c: char): (r: seq<string>)
    ensures |r| >= 1
    decreases |s|
  {
    var k := IndexOfChar(s, c);
    if k == |s| then [s] else [s[..k]] + Split(s[k + 1..], c)
  }

  /** Splitting at the first separator: the text before it, then the pieces of the rest. */
  lemma SplitFirst(s: string, c: char)
    requires IndexOfChar(s, c) < |s|
    ensures Split(s, c) == [s[..IndexOfChar(s, c)]] + Split(s[IndexOfChar(s, c) + 1..], c)
  {
  }

  lemma SplitFirstAt(s: string, c: char, k: nat)
    requires k == IndexOfChar(s, c) && k < |s|
    ensures Split(s, c) == [s[..k]] + Split(s[k + 1..], c)
  {
    SplitFirst(s, c);
  }

  /** No piece holds the separator. */
  lemma {:induction false} SplitFree(s: string, c: char)
    ensures forall i | 0 <= i < |Split(s, c)| :: c !in Split(s, c)[i]
    decreases |s|
  {
    var k := IndexOfChar(s, c);
    if k < |s| {
      var rest := Split(s[k + 1..], c);
      SplitFirstAt(s, c, k);
      SplitFree(s[k + 1..], c);
      forall i | 0 <= i < |Split(s, c)|
        ensures c !in Split(s, c)[i]
      {
        if i > 0 {
          assert Split(s, c)[i] == rest[i - 1];
        }
      }
    }
  }

  lemma {:induction false} JoinSplit(s: string, c: char)
    ensures Join(Split(s, c), [c]) == s
    decreases |s|
  {
    var k := IndexOfChar(s, c);
    if k < |s| {
      var rest := Split(s[k + 1..], c);
      JoinSplit(s[k + 1..], c);
      assert Split(s, c) == [s[..k]] + rest;
      assert s == s[..k] + [c] + s[k + 1..];
    }
  }

  /** The first `c` of `a + b`, when `a` lacks it, is found in `b`. */
  lemma {:induction false} IndexOfCharAppend(a: string, b: string, c: char)
    requires c !in a
    ensures IndexOfChar(a + b, c) == |a| + IndexOfChar(b, c)
    decreases |a|
  {
    if a != [] {
      assert (a + b)[0] == a[0];
      assert (a + b)[1..] == a[1..] + b;
      IndexOfCharAppend(a[1..], b, c);
    } else {
      assert a + b == b;
    }
  }

  /** A first character other than the separator belongs to the first piece. */
  lemma SplitDropOne(s: string, c: char)
    requires s != [] && s[0] != c
    ensures Split(s, c) == [[s[0]] + Split(s[1..], c)[0]] + Split(s[1..], c)[1..]
  {
    var k := IndexOfChar(s, c);
    assert k == 1 + IndexOfChar(s[1..], c);
    if k < |s| {
      SplitFirstAt(s, c, k);
      SplitFirstAt(s[1..], c, k - 1);
      assert [s[0]] + s[1..][..k - 1] == s[..k];
      assert s[1..][k..] == s[k + 1..];
    } else {
      assert [s[0]] + s[1..] == s;
    }
  }

  predicate IsWord(w: string) {
    w != [] && forall j | 0 <= j < |w| :: !IsSpace(w[j], Python)
  }

  /** Python's `s.split()` with no argument: the maximal runs of non-whitespace. */
  function Words(s: string): (r: seq<string>)
    ensures forall i | 0 <= i < |r| :: IsWord(r[i])
    decreases |s|
  {
    var t := TrimStart(s, Python);
    if t == [] then []
    else
      var k := FirstSpace(t);
      LeadingWord(t, k);
      var rest := Words(t[k..]);
      ConsWord(t[..k], rest);
      [t[..k]] + rest
  }

  lemma ConsWord(w: string, ws: seq<string>)
    requires IsWord(w)
    requires forall i | 0 <= i < |ws| :: IsWord(ws[i])
    ensures forall i | 0 <= i < |[w] + ws| :: IsWord(([w] + ws)[i])
  {
    forall i | 0 <= i < |[w] + ws|
      ensures IsWord(([w] + ws)[i])
    {
      if i > 0 {
        assert ([w] + ws)[i] == ws[i - 1];
      }
    }
  }

  /** The run in front of the first whitespace of a text that does not start with whitespace
      is a word. */
  lemma LeadingWord(t: string, k: nat)
    requires t != [] && !IsSpace(t[0], Python) && k == FirstSpace(t)
    ensures 0 < k <= |t| && IsWord(t[..k])
  {
    assert forall j | 0 <= j < k :: t[..k][j] == t[j];
  }

  /** Index of the first whitespace character of `s`, or `|s|`. */
  function FirstSpace(s: string): (k: nat)
    ensures k <= |s|
    ensures k < |s| ==> IsSpace(s[k], Python)
    ensures forall j | 0 <= j < k :: !IsSpace(s[j], Python)
    decreases |s|
  {
    if s == [] then 0 else if IsSpace(s[0], Python) then 0 else 1 + FirstSpace(s[1..])
  }

  lemma {:induction false} FirstSpaceOfWord(w: string, rest: string)
    requires forall j | 0 <= j < |w| :: !IsSpace(w[j], Python)
    requires rest == [] || IsSpace(rest[0], Python)
    ensures FirstSpace(w + rest) == |w|
    decreases |w|
  {
    if w == [] {
      assert w + rest == rest;
    } else {
      assert (w + rest)[0] == w[0];
      assert (w + rest)[1..] == w[1..] + rest;
      FirstSpaceOfWord(w[1..], rest);
    }
  }

  lemma WordsCons(w: string, rest: string)
    requires IsWord(w)
    requires rest == [] || IsSpace(rest[0], Python)
    ensures Words(w + rest) == [w] + Words(rest)
  {
    TrimStartSkips("", w + rest, Python);
    assert "" + (w + rest) == w + rest;
    FirstSpaceOfWord(w, rest);
    assert (w + rest)[..|w|] == w;
    assert (w + rest)[|w|..] == rest;
  }

  /** Whitespace in front of the text adds no word. */
  lemma WordsSkipSpace(c: char, t: string)
    requires IsSpace(c, Python)
    ensures Words([c] + t) == Words(t)
  {
    TrimStartCons(c, t, Python);
  }

  /** A text has no words exactly when it is all whitespace. */
  lemma WordsNone(s: string)
    ensures Words(s) == [] <==> AllSpace(s, Python)
  {
    TrimStartEmpty(s, Python);
  }

  /** The empty text has no words. */
  lemma WordsEmpty()
    ensures Words("") == []
  {
  }

  lemma WordsOfWord(w: string)
    requires IsWord(w)
    ensures Words(w) == [w]
  {
    WordsCons(w, "");
    assert w + "" == w;
    assert Words("") == [];
  }

  lemma Singleton<T>(xs: seq<T>)
    requires |xs| == 1
    ensures xs == [xs[0]]
  {
  }

  lemma HeadTail<T>(xs: seq<T>)
    requires |xs| > 0
    ensures [xs[0]] + xs[1..] == xs
  {
  }

  lemma {:induction false} WordsOfJoin(ws: seq<string>)
    requires forall i | 0 <= i < |ws| :: IsWord(ws[i])
    ensures Words(Join(ws, " ")) == ws
    decreases |ws|
  {
    if |ws| == 0 {
    } else if |ws| == 1 {
      WordsOfWord(ws[0]);
      Singleton(ws);
    } else {
      var tail := Join(ws[1..], " ");
      assert Join(ws, " ") == ws[0] + ([' '] + tail);
      WordsOfJoin(ws[1..]);
      WordsFront(ws[0], tail);
      HeadTail(ws);
    }
  }

  /** A word, a space, then more text: the word comes first, then the words of the rest. */
  lemma WordsFront(w: string, tail: string)
    requires IsWord(w)
    ensures Words(w + ([' '] + tail)) == [w] + Words(tail)
  {
    WordsCons(w, [' '] + tail);
    WordsSkipSpace(' ', tail);
  }
}
