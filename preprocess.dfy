/**
 * `preprocess_transcript`: filler words are cut out as whole words regardless of case, every
 * run of whitespace becomes one space, whitespace in front of punctuation is dropped, and the
 * ends are stripped.
 */
module Preprocess {
  import opened Text

  const Fillers: seq<string> := ["um", "uh", "like", "you know", "sort of", "kind of", "I mean"]

  /** The characters of the class `[.,;:!?]`. */
  predicate IsPunct(c: char) {
    c == '.' || c == ',' || c == ';' || c == ':' || c == '!' || c == '?'
  }

  /** `\b` at position `i`: a word character on exactly one side. */
  predicate Boundary(t: string, i: nat) {
    (0 < i <= |t| && IsWordChar(t[i - 1])) != (i < |t| && IsWordChar(t[i]))
  }

  /** `\b<w>\b` matches at `i` under `re.IGNORECASE`. */
  predicate FillerAt(t: string, w: string, i: nat) {
    i + |w| <= |t| && Boundary(t, i) && ToLower(t[i..i + |w|]) == ToLower(w) && Boundary(t, i + |w|)
  }

  /** `re.sub(r'\b' + w + r'\b', '', t, flags=re.IGNORECASE)`, continuing the left-to-right scan
      of the original `t` at position `i`. */
  function RemoveFrom(t: string, w: string, i: nat): (r: string)
    requires w != [] && i <= |t|
    ensures |r| <= |t| - i
    decreases |t| - i
  {
    if i == |t| then []
    else if FillerAt(t, w, i) then RemoveFrom(t, w, i + |w|)
    else [t[i]] + RemoveFrom(t, w, i + 1)
  }

  function RemoveWord(t: string, w: string): (r: string)
    requires w != []
    ensures |r| <= |t|
  {
    RemoveFrom(t, w, 0)
  }

  /** The filler loop: each filler is removed from the result of removing the ones before it. */
  function RemoveFillers(t: string, fs: seq<string>): (r: string)
    requires forall i | 0 <= i < |fs| :: fs[i] != []
    ensures |r| <= |t|
  {
    if fs == [] then t else RemoveWord(RemoveFillers(t, fs[..|fs| - 1]), fs[|fs| - 1])
  }

  /** A scan that finds no match copies the rest of the text. */
  lemma {:induction false} RemoveFromNoMatch(t: string, w: string, i: nat)
    requires w != [] && i <= |t|
    requires forall j: nat | i <= j < |t| :: !FillerAt(t, w, j)
    ensures RemoveFrom(t, w, i) == t[i..]
    decreases |t| - i
  {
    if i < |t| {
      RemoveFromNoMatch(t, w, i + 1);
      assert t[i..] == [t[i]] + t[i + 1..];
    }
  }

  predicate IsWordText(s: string) {
    forall i | 0 <= i < |s| :: IsWordChar(s[i])
  }

  /** Fillers go only as whole words: a word that is not itself the filler (ignoring case) keeps
      every character, however it starts or ends. */
  lemma WholeWordsOnly(s: string, w: string)
    requires w != [] && IsWordText(s) && ToLower(s) != ToLower(w)
    ensures RemoveWord(s, w) == s
  {
    forall j: nat | j < |s| ensures !FillerAt(s, w, j) {
      if j > 0 {
        assert !Boundary(s, j) by { assert IsWordChar(s[j - 1]) && IsWordChar(s[j]); }
      } else if |w| < |s| {
        assert !Boundary(s, |w|) by { assert IsWordChar(s[|w| - 1]) && IsWordChar(s[|w|]); }
      } else if |w| == |s| {
        assert s[0..|w|] == s;
      }
    }
    RemoveFromNoMatch(s, w, 0);
  }

  /** A filler with a letter the text lacks in either case is never found in it. */
  lemma AbsentLetter(s: string, w: string, k: nat)
    requires k < |w|
    requires forall j | 0 <= j < |s| :: LowerChar(s[j]) != LowerChar(w[k])
    ensures RemoveWord(s, w) == s
  {
    forall j: nat | j < |s| ensures !FillerAt(s, w, j) {
      if j + |w| <= |s| {
        assert ToLower(s[j..j + |w|])[k] == LowerChar(s[j + k]);
      }
    }
    RemoveFromNoMatch(s, w, 0);
  }

  /** The match ignores case: a text that is the filler in any casing disappears entirely. */
  lemma FillerAloneRemoved(s: string, w: string)
    requires w != [] && IsWordChar(w[0]) && IsWordChar(w[|w| - 1]) && ToLower(s) == ToLower(w)
    ensures RemoveWord(s, w) == []
  {
    assert LowerChar(s[0]) == LowerChar(w[0]) && LowerChar(s[|s| - 1]) == LowerChar(w[|w| - 1]);
    assert s[0..|w|] == s;
    assert FillerAt(s, w, 0);
  }

  lemma RemoveFillersStep(t: string, k: nat)
    requires k < |Fillers|
    ensures RemoveFillers(t, Fillers[..k + 1]) == RemoveWord(RemoveFillers(t, Fillers[..k]), Fillers[k])
  {
    assert Fillers[..k + 1][..k] == Fillers[..k];
  }

    // ---------------------------------------------------------------------------
  // Whitespace

  predicate NoDoubleSpace(s: string) {
    forall i | 0 <= i < |s| - 1 :: !(IsSpace(s[i], Python) && IsSpace(s[i + 1], Python))
  }

  predicate NoPunct(s: string) {
    forall j | 0 <= j < |s| :: !IsPunct(s[j])
  }

  predicate NoSpaceBeforePunct(s: string) {
    forall i | 0 <= i < |s| - 1 :: IsSpace(s[i], Python) ==> !IsPunct(s[i + 1])
  }

  /** `re.sub(r'\s+', ' ', t)`. */
  function CollapseSpace(t: string): (r: string)
    ensures r == [] <==> t == []
    ensures t != [] ==> (IsSpace(r[0], Python) <==> IsSpace(t[0], Python))
    ensures t != [] && !IsSpace(t[0], Python) ==> r[0] == t[0]
    ensures NoDoubleSpace(r)
    ensures forall i | 0 <= i < |r| :: IsSpace(r[i], Python) ==> r[i] == ' '
    decreases |t|
  {
    if t == [] then []
    else if IsSpace(t[0], Python) then
      var u := TrimStart(t, Python);
      [' '] + CollapseSpace(u)
    else [t[0]] + CollapseSpace(t[1..])
  }

  /** `re.sub(r'\s+([.,;:!?])', r'\1', t)`: a maximal whitespace run followed by punctuation
      is dropped; any other run is kept. */
  function FixPunct(t: string): (r: string)
    ensures t != [] && !IsSpace(t[0], Python) ==> r != [] && r[0] == t[0]
    decreases |t|
  {
    if t == [] then []
    else if IsSpace(t[0], Python) then
      var u := TrimStart(t, Python);
      if u != [] && IsPunct(u[0]) then FixPunct(u) else t[..|t| - |u|] + FixPunct(u)
    else [t[0]] + FixPunct(t[1..])
  }

  /** After the fix no whitespace stands in front of punctuation. */
  lemma {:induction false} FixPunctNoSpaceBeforePunct(t: string)
    ensures NoSpaceBeforePunct(FixPunct(t))
    decreases |t|
  {
    if t == [] {
    } else if IsSpace(t[0], Python) {
      var u := TrimStart(t, Python);
      FixPunctNoSpaceBeforePunct(u);
      if !(u != [] && IsPunct(u[0])) {
        var run := t[..|t| - |u|];
        assert AllSpace(run, Python);
        assert forall j | 0 <= j < |run| :: !IsPunct(run[j]);
        ConcatNoSpaceBeforePunct(run, FixPunct(u));
      }
    } else {
      FixPunctNoSpaceBeforePunct(t[1..]);
      ConcatNoSpaceBeforePunct([t[0]], FixPunct(t[1..]));
    }
  }

  /** The fix never puts two whitespace characters next to each other. */
  lemma {:induction false} FixPunctNoDoubleSpace(t: string)
    requires NoDoubleSpace(t)
    ensures NoDoubleSpace(FixPunct(t))
    decreases |t|
  {
    if t == [] {
    } else if IsSpace(t[0], Python) {
      SingleSpaceRun(t);
      SuffixKeepsNoDoubleSpace(t, 1);
      FixPunctNoDoubleSpace(t[1..]);
      assert t[..1] == [t[0]];
      ConcatNoDoubleSpace([t[0]], FixPunct(t[1..]));
    } else {
      SuffixKeepsNoDoubleSpace(t, 1);
      FixPunctNoDoubleSpace(t[1..]);
      ConcatNoDoubleSpace([t[0]], FixPunct(t[1..]));
    }
  }

  /** Where no two whitespace characters are adjacent, a leading run is one character long. */
  lemma SingleSpaceRun(t: string)
    requires NoDoubleSpace(t) && t != [] && IsSpace(t[0], Python)
    ensures TrimStart(t, Python) == t[1..]
  {
    if |t| > 1 {
      assert !(IsSpace(t[0], Python) && IsSpace(t[1], Python));
    }
  }

  lemma ConcatNoSpaceBeforePunct(a: string, b: string)
    requires NoSpaceBeforePunct(a) && NoSpaceBeforePunct(b)
    requires a != [] && b != [] && IsSpace(a[|a| - 1], Python) ==> !IsPunct(b[0])
    ensures NoSpaceBeforePunct(a + b)
  {
    var s := a + b;
    forall i | 0 <= i < |s| - 1 ensures IsSpace(s[i], Python) ==> !IsPunct(s[i + 1]) {
      if i + 1 < |a| {
        assert s[i] == a[i] && s[i + 1] == a[i + 1];
      } else if i + 1 == |a| {
        assert s[i] == a[|a| - 1] && s[i + 1] == b[0];
      } else {
        assert s[i] == b[i - |a|] && s[i + 1] == b[i - |a| + 1];
      }
    }
  }

  lemma ConcatNoDoubleSpace(a: string, b: string)
    requires NoDoubleSpace(a) && NoDoubleSpace(b)
    requires a != [] && b != [] ==> !(IsSpace(a[|a| - 1], Python) && IsSpace(b[0], Python))
    ensures NoDoubleSpace(a + b)
  {
    var s := a + b;
    forall i | 0 <= i < |s| - 1 ensures !(IsSpace(s[i], Python) && IsSpace(s[i + 1], Python)) {
      if i + 1 < |a| {
        assert s[i] == a[i] && s[i + 1] == a[i + 1];
      } else if i + 1 == |a| {
        assert s[i] == a[|a| - 1] && s[i + 1] == b[0];
      } else {
        assert s[i] == b[i - |a|] && s[i + 1] == b[i - |a| + 1];
      }
    }
  }

  lemma SuffixKeepsNoDoubleSpace(s: string, k: nat)
    requires k <= |s| && NoDoubleSpace(s)
    ensures NoDoubleSpace(s[k..])
  {
    forall i | 0 <= i < |s[k..]| - 1
      ensures !(IsSpace(s[k..][i], Python) && IsSpace(s[k..][i + 1], Python))
    {
      assert s[k..][i] == s[k + i] && s[k..][i + 1] == s[k + i + 1];
    }
  }

  lemma SliceKeeps(s: string, a: nat, b: nat)
    requires a <= b <= |s|
    requires NoDoubleSpace(s) && NoSpaceBeforePunct(s)
    ensures NoDoubleSpace(s[a..b]) && NoSpaceBeforePunct(s[a..b])
  {
    forall i | 0 <= i < |s[a..b]| - 1
      ensures !(IsSpace(s[a..b][i], Python) && IsSpace(s[a..b][i + 1], Python))
      ensures IsSpace(s[a..b][i], Python) ==> !IsPunct(s[a..b][i + 1])
    {
      assert s[a..b][i] == s[a + i] && s[a..b][i + 1] == s[a + i + 1];
    }
  }

  /** The whitespace steps that follow the filler loop: collapse, punctuation fix, strip. */
  function Normalise(f: string): (r: string)
    ensures IsTrimmed(r, Python)
    ensures NoDoubleSpace(r)
    ensures NoSpaceBeforePunct(r)
  {
    var c := CollapseSpace(f);
    var t := FixPunct(c);
    FixPunctNoSpaceBeforePunct(c);
    FixPunctNoDoubleSpace(c);
    var u := TrimStart(t, Python);
    SliceKeeps(t, |t| - |u|, |t|);
    SliceKeeps(u, 0, |TrimEnd(u, Python)|);
    Trim(t, Python)
  }

  /** The whole normalisation, in the order the source applies the steps. */
  function PreprocessSpec(text: string): (r: string)
    ensures IsTrimmed(r, Python)
    ensures NoDoubleSpace(r)
    ensures NoSpaceBeforePunct(r)
  {
    FillersNonEmpty();
    Normalise(RemoveFillers(text, Fillers))
  }

  lemma FillersNonEmpty()
    ensures forall i | 0 <= i < |Fillers| :: Fillers[i] != []
  {
    forall i | 0 <= i < |Fillers| ensures Fillers[i] != [] {
      assert |Fillers[i]| >= 2;
    }
  }

  method PreprocessTranscript(text: string) returns (r: string)
    ensures r == PreprocessSpec(text)
  {
    var t := text;
    for i := 0 to |Fillers|
      invariant t == RemoveFillers(text, Fillers[..i])
    {
      assert Fillers[..i + 1][..i] == Fillers[..i];
      t := RemoveWord(t, Fillers[i]);
    }
    assert Fillers[..|Fillers|] == Fillers;
    t := CollapseSpace(t);
    t := FixPunct(t);
    r := Trim(t, Python);
  }

  // ---------------------------------------------------------------------------
  // What the normalisation does to particular inputs

  lemma {:induction false} NoSpaceUnchanged(s: string)
    requires forall j | 0 <= j < |s| :: !IsSpace(s[j], Python)
    ensures CollapseSpace(s) == s && FixPunct(s) == s
    decreases |s|
  {
    if s != [] {
      NoSpaceUnchanged(s[1..]);
      assert s == [s[0]] + s[1..];
    }
  }

  /** Without punctuation there is nothing for the punctuation fix to remove. */
  lemma {:induction false} FixPunctNoPunct(s: string)
    requires NoPunct(s)
    ensures FixPunct(s) == s
    decreases |s|, 1
  {
    if s != [] {
      if IsSpace(s[0], Python) {
        FixPunctNoPunctRun(s);
      } else {
        FixPunctNoPunctChar(s);
      }
    }
  }

  lemma {:induction false} FixPunctNoPunctRun(s: string)
    requires s != [] && IsSpace(s[0], Python) && NoPunct(s)
    ensures FixPunct(s) == s
    decreases |s|, 0
  {
    var u := TrimStart(s, Python);
    FixPunctRunKept(s);
    FixPunctNoPunct(u);
    RunRegroup(s, u, FixPunct(s), FixPunct(u));
  }

  /** The kept run followed by the unchanged rest is the whole text. */
  lemma RunRegroup(s: string, u: string, fs: string, fu: string)
    requires |u| <= |s| && u == s[|s| - |u|..]
    requires fs == s[..|s| - |u|] + fu && fu == u
    ensures fs == s
  {
    assert s[..|s| - |u|] + s[|s| - |u|..] == s;
  }

  lemma {:induction false} FixPunctNoPunctChar(s: string)
    requires s != [] && !IsSpace(s[0], Python) && NoPunct(s)
    ensures FixPunct(s) == s
    decreases |s|, 0
  {
    NoPunctTail(s);
    FixPunctNoPunct(s[1..]);
    FixPunctWordChar(s);
    HeadTail(s);
  }

  lemma NoPunctTail(s: string)
    requires s != [] && NoPunct(s)
    ensures NoPunct(s[1..])
  {
    forall j | 0 <= j < |s[1..]| ensures !IsPunct(s[1..][j]) {
      assert s[1..][j] == s[j + 1];
    }
  }

  /** A character that is not whitespace is copied by the punctuation fix. */
  lemma FixPunctWordChar(s: string)
    requires s != [] && !IsSpace(s[0], Python)
    ensures FixPunct(s) == [s[0]] + FixPunct(s[1..])
  {
  }

  /** A whitespace run not followed by punctuation is kept, and the rest has no punctuation. */
  lemma FixPunctRunKept(s: string)
    requires s != [] && IsSpace(s[0], Python)
    requires NoPunct(s)
    ensures var u := TrimStart(s, Python);
      FixPunct(s) == s[..|s| - |u|] + FixPunct(u) && NoPunct(u)
  {
    var u := TrimStart(s, Python);
    var k := |s| - |u|;
    forall j | 0 <= j < |u| ensures !IsPunct(u[j]) {
      assert u[j] == s[k + j];
    }
    assert u != [] ==> !IsPunct(u[0]);
  }

  /** Two words separated by any whitespace run collapse to the words and one space. */
  lemma {:induction false} CollapseTwoWords(a: string, sp: string, b: string)
    requires IsWordText(a) && IsWordText(b) && sp != [] && AllSpace(sp, Python)
    ensures CollapseSpace(a + sp + b) == a + " " + b
    decreases |a|
  {
    if a == [] {
      assert a + sp + b == sp + b;
      CollapseRunThenWord(sp, b);
    } else {
      var a' := a[1..];
      assert IsWordText(a') by {
        forall i | 0 <= i < |a'| ensures IsWordChar(a'[i]) {
          assert a'[i] == a[i + 1];
        }
      }
      assert a == [a[0]] + a';
      calc {
        CollapseSpace(a + sp + b);
        { ConsRegroup(a[0], a', sp, b); }
        CollapseSpace([a[0]] + (a' + sp + b));
        { CollapseWordChar(a[0], a' + sp + b); }
        [a[0]] + CollapseSpace(a' + sp + b);
        { CollapseTwoWords(a', sp, b); }
        [a[0]] + (a' + " " + b);
        { ConsRegroup(a[0], a', " ", b); }
        a + " " + b;
      }
    }
  }

  lemma ConsRegroup(c: char, a: string, x: string, b: string)
    ensures [c] + (a + x + b) == [c] + a + x + b
  {
  }

  /** A character that is not whitespace is copied by the collapse. */
  lemma CollapseWordChar(c: char, rest: string)
    requires !IsSpace(c, Python)
    ensures CollapseSpace([c] + rest) == [c] + CollapseSpace(rest)
  {
    assert ([c] + rest)[1..] == rest;
  }

  lemma CollapseRunThenWord(sp: string, b: string)
    requires IsWordText(b) && sp != [] && AllSpace(sp, Python)
    ensures CollapseSpace(sp + b) == " " + b
  {
    assert (sp + b)[0] == sp[0];
    assert b == [] || !IsSpace(b[0], Python);
    TrimStartSkips(sp, b, Python);
    NoSpaceUnchanged(b);
  }

  lemma {:induction false} KeepsThroughFillers(w: string, k: nat)
    requires k <= |Fillers| && IsWordText(w)
    requires forall i | 0 <= i < |Fillers| :: ToLower(w) != ToLower(Fillers[i])
    ensures RemoveFillers(w, Fillers[..k]) == w
    decreases k
  {
    if k > 0 {
      KeepsThroughFillers(w, k - 1);
      RemoveFillersStep(w, k - 1);
      WholeWordsOnly(w, Fillers[k - 1]);
    }
  }

  /** A single word that is none of the fillers comes through the normalisation unchanged. */
  lemma NonFillerWordSurvives(w: string)
    requires w != [] && IsWordText(w)
    requires forall i | 0 <= i < |Fillers| :: ToLower(w) != ToLower(Fillers[i])
    ensures PreprocessSpec(w) == w
  {
    KeepsThroughFillers(w, |Fillers|);
    assert Fillers[..|Fillers|] == Fillers;
    NoSpaceUnchanged(w);
  }

  /** "umbrella" begins with the filler "um" and still survives. */
  lemma UmbrellaSurvives()
    ensures PreprocessSpec("umbrella") == "umbrella"
  {
    var w := "umbrella";
    forall i | 0 <= i < |Fillers| ensures ToLower(w) != ToLower(Fillers[i]) {
      if i == 3 {
        assert ToLower(w)[0] != ToLower(Fillers[i])[0];
      } else {
        assert |ToLower(Fillers[i])| != 8;
      }
    }
    NonFillerWordSurvives(w);
  }

  lemma YouKnowRemovedOnce()
    ensures RemoveWord("you you know know", "you know") == "you  know"
  {
    var s, w := "you you know know", "you know";
    assert s[..4] + s[12..] == "you  know";
    assert s[4..12] == w;
    assert forall j: nat | j < 4 :: !FillerAt(s, w, j) by {
      assert ToLower(s[0..8])[4] != ToLower(w)[4];
      assert !Boundary(s, 1) && !Boundary(s, 2);
      assert ToLower(s[3..11])[0] != ToLower(w)[0];
    }
    RemoveFromCopies(s, w, 0, 4);
    assert FillerAt(s, w, 4);
    RemoveFromNoMatch(s, w, 12);
  }

  /** A stretch of positions where the filler does not match is copied as it is. */
  lemma {:induction false} RemoveFromCopies(t: string, w: string, i: nat, j: nat)
    requires w != [] && i <= j <= |t|
    requires forall k: nat | i <= k < j :: !FillerAt(t, w, k)
    ensures RemoveFrom(t, w, i) == t[i..j] + RemoveFrom(t, w, j)
    decreases j - i
  {
    if i < j {
      var rest, tail := RemoveFrom(t, w, j), RemoveFrom(t, w, i + 1);
      assert tail == t[i + 1..j] + rest by {
        RemoveFromCopies(t, w, i + 1, j);
      }
      assert RemoveFrom(t, w, i) == [t[i]] + tail by {
        assert !FillerAt(t, w, i);
      }
      ConsSlice(t, i, j, rest);
    }
  }

  lemma ConsSlice(t: string, i: nat, j: nat, rest: string)
    requires i < j <= |t|
    ensures [t[i]] + (t[i + 1..j] + rest) == t[i..j] + rest
  {
    assert t[i..j] == [t[i]] + t[i + 1..j];
  }

  /** One filler that cannot occur in `t` leaves the loop's intermediate text as it was. */
  lemma StepAbsent(text: string, t: string, k: nat, c: nat)
    requires k < |Fillers| && c < |Fillers[k]|
    requires RemoveFillers(text, Fillers[..k]) == t
    requires forall j | 0 <= j < |t| :: LowerChar(t[j]) != LowerChar(Fillers[k][c])
    ensures RemoveFillers(text, Fillers[..k + 1]) == t
  {
    RemoveFillersStep(text, k);
    AbsentLetter(t, Fillers[k], c);
  }

  /** None of the first three fillers ("um", "uh", "like") occurs in a text of the letters
      y, o, u, k, n, w and spaces. */
  lemma FirstThreeAbsent(t: string)
    requires forall j | 0 <= j < |t| :: t[j] in "youknw "
    ensures RemoveFillers(t, Fillers[..3]) == t
  {
    FirstThreeUnrolled(t);
    OnlyYouKnow(t, 'm');
    AbsentLetter(t, "um", 1);
    OnlyYouKnow(t, 'h');
    AbsentLetter(t, "uh", 1);
    OnlyYouKnow(t, 'l');
    AbsentLetter(t, "like", 0);
  }

  /** The first three rounds of the filler loop, written out. */
  lemma FirstThreeUnrolled(t: string)
    ensures RemoveFillers(t, Fillers[..3]) == RemoveWord(RemoveWord(RemoveWord(t, "um"), "uh"), "like")
  {
    assert Fillers[..1][..0] == [];
    assert RemoveFillers(t, Fillers[..1]) == RemoveWord(t, "um");
    assert Fillers[..2][..1] == Fillers[..1];
    assert RemoveFillers(t, Fillers[..2]) == RemoveWord(RemoveWord(t, "um"), "uh");
    assert Fillers[..3][..2] == Fillers[..2];
  }

  /** A text of the letters of "you know" avoids any letter outside them, in either case. */
  lemma OnlyYouKnow(t: string, ch: char)
    requires forall j | 0 <= j < |t| :: t[j] in "youknw "
    requires ch in "mhlsfIa"
    ensures forall j | 0 <= j < |t| :: LowerChar(t[j]) != LowerChar(ch)
  {
  }

  /** Nor do the last three ("sort of", "kind of", "I mean"). */
  lemma LastThreeAbsent(text: string, t: string)
    requires forall j | 0 <= j < |t| :: t[j] in "youknw "
    requires RemoveFillers(text, Fillers[..4]) == t
    ensures RemoveFillers(text, Fillers) == t
  {
    assert Fillers[4][0] == 's' && Fillers[5][1] == 'i' && Fillers[6][2] == 'm';
    OnlyYouKnow(t, 's');
    StepAbsent(text, t, 4, 0);
    OnlyYouKnow(t, 'I');
    StepAbsent(text, t, 5, 1);
    OnlyYouKnow(t, 'm');
    StepAbsent(text, t, 6, 2);
    assert Fillers[..7] == Fillers;
  }

  lemma FillersOfRepeatedYouKnow()
    ensures RemoveFillers("you you know know", Fillers) == "you  know"
  {
    var s, t := "you you know know", "you  know";
    FirstThreeAbsent(s);
    RemoveFillersStep(s, 3);
    YouKnowRemovedOnce();
    LastThreeAbsent(s, t);
  }

  lemma FillersOfYouKnow()
    ensures RemoveFillers("you know", Fillers) == ""
  {
    var u := "you know";
    FirstThreeAbsent(u);
    RemoveFillersStep(u, 3);
    FillerAloneRemoved(u, "you know");
    LastThreeAbsent(u, "");
  }

  /** Two words with a double space between them come out with one space. */
  lemma TwoWordsNormalised(a: string, b: string)
    requires a != [] && b != [] && IsWordText(a) && IsWordText(b)
    ensures Normalise(a + "  " + b) == a + " " + b
  {
    var t := a + " " + b;
    assert CollapseSpace(a + "  " + b) == t by {
      CollapseTwoWords(a, "  ", b);
    }
    assert FixPunct(t) == t by {
      SpacedWordsNoPunct(a, b);
      FixPunctNoPunct(t);
    }
    assert IsTrimmed(t, Python) by {
      assert t[0] == a[0] && t[|t| - 1] == b[|b| - 1];
    }
    TrimOfTrimmed(t, Python);
  }

  lemma SpacedWordsNoPunct(a: string, b: string)
    requires IsWordText(a) && IsWordText(b)
    ensures NoPunct(a + " " + b)
  {
    var t := a + " " + b;
    forall j | 0 <= j < |t| ensures !IsPunct(t[j]) {
      if j < |a| {
        assert t[j] == a[j];
      } else if |a| < j {
        assert t[j] == b[j - |a| - 1];
      }
    }
  }

  lemma RepeatedYouKnowNormalised()
    ensures PreprocessSpec("you you know know") == "you know"
  {
    assert "you  know" == "you" + "  " + "know";
    assert "you" + " " + "know" == "you know";
    FillersOfRepeatedYouKnow();
    TwoWordsNormalised("you", "know");
  }

  lemma YouKnowNormalised()
    ensures PreprocessSpec("you know") == ""
  {
    FillersOfYouKnow();
  }

  /** The normalisation is not idempotent: cutting "you know" out of the middle of
      "you you know know" joins the remaining words into a new "you know". */
  lemma NotIdempotent()
    ensures PreprocessSpec("you you know know") == "you know"
    ensures PreprocessSpec("you know") == ""
  {
    RepeatedYouKnowNormalised();
    YouKnowNormalised();
  }
}
