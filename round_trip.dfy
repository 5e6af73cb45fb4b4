/**
 * The back end's summary layout read back by the front end: parsing the text that
 * `structure_summary` writes gives back the four clinical lists it was given, and the Summary
 * tab shows the stripped summary prose, provided the items and the prose cannot be mistaken
 * for the layout's own headings.
 */
module SummaryRoundTrip {
  import opened Wrappers
  import opened Text
  import opened MedicalTerms
  import opened SummaryStructure
  import opened SummaryDisplay

  // ---------------------------------------------------------------------------
  // Hypotheses

  /** A heading the parser looks for: one line, ending in its only ':', starting with a character
      that is neither whitespace nor a hyphen. */
  predicate ColonHeading(h: string) {
    |h| > 1 && h[|h| - 1] == ':' && ':' !in h[..|h| - 1] && '\n' !in h && h[0] != ' ' && h[0] != '-'
  }

  /** Text that contains none of the four list headings the front end searches for. */
  predicate FreeOfHeadings(x: string) {
    !Contains(x, DiagnosesLabel) && !Contains(x, SymptomsLabel) && !Contains(x, MedicationsLabel)
    && !Contains(x, ProceduresLabel)
  }

  /** A list item that survives the trip: non-empty, already trimmed, on one line, without
      hyphens and without any list heading inside it. */
  predicate ItemOk(x: string) {
    BulletOk(x) && FreeOfHeadings(x)
  }

  predicate ItemsOk(xs: seq<string>) {
    forall x | x in xs :: ItemOk(x)
  }

  /** The summary prose, once stripped, holds no list heading and neither of the two markers
      the Summary tab splits on. */
  predicate ProseOk(text: string) {
    var t := Trim(text, Python);
    FreeOfHeadings(t) && !Contains(t, SummaryLabel) && !Contains(t, KeyInfoLabel)
  }

  /** The four parsed lists hold good items, and the test results (written after them but never
      parsed) hold no list heading. */
  predicate TermsOk(terms: map<Category, seq<string>>)
    requires HasListKeys(terms)
  {
    ItemsOk(terms[Diagnoses]) && ItemsOk(terms[Symptoms]) && ItemsOk(terms[Medications])
    && ItemsOk(terms[Procedures]) && forall x | x in terms[TestResults] :: FreeOfHeadings(x)
  }

  /** Every line of `xs` is free of `pat`. */
  predicate AllFree(xs: seq<string>, pat: string) {
    forall x | x in xs :: !Contains(x, pat)
  }

  // ---------------------------------------------------------------------------
  // Where a pattern cannot occur

  /** A line whose only ':' (if any) is its last character holds a colon-terminated pattern only
      as a suffix; `j` names a position where that suffix differs from the pattern. */
  lemma {:induction false} ColonFree(line: string, pat: string, j: nat)
    requires ColonHeading(pat)
    requires ColonLast(line)
    requires |pat| > |line| || line[|line| - 1] != ':' || (j < |pat| && line[|line| - |pat| + j] != pat[j])
    ensures !Contains(line, pat)
  {
    forall q: nat | q <= |line| ensures !OccursAt(line, pat, q) {
      if q + |pat| <= |line| {
        var w := line[q..q + |pat|];
        assert w[|pat| - 1] == line[q + |pat| - 1];
        if q + |pat| == |line| && line[|line| - 1] == ':' {
          assert w[j] == line[q + j];
        }
      }
    }
  }

  /** A line without ':' holds no colon-terminated pattern. */
  lemma NoColonFree(line: string, pat: string)
    requires ColonHeading(pat) && ':' !in line
    ensures !Contains(line, pat)
  {
    ColonFree(line, pat, 0);
  }

  /** Text put before a pattern-free string cannot create an occurrence if it lacks the pattern's
      first character. */
  lemma {:induction false} NotContainsPrepend(pat: string, a: string, b: string)
    requires pat != [] && pat[0] !in a
    requires !Contains(b, pat)
    ensures !Contains(a + b, pat)
  {
    var s := a + b;
    forall i: nat | i <= |s| ensures !OccursAt(s, pat, i) {
      if i < |a| {
        if i + |pat| <= |s| {
          assert s[i..i + |pat|][0] == a[i];
        }
      } else if i + |pat| <= |s| {
        assert s[i..i + |pat|] == b[i - |a|..i - |a| + |pat|];
        assert !OccursAt(b, pat, i - |a|);
      }
    }
  }

  /** Lines free of a pattern without newlines join into text free of it. */
  lemma {:induction false} JoinFree(xs: seq<string>, pat: string)
    requires pat != [] && '\n' !in pat && AllFree(xs, pat)
    ensures !Contains(Join(xs, "\n"), pat)
    decreases |xs|
  {
    if |xs| == 0 {
      NotContainsShort("", pat);
    } else if |xs| > 1 {
      assert xs[0] in xs;
      assert AllFree(xs[1..], pat) by {
        forall x | x in xs[1..] ensures !Contains(x, pat) {
          assert x in xs;
        }
      }
      JoinFree(xs[1..], pat);
      NotContainsJoin(pat, xs[0], '\n', Join(xs[1..], "\n"));
      assert xs[0] + "\n" + Join(xs[1..], "\n") == xs[0] + ['\n'] + Join(xs[1..], "\n");
    } else {
      assert xs[0] in xs;
    }
  }

  // ---------------------------------------------------------------------------
  // The layout's own literals

  predicate ColonLast(line: string) {
    forall k | 0 <= k < |line| - 1 :: line[k] != ':'
  }

  lemma HeadingShapes()
    ensures ColonHeading(DiagnosesLabel) && ColonHeading(SymptomsLabel)
    ensures ColonHeading(MedicationsLabel) && ColonHeading(ProceduresLabel)
    ensures ColonHeading(SummaryLabel) && ColonHeading(KeyInfoLabel)
  {
  }

  lemma LineShapes()
    ensures ColonLast(DiagnosesLabel) && ColonLast(SymptomsLabel) && ColonLast(MedicationsLabel)
    ensures ColonLast(ProceduresLabel) && ColonLast(TestResultsLabel) && ColonLast(SummaryLabel)
    ensures ColonLast(KeyInfoLabel) && ColonLast(DisclaimerHead)
    ensures ':' !in Title && ':' !in Rule && ':' !in DisclaimerTail
  {
    ListLabelsColonLast();
    FrameLabelsColonLast();
    FrameLinesColonFree();
  }

  lemma ListLabelsColonLast()
    ensures ColonLast(DiagnosesLabel) && ColonLast(SymptomsLabel) && ColonLast(MedicationsLabel)
    ensures ColonLast(ProceduresLabel) && ColonLast(TestResultsLabel)
  {
  }

  lemma FrameLabelsColonLast()
    ensures ColonLast(SummaryLabel) && ColonLast(KeyInfoLabel) && ColonLast(DisclaimerHead)
  {
  }

  lemma FrameLinesColonFree()
    ensures ':' !in Title && ':' !in Rule && ':' !in DisclaimerTail
  {
    TitleRuleColonFree();
    TailStartColonFree();
    TailEndColonFree();
  }

  lemma TailStartColonFree()
    ensures ':' !in DisclaimerSubject + DisclaimerOrigin
  {
  }

  lemma TailEndColonFree()
    ensures ':' !in DisclaimerRequest + DisclaimerReviewer && ':' !in DisclaimerEnd
  {
  }

  lemma TitleRuleColonFree()
    ensures ':' !in Title && ':' !in Rule
  {
  }

  // ---------------------------------------------------------------------------
  // Finding the first heading

  /** Text before a heading that does not contain it hides no earlier occurrence: a window
      reaching into the heading would need a ':' before the heading's last character. */
  lemma HeaderFirst(x: string, h: string, z: string)
    requires ColonHeading(h) && !Contains(x, h)
    ensures forall q: nat | q < |x| :: !OccursAt(x + h + z, h, q)
  {
    var s := x + h + z;
    forall q: nat | q < |x| ensures !OccursAt(s, h, q) {
      if q + |h| <= |x| {
        assert s[q..q + |h|] == x[q..q + |h|];
        assert !OccursAt(x, h, q);
      } else if q + |h| <= |s| {
        var k := q + |h| - 1 - |x|;
        assert k < |h| - 1 && s[q + |h| - 1] == h[k];
        assert h[..|h| - 1][k] == h[k];
        assert s[q..q + |h|][|h| - 1] == s[q + |h| - 1];
      }
    }
  }

  // ---------------------------------------------------------------------------
  // Where a section body ends

  /** Every newline is followed by a space: no `\n\n` and no final `\n` can end a body inside. */
  predicate NlSpace(t: string) {
    forall j | 0 <= j < |t| && t[j] == '\n' :: j + 1 < |t| && t[j + 1] == ' '
  }

  lemma NlSpaceConcat(a: string, b: string)
    requires NlSpace(a) && NlSpace(b)
    ensures NlSpace(a + b)
  {
    var t := a + b;
    forall j | 0 <= j < |t| && t[j] == '\n' ensures j + 1 < |t| && t[j + 1] == ' ' {
      if j < |a| {
        assert a[j] == '\n';
      } else {
        assert b[j - |a|] == '\n';
      }
    }
  }

  /** The lazy body match stops right before the blank line that follows a body whose newlines
      all start bullet lines. */
  lemma BodyEndAt(body: string, w: string)
    requires NlSpace(body)
    ensures BodyEnd(body + "\n\n" + w, 0) == Some(|body|)
  {
    var rest := body + "\n\n" + w;
    assert EndsBodyAt(rest, |body|);
    forall j: nat | j < |body| ensures !EndsBodyAt(rest, j) {
      if rest[j] == '\n' {
        assert body[j] == '\n';
      }
    }
  }

  // ---------------------------------------------------------------------------
  // Reading the bullets back

  /** The text of a block after its heading: one `"\n  - " + item` per item. */
  function Dashed(xs: seq<string>): string {
    if xs == [] then "" else "\n  " + ("- " + (xs[0] + Dashed(xs[1..])))
  }

  lemma {:induction false} DashedLines(xs: seq<string>)
    requires xs != []
    ensures "\n" + Join(BulletLines(xs), "\n") == Dashed(xs)
    decreases |xs|
  {
    var b := BulletLines(xs);
    if |xs| > 1 {
      assert b[1..] == BulletLines(xs[1..]);
      DashedLines(xs[1..]);
      JoinCons(b[0], b[1..], "\n");
      assert [b[0]] + b[1..] == b;
    }
  }

  /** Items on one line keep every newline of the block text in front of a space. */
  lemma {:induction false} DashedNlSpace(xs: seq<string>)
    requires forall i | 0 <= i < |xs| :: '\n' !in xs[i]
    ensures NlSpace(Dashed(xs))
    decreases |xs|
  {
    if xs != [] {
      DashedNlSpace(xs[1..]);
      assert NlSpace("\n  - ");
      assert NlSpace(xs[0]);
      NlSpaceConcat("\n  - ", xs[0]);
      NlSpaceConcat("\n  - " + xs[0], Dashed(xs[1..]));
    }
  }

  /** The first `c` is wherever it occurs with no `c` before it. */
  lemma IndexOfCharAt(s: string, c: char, k: nat)
    requires k <= |s| && (k < |s| ==> s[k] == c) && c !in s[..k]
    ensures IndexOfChar(s, c) == k
  {
  }

  /** The last character of the block text is the last character of the last item. */
  lemma {:induction false} DashedLast(xs: seq<string>)
    requires xs != [] && xs[|xs| - 1] != []
    ensures Dashed(xs) != [] && Dashed(xs)[|Dashed(xs)| - 1] == xs[|xs| - 1][|xs[|xs| - 1]| - 1]
    decreases |xs|
  {
    if |xs| > 1 {
      DashedLast(xs[1..]);
    }
  }

  /** What the hyphen split needs of an item: non-empty, trimmed and free of hyphens and
      newlines. */
  predicate BulletOk(x: string) {
    x != [] && IsTrimmed(x, JS) && '-' !in x && '\n' !in x
  }

  predicate Bullets(xs: seq<string>) {
    xs == [] || (BulletOk(xs[0]) && Bullets(xs[1..]))
  }

  lemma {:induction false} BulletsEach(xs: seq<string>)
    requires Bullets(xs)
    ensures forall i | 0 <= i < |xs| :: BulletOk(xs[i])
    decreases |xs|
  {
    if xs != [] {
      BulletsEach(xs[1..]);
      assert forall i | 1 <= i < |xs| :: xs[i] == xs[1..][i - 1];
    }
  }

  /** A hyphen with whitespace around it splits off the text before it. */
  lemma SplitAt(pre: string, ws: string, post: string)
    requires '-' !in pre && AllSpace(ws, JS) && IsTrimmed(pre, JS)
    requires post == [] || !IsSpace(post[0], JS)
    ensures SplitOnDash(pre + (ws + ("- " + post))) == [pre] + SplitOnDash(post)
  {
    var t, k := pre + (ws + ("- " + post)), |pre| + |ws|;
    DashedSlices(pre, ws, post, t, k);
    IndexOfCharAt(t, '-', k);
    TrimEndSkips(pre, ws, JS);
    TrimStartSkips(" ", post, JS);
    SplitParts(t, k, pre, post);
  }

  lemma DashedSlices(pre: string, ws: string, post: string, t: string, k: nat)
    requires t == pre + (ws + ("- " + post)) && k == |pre| + |ws|
    ensures k < |t| && t[..k] == pre + ws && t[k] == '-' && t[k + 1..] == " " + post
  {
    assert t == (pre + ws) + ("- " + post);
    assert ("- " + post)[1..] == " " + post;
  }

  lemma SplitParts(t: string, k: nat, pre: string, post: string)
    requires k < |t| && IndexOfChar(t, '-') == k
    requires TrimEnd(t[..k], JS) == pre && TrimStart(t[k + 1..], JS) == post
    ensures SplitOnDash(t) == [pre] + SplitOnDash(post)
  {
    SplitOnDashAt(t, k);
  }

  /** Unfolds the split at the first hyphen. */
  lemma SplitOnDashAt(t: string, k: nat)
    requires k < |t| && IndexOfChar(t, '-') == k
    ensures SplitOnDash(t) == [TrimEnd(t[..k], JS)] + SplitOnDash(TrimStart(t[k + 1..], JS))
  {
  }

  /** Splitting on hyphens (and the whitespace around them) separates the items again. */
  lemma {:induction false} SplitDashed(xs: seq<string>)
    requires xs != [] && Bullets(xs)
    ensures SplitOnDash(xs[0] + Dashed(xs[1..])) == xs
    decreases |xs|
  {
    var x0 := xs[0];
    if |xs| == 1 {
      assert x0 + Dashed(xs[1..]) == x0;
      IndexOfCharAt(x0, '-', |x0|);
    } else {
      var x1 := xs[1];
      var u := Dashed(xs[2..]);
      DashedStep(xs);
      SplitAt(x0, "\n  ", x1 + u);
      SplitDashed(xs[1..]);
      HeadTail(xs);
    }
  }

  /** The text after the first item starts with the indented hyphen of the second. */
  lemma DashedStep(xs: seq<string>)
    requires |xs| > 1 && Bullets(xs)
    ensures BulletOk(xs[0]) && BulletOk(xs[1]) && Bullets(xs[1..])
    ensures xs[1..][0] == xs[1] && xs[1..][1..] == xs[2..]
    ensures Dashed(xs[1..]) == "\n  " + ("- " + (xs[1] + Dashed(xs[2..])))
    ensures AllSpace("\n  ", JS)
  {
    assert xs[1..][1..] == xs[2..];
  }

  lemma {:induction false} FilterKeeps(xs: seq<string>)
    requires Bullets(xs)
    ensures FilterNonEmpty(xs) == xs
    decreases |xs|
  {
    if xs != [] {
      FilterKeeps(xs[1..]);
      assert [xs[0]] + xs[1..] == xs;
    }
  }

  lemma TrimIndented(ws: string, t: string)
    requires AllSpace(ws, JS) && t != [] && IsTrimmed(t, JS)
    ensures Trim(ws + t, JS) == t
  {
    TrimStartSkips(ws, t, JS);
    TrimEndSkips(t, "", JS);
    assert t + "" == t;
  }

  /** Trimming the block text drops only the newline and indentation in front of it. */
  lemma TrimDashed(xs: seq<string>)
    requires xs != [] && Bullets(xs)
    ensures Trim(Dashed(xs), JS) == "- " + (xs[0] + Dashed(xs[1..]))
  {
    var t := "- " + (xs[0] + Dashed(xs[1..]));
    var d := Dashed(xs);
    BulletsEach(xs);
    DashedLast(xs);
    assert t[|t| - 1] == d[|d| - 1];
    TrimIndented("\n  ", t);
  }

  /** Pieces that are an empty lead followed by good items come out of `Items` as those items. */
  lemma ItemsOfPieces(body: string, xs: seq<string>)
    requires SplitOnDash(Trim(body, JS)) == [""] + xs && Bullets(xs)
    ensures Items(body) == xs
  {
    FilterKeeps(xs);
    FilterLead(xs);
    BulletsEach(xs);
    TrimEachKeeps(xs);
  }

  lemma FilterLead(xs: seq<string>)
    ensures FilterNonEmpty([""] + xs) == FilterNonEmpty(xs)
  {
    assert ([""] + xs)[1..] == xs;
  }

  lemma TrimEachKeeps(xs: seq<string>)
    requires forall i | 0 <= i < |xs| :: BulletOk(xs[i])
    ensures TrimEach(xs) == xs
  {
    forall i | 0 <= i < |xs| ensures Trim(xs[i], JS) == xs[i] {
      TrimOfTrimmed(xs[i], JS);
    }
  }

  lemma DashedPieces(xs: seq<string>)
    requires xs != [] && Bullets(xs)
    ensures SplitOnDash(Trim(Dashed(xs), JS)) == [""] + xs
  {
    var post := xs[0] + Dashed(xs[1..]);
    TrimDashed(xs);
    SplitAt("", "", post);
    assert "" + ("" + ("- " + post)) == "- " + post;
    SplitDashed(xs);
  }

  /** The front end reads back exactly the items a block was written from. */
  lemma ItemsOfDashed(xs: seq<string>)
    requires xs != [] && Bullets(xs)
    ensures Items(Dashed(xs)) == xs
  {
    DashedPieces(xs);
    ItemsOfPieces(Dashed(xs), xs);
  }

  // ---------------------------------------------------------------------------
  // One section

  lemma {:induction false} ItemsAreBullets(xs: seq<string>)
    requires ItemsOk(xs)
    ensures Bullets(xs)
    decreases |xs|
  {
    if xs != [] {
      assert xs[0] in xs;
      assert ItemsOk(xs[1..]) by {
        forall x | x in xs[1..] ensures ItemOk(x) {
          assert x in xs;
        }
      }
      ItemsAreBullets(xs[1..]);
    }
  }

  /** The section after the first occurrence of its heading is the block text up to the blank
      line, and its items are the block's items. */
  lemma SectionOfBlock(x: string, h: string, xs: seq<string>, w: string)
    requires ColonHeading(h) && !Contains(x, h) && xs != [] && Bullets(xs)
    ensures SectionItems(x + h + (Dashed(xs) + "\n\n" + w), h) == xs
  {
    SectionBodyOfBlock(x, h, xs, w);
    ItemsOfDashed(xs);
  }

  lemma SectionBodyOfBlock(x: string, h: string, xs: seq<string>, w: string)
    requires ColonHeading(h) && !Contains(x, h) && xs != [] && Bullets(xs)
    ensures SectionBody(x + h + (Dashed(xs) + "\n\n" + w), h) == Some(Dashed(xs))
  {
    var d := Dashed(xs);
    var z := d + "\n\n" + w;
    var s := x + h + z;
    assert s[|x|..|x| + |h|] == h;
    assert OccursAt(s, h, |x|);
    HeaderFirst(x, h, z);
    assert s[|x| + |h|..] == z;
    BulletsEach(xs);
    DashedNlSpace(xs);
    BodyEndAt(d, w);
    SectionAtFirst(s, h, |x|, |d|);
    assert z[..|d|] == d;
  }

  /** The text of a block between other lines. */
  lemma BlockText(a: seq<string>, h: string, xs: seq<string>, b: seq<string>)
    requires a != [] && xs != [] && b != []
    ensures Join(a + BlockLines(h, xs) + b, "\n")
         == (Join(a, "\n") + "\n") + h + (Dashed(xs) + "\n\n" + Join(b, "\n"))
  {
    var block := BlockLines(h, xs);
    JoinAppend(a + block, b, "\n");
    JoinAppend(a, block, "\n");
    BlockJoin(h, xs);
    DashedLines(xs);
    var ja, jb, bl := Join(a, "\n"), Join(b, "\n"), Join(BulletLines(xs), "\n");
    NewlineRegroup(ja, h, bl, jb);
  }

  lemma NewlineRegroup(ja: string, h: string, bl: string, jb: string)
    ensures ja + "\n" + (h + "\n" + bl + "\n") + "\n" + jb == (ja + "\n") + h + (("\n" + bl) + "\n\n" + jb)
  {
  }

  /** Lines free of a colon heading joined around its block: the section is read back as the
      block's items; and when the list is empty (no block) the section is not found at all. */
  lemma SectionInLines(a: seq<string>, h: string, xs: seq<string>, b: seq<string>)
    requires a != [] && b != [] && ColonHeading(h) && AllFree(a, h) && AllFree(b, h) && Bullets(xs)
    ensures SectionItems(Join(a + BlockLines(h, xs) + b, "\n"), h) == xs
  {
    if xs == [] {
      SectionEmptyBlock(a, h, b);
    } else {
      SectionBlock(a, h, xs, b);
    }
  }

  lemma SectionEmptyBlock(a: seq<string>, h: string, b: seq<string>)
    requires ColonHeading(h) && AllFree(a, h) && AllFree(b, h)
    ensures SectionItems(Join(a + BlockLines(h, []) + b, "\n"), h) == []
  {
    var lines := a + BlockLines(h, []) + b;
    assert lines == a + b;
    assert AllFree(lines, h);
    SectionNoBlock(lines, h);
  }

  lemma SectionNoBlock(lines: seq<string>, h: string)
    requires ColonHeading(h) && AllFree(lines, h)
    ensures SectionItems(Join(lines, "\n"), h) == []
  {
    JoinFree(lines, h);
    SectionAbsent(Join(lines, "\n"), h);
  }

  lemma SectionBlock(a: seq<string>, h: string, xs: seq<string>, b: seq<string>)
    requires a != [] && b != [] && xs != [] && ColonHeading(h) && AllFree(a, h) && Bullets(xs)
    ensures SectionItems(Join(a + BlockLines(h, xs) + b, "\n"), h) == xs
  {
    BlockText(a, h, xs, b);
    JoinFree(a, h);
    NotContainsAppend(h, Join(a, "\n"), "\n");
    SectionOfBlock(Join(a, "\n") + "\n", h, xs, Join(b, "\n"));
  }

  // ---------------------------------------------------------------------------
  // The layout's fixed lines hold no list heading but their own

  predicate ListHeading(h: string) {
    h == DiagnosesLabel || h == SymptomsLabel || h == MedicationsLabel || h == ProceduresLabel
  }

  /** The fixed lines other than list headings. */
  predicate FixedFree(h: string) {
    !Contains(Title, h) && !Contains(Rule, h) && !Contains("", h) && !Contains(SummaryLabel, h)
    && !Contains(KeyInfoLabel, h) && !Contains(TestResultsLabel, h) && !Contains(Disclaimer, h)
  }

  /** The disclaimer holds a colon heading only if its first part does. */
  lemma DisclaimerFree(h: string, j: nat)
    requires ColonHeading(h)
    requires |h| > |DisclaimerHead| || (j < |h| && DisclaimerHead[|DisclaimerHead| - |h| + j] != h[j])
    ensures !Contains(Disclaimer, h)
  {
    LineShapes();
    ColonFree(DisclaimerHead, h, j);
    NotContainsAppend(h, DisclaimerHead, DisclaimerTail);
  }

  lemma CommonFree(h: string)
    requires ColonHeading(h) && |h| > |SummaryLabel|
    ensures !Contains(Title, h) && !Contains(Rule, h) && !Contains("", h) && !Contains(SummaryLabel, h)
  {
    LineShapes();
    NoColonFree(Title, h);
    NoColonFree(Rule, h);
    NotContainsShort("", h);
    NotContainsShort(SummaryLabel, h);
  }

  lemma DiagnosesApart()
    ensures FixedFree(DiagnosesLabel)
    ensures !Contains(SymptomsLabel, DiagnosesLabel) && !Contains(MedicationsLabel, DiagnosesLabel)
    ensures !Contains(ProceduresLabel, DiagnosesLabel)
  {
    var h := DiagnosesLabel;
    HeadingShapes();
    LineShapes();
    CommonFree(h);
    ColonFree(KeyInfoLabel, h, 0);
    ColonFree(TestResultsLabel, h, 0);
    DisclaimerFree(h, 0);
    ColonFree(SymptomsLabel, h, 0);
    ColonFree(MedicationsLabel, h, 0);
    ColonFree(ProceduresLabel, h, 0);
  }

  lemma SymptomsApart()
    ensures FixedFree(SymptomsLabel)
    ensures !Contains(DiagnosesLabel, SymptomsLabel) && !Contains(MedicationsLabel, SymptomsLabel)
    ensures !Contains(ProceduresLabel, SymptomsLabel)
  {
    var h := SymptomsLabel;
    HeadingShapes();
    LineShapes();
    CommonFree(h);
    ColonFree(KeyInfoLabel, h, 0);
    ColonFree(TestResultsLabel, h, 0);
    DisclaimerFree(h, 1);
    ColonFree(DiagnosesLabel, h, 0);
    ColonFree(MedicationsLabel, h, 0);
    ColonFree(ProceduresLabel, h, 0);
  }

  lemma MedicationsApart()
    ensures FixedFree(MedicationsLabel)
    ensures !Contains(DiagnosesLabel, MedicationsLabel) && !Contains(SymptomsLabel, MedicationsLabel)
    ensures !Contains(ProceduresLabel, MedicationsLabel)
  {
    var h := MedicationsLabel;
    HeadingShapes();
    LineShapes();
    CommonFree(h);
    ColonFree(KeyInfoLabel, h, 0);
    ColonFree(TestResultsLabel, h, 0);
    DisclaimerFree(h, 0);
    ColonFree(DiagnosesLabel, h, 0);
    ColonFree(SymptomsLabel, h, 0);
    ColonFree(ProceduresLabel, h, 0);
  }

  lemma ProceduresApart()
    ensures FixedFree(ProceduresLabel)
    ensures !Contains(DiagnosesLabel, ProceduresLabel) && !Contains(SymptomsLabel, ProceduresLabel)
    ensures !Contains(MedicationsLabel, ProceduresLabel)
  {
    var h := ProceduresLabel;
    HeadingShapes();
    LineShapes();
    CommonFree(h);
    ColonFree(KeyInfoLabel, h, 0);
    ColonFree(TestResultsLabel, h, 0);
    DisclaimerFree(h, 0);
    ColonFree(DiagnosesLabel, h, 0);
    ColonFree(SymptomsLabel, h, 0);
    ColonFree(MedicationsLabel, h, 0);
  }

  // ---------------------------------------------------------------------------
  // Which groups of lines are free of a list heading

  lemma HeadFree(text: string, h: string)
    requires ListHeading(h) && FixedFree(h) && ProseOk(text)
    ensures AllFree(HeadLines(text), h)
  {
    var t := Trim(text, Python);
    assert !Contains(t, h) by {
      assert FreeOfHeadings(t);
    }
    assert HeadLines(text) == [Title, Rule, "", SummaryLabel, t, "", KeyInfoLabel];
    SevenFree(Title, Rule, "", SummaryLabel, t, "", KeyInfoLabel, h);
  }

  lemma SevenFree(a: string, b: string, c: string, d: string, e: string, f: string, g: string, h: string)
    requires !Contains(a, h) && !Contains(b, h) && !Contains(c, h) && !Contains(d, h)
    requires !Contains(e, h) && !Contains(f, h) && !Contains(g, h)
    ensures AllFree([a, b, c, d, e, f, g], h)
  {
  }

  lemma TailFree(h: string)
    requires FixedFree(h)
    ensures AllFree(TailLines, h)
  {
  }

  /** A block is free of a heading when its own heading and its items are. */
  lemma BlockFree(g: string, xs: seq<string>, h: string)
    requires ColonHeading(h) && !Contains(g, h) && forall x | x in xs :: !Contains(x, h)
    ensures AllFree(BlockLines(g, xs), h)
  {
    if xs != [] {
      forall i | 0 <= i < |xs| ensures !Contains("  - " + xs[i], h) {
        assert xs[i] in xs;
        NotContainsPrepend(h, "  - ", xs[i]);
      }
      NotContainsShort("", h);
    }
  }

  /** The items of a category hold no list heading. */
  lemma ItemsFree(xs: seq<string>, h: string)
    requires ListHeading(h) && forall x | x in xs :: FreeOfHeadings(x)
    ensures forall x | x in xs :: !Contains(x, h)
  {
  }

  lemma ItemsOkFree(xs: seq<string>)
    requires ItemsOk(xs)
    ensures forall x | x in xs :: FreeOfHeadings(x)
  {
  }

  /** Facts about one list heading `h` against the other lines of the layout. */
  predicate Apart(h: string) {
    FixedFree(h)
    && (h != DiagnosesLabel ==> !Contains(DiagnosesLabel, h))
    && (h != SymptomsLabel ==> !Contains(SymptomsLabel, h))
    && (h != MedicationsLabel ==> !Contains(MedicationsLabel, h))
    && (h != ProceduresLabel ==> !Contains(ProceduresLabel, h))
  }

  lemma ListHeadingApart(h: string)
    requires ListHeading(h)
    ensures ColonHeading(h) && Apart(h)
  {
    HeadingShapes();
    if h == DiagnosesLabel {
      DiagnosesApart();
    } else if h == SymptomsLabel {
      SymptomsApart();
    } else if h == MedicationsLabel {
      MedicationsApart();
    } else {
      ProceduresApart();
    }
  }

  /** A block of another category (or the test results block) is free of `h`. */
  lemma OtherBlockFree(g: string, xs: seq<string>, h: string)
    requires ListHeading(h) && Apart(h) && g != h
    requires g == DiagnosesLabel || g == SymptomsLabel || g == MedicationsLabel || g == ProceduresLabel
             || g == TestResultsLabel
    requires forall x | x in xs :: FreeOfHeadings(x)
    ensures AllFree(BlockLines(g, xs), h)
  {
    ListHeadingApart(h);
    ItemsFree(xs, h);
    BlockFree(g, xs, h);
  }

  // ---------------------------------------------------------------------------
  // The four lists

  lemma Regroup<T>(hd: seq<T>, b1: seq<T>, b2: seq<T>, b3: seq<T>, b4: seq<T>, b5: seq<T>, tl: seq<T>)
    ensures hd + (b1 + b2 + b3 + b4 + b5) + tl == hd + b1 + (b2 + b3 + b4 + b5 + tl)
    ensures hd + (b1 + b2 + b3 + b4 + b5) + tl == (hd + b1) + b2 + (b3 + b4 + b5 + tl)
    ensures hd + (b1 + b2 + b3 + b4 + b5) + tl == (hd + b1 + b2) + b3 + (b4 + b5 + tl)
    ensures hd + (b1 + b2 + b3 + b4 + b5) + tl == (hd + b1 + b2 + b3) + b4 + (b5 + tl)
  {
  }

  /** The groups of lines of the rendered summary, and which are free of the list heading `h`. */
  lemma Groups(text: string, terms: map<Category, seq<string>>, h: string)
    requires HasListKeys(terms) && ProseOk(text) && TermsOk(terms) && ListHeading(h)
    ensures ColonHeading(h)
    ensures SummaryLines(text, terms) == HeadLines(text)
      + (BlockLines(DiagnosesLabel, terms[Diagnoses]) + BlockLines(SymptomsLabel, terms[Symptoms])
         + BlockLines(MedicationsLabel, terms[Medications]) + BlockLines(ProceduresLabel, terms[Procedures])
         + BlockLines(TestResultsLabel, terms[TestResults]))
      + TailLines
    ensures AllFree(HeadLines(text), h) && AllFree(TailLines, h)
    ensures AllFree(BlockLines(TestResultsLabel, terms[TestResults]), h)
    ensures h != DiagnosesLabel ==> AllFree(BlockLines(DiagnosesLabel, terms[Diagnoses]), h)
    ensures h != SymptomsLabel ==> AllFree(BlockLines(SymptomsLabel, terms[Symptoms]), h)
    ensures h != MedicationsLabel ==> AllFree(BlockLines(MedicationsLabel, terms[Medications]), h)
    ensures h != ProceduresLabel ==> AllFree(BlockLines(ProceduresLabel, terms[Procedures]), h)
  {
    ListHeadingApart(h);
    HeadFree(text, h);
    TailFree(h);
    ItemsOkFree(terms[Diagnoses]);
    ItemsOkFree(terms[Symptoms]);
    ItemsOkFree(terms[Medications]);
    ItemsOkFree(terms[Procedures]);
    OtherBlockFree(TestResultsLabel, terms[TestResults], h);
    if h != DiagnosesLabel {
      OtherBlockFree(DiagnosesLabel, terms[Diagnoses], h);
    }
    if h != SymptomsLabel {
      OtherBlockFree(SymptomsLabel, terms[Symptoms], h);
    }
    if h != MedicationsLabel {
      OtherBlockFree(MedicationsLabel, terms[Medications], h);
    }
    if h != ProceduresLabel {
      OtherBlockFree(ProceduresLabel, terms[Procedures], h);
    }
  }

  /** The diagnoses list the front end parses out of the rendered summary is the one it was
      rendered from. */
  lemma DiagnosesRoundTrip(text: string, terms: map<Category, seq<string>>)
    requires HasListKeys(terms) && ProseOk(text) && TermsOk(terms)
    ensures SectionItems(Join(SummaryLines(text, terms), "\n"), DiagnosesLabel) == terms[Diagnoses]
  {
    Groups(text, terms, DiagnosesLabel);
    var hd, tl := HeadLines(text), TailLines;
    var b1, b2 := BlockLines(DiagnosesLabel, terms[Diagnoses]), BlockLines(SymptomsLabel, terms[Symptoms]);
    var b3 := BlockLines(MedicationsLabel, terms[Medications]);
    var b4 := BlockLines(ProceduresLabel, terms[Procedures]);
    var b5 := BlockLines(TestResultsLabel, terms[TestResults]);
    Regroup(hd, b1, b2, b3, b4, b5, tl);
    assert AllFree(hd, DiagnosesLabel);
    assert AllFree(b2 + b3 + b4 + b5 + tl, DiagnosesLabel);
    ItemsAreBullets(terms[Diagnoses]);
    SectionInLines(hd, DiagnosesLabel, terms[Diagnoses], b2 + b3 + b4 + b5 + tl);
  }

  /** The symptoms list the front end parses out of the rendered summary is the one it was
      rendered from. */
  lemma SymptomsRoundTrip(text: string, terms: map<Category, seq<string>>)
    requires HasListKeys(terms) && ProseOk(text) && TermsOk(terms)
    ensures SectionItems(Join(SummaryLines(text, terms), "\n"), SymptomsLabel) == terms[Symptoms]
  {
    Groups(text, terms, SymptomsLabel);
    var hd, tl := HeadLines(text), TailLines;
    var b1, b2 := BlockLines(DiagnosesLabel, terms[Diagnoses]), BlockLines(SymptomsLabel, terms[Symptoms]);
    var b3 := BlockLines(MedicationsLabel, terms[Medications]);
    var b4 := BlockLines(ProceduresLabel, terms[Procedures]);
    var b5 := BlockLines(TestResultsLabel, terms[TestResults]);
    Regroup(hd, b1, b2, b3, b4, b5, tl);
    assert AllFree(hd + b1, SymptomsLabel);
    assert AllFree(b3 + b4 + b5 + tl, SymptomsLabel);
    ItemsAreBullets(terms[Symptoms]);
    SectionInLines(hd + b1, SymptomsLabel, terms[Symptoms], b3 + b4 + b5 + tl);
  }

  /** The medications list the front end parses out of the rendered summary is the one it was
      rendered from. */
  lemma MedicationsRoundTrip(text: string, terms: map<Category, seq<string>>)
    requires HasListKeys(terms) && ProseOk(text) && TermsOk(terms)
    ensures SectionItems(Join(SummaryLines(text, terms), "\n"), MedicationsLabel) == terms[Medications]
  {
    Groups(text, terms, MedicationsLabel);
    var hd, tl := HeadLines(text), TailLines;
    var b1, b2 := BlockLines(DiagnosesLabel, terms[Diagnoses]), BlockLines(SymptomsLabel, terms[Symptoms]);
    var b3 := BlockLines(MedicationsLabel, terms[Medications]);
    var b4 := BlockLines(ProceduresLabel, terms[Procedures]);
    var b5 := BlockLines(TestResultsLabel, terms[TestResults]);
    Regroup(hd, b1, b2, b3, b4, b5, tl);
    assert AllFree(hd + b1 + b2, MedicationsLabel);
    assert AllFree(b4 + b5 + tl, MedicationsLabel);
    ItemsAreBullets(terms[Medications]);
    SectionInLines(hd + b1 + b2, MedicationsLabel, terms[Medications], b4 + b5 + tl);
  }

  /** The procedures list the front end parses out of the rendered summary is the one it was
      rendered from. */
  lemma ProceduresRoundTrip(text: string, terms: map<Category, seq<string>>)
    requires HasListKeys(terms) && ProseOk(text) && TermsOk(terms)
    ensures SectionItems(Join(SummaryLines(text, terms), "\n"), ProceduresLabel) == terms[Procedures]
  {
    Groups(text, terms, ProceduresLabel);
    var hd, tl := HeadLines(text), TailLines;
    var b1, b2 := BlockLines(DiagnosesLabel, terms[Diagnoses]), BlockLines(SymptomsLabel, terms[Symptoms]);
    var b3 := BlockLines(MedicationsLabel, terms[Medications]);
    var b4 := BlockLines(ProceduresLabel, terms[Procedures]);
    var b5 := BlockLines(TestResultsLabel, terms[TestResults]);
    Regroup(hd, b1, b2, b3, b4, b5, tl);
    assert AllFree(hd + b1 + b2 + b3, ProceduresLabel);
    assert AllFree(b5 + tl, ProceduresLabel);
    ItemsAreBullets(terms[Procedures]);
    SectionInLines(hd + b1 + b2 + b3, ProceduresLabel, terms[Procedures], b5 + tl);
  }

  // ---------------------------------------------------------------------------
  // The Summary tab

  /** Splitting on a heading found first after `x` gives, as piece 1, what precedes the next
      occurrence in the rest. */
  lemma SecondPieceAt(x: string, sep: string, r: string)
    requires ColonHeading(sep) && !Contains(x, sep)
    ensures SecondPiece(x + sep + r, sep) == Some(FirstPiece(r, sep))
  {
    var s := x + sep + r;
    HeaderFirst(x, sep, r);
    assert s[|x|..|x| + |sep|] == sep;
    IndexOfFirst(s, sep, |x|);
    assert s[|x| + |sep|..] == r;
  }

  /** A text free of `pat` followed by a character `pat` lacks: no occurrence starts inside. */
  lemma NoEarly(y: string, c: char, z: string, pat: string)
    requires pat != [] && c !in pat && !Contains(y, pat)
    ensures forall q: nat | q <= |y| :: !OccursAt(y + [c] + z, pat, q)
  {
    var s := y + [c] + z;
    forall q: nat | q <= |y| ensures !OccursAt(s, pat, q) {
      if q + |pat| <= |y| {
        assert s[q..q + |pat|] == y[q..q + |pat|];
        assert !OccursAt(y, pat, q);
      } else {
        NoOccurrenceAcross(s, pat, q, |y|);
      }
    }
  }

  /** Piece 0 of such a text keeps all of `y`. */
  lemma FirstPieceKeeps(y: string, c: char, z: string, pat: string)
    requires pat != [] && c !in pat && !Contains(y, pat)
    ensures var p := FirstPiece(y + [c] + z, pat); |p| > |y| && p[..|y|] == y
  {
    NoEarly(y, c, z, pat);
  }

  /** Piece 0 on a heading found first after `x` is `x`. */
  lemma FirstPieceAt(x: string, sep: string, w: string)
    requires ColonHeading(sep) && !Contains(x, sep)
    ensures FirstPiece(x + sep + w, sep) == x
  {
    var s := x + sep + w;
    HeaderFirst(x, sep, w);
    assert s[|x|..|x| + |sep|] == sep;
    IndexOfFirst(s, sep, |x|);
  }

  /** Trimming removes whitespace on both sides of trimmed text. */
  lemma TrimAround(ws1: string, t: string, ws2: string)
    requires AllSpace(ws1, JS) && AllSpace(ws2, JS) && IsTrimmed(t, JS)
    ensures Trim(ws1 + t + ws2, JS) == t
  {
    if t == [] {
      assert ws1 + t + ws2 == (ws1 + ws2) + t;
      TrimStartSkips(ws1 + ws2, t, JS);
    } else {
      assert ws1 + t + ws2 == ws1 + (t + ws2);
      TrimStartSkips(ws1, t + ws2, JS);
      TrimEndSkips(t, ws2, JS);
    }
  }

  /** The Summary tab of a text laid out as the head of a summary shows the stripped prose, or
      the placeholder when the prose is empty. */
  lemma SummaryTabOf(t: string, j: string)
    requires IsTrimmed(t, Python) && !Contains(t, SummaryLabel) && !Contains(t, KeyInfoLabel)
    ensures SummaryTab(Some((Title + "\n" + Rule + "\n\n") + SummaryLabel
                            + (("\n" + t + "\n\n") + KeyInfoLabel + ['\n'] + j)))
         == if t == [] then NoSummary else t
  {
    var x0 := Title + "\n" + Rule + "\n\n";
    var r := ("\n" + t + "\n\n") + KeyInfoLabel + ['\n'] + j;
    assert SecondPiece(x0 + SummaryLabel + r, SummaryLabel) == Some(FirstPiece(r, SummaryLabel)) by {
      HeadingShapes();
      LineShapes();
      NoColonFree(x0, SummaryLabel);
      SecondPieceAt(x0, SummaryLabel, r);
    }
    ProseInPiece(t, j);
  }

  /** Within the text after `SUMMARY:`, the part before `KEY MEDICAL INFORMATION:` trims to
      the prose. */
  lemma ProseInPiece(t: string, j: string)
    requires IsTrimmed(t, Python) && !Contains(t, SummaryLabel) && !Contains(t, KeyInfoLabel)
    ensures var r := ("\n" + t + "\n\n") + KeyInfoLabel + ['\n'] + j;
      Trim(FirstPiece(FirstPiece(r, SummaryLabel), KeyInfoLabel), JS) == t
  {
    var x1 := "\n" + t + "\n\n";
    var y := x1 + KeyInfoLabel;
    var r := y + ['\n'] + j;
    HeadingShapes();
    ProsePieceFree(t, SummaryLabel);
    ProsePieceFree(t, KeyInfoLabel);
    ColonFree(KeyInfoLabel, SummaryLabel, 0);
    NotContainsJoin(SummaryLabel, "\n" + t + "\n", '\n', KeyInfoLabel);
    assert ("\n" + t + "\n") + ['\n'] + KeyInfoLabel == y;
    FirstPieceKeeps(y, '\n', j, SummaryLabel);
    var p := FirstPiece(r, SummaryLabel);
    var w := p[|y|..];
    assert p == x1 + KeyInfoLabel + w;
    FirstPieceAt(x1, KeyInfoLabel, w);
    JsSpaceIsPythonSpace(t);
    TrimAround("\n", t, "\n\n");
  }

  /** The prose between its newlines holds no colon heading it lacks. */
  lemma ProsePieceFree(t: string, h: string)
    requires ColonHeading(h) && !Contains(t, h)
    ensures !Contains("\n" + t + "\n", h) && !Contains("\n" + t + "\n\n", h)
  {
    NotContainsPrepend(h, "\n", t);
    NotContainsAppend(h, "\n" + t, "\n");
    NotContainsAppend(h, "\n" + t, "\n\n");
  }

  lemma HeadRegroup(a: string, b: string, c: string, t: string, k: string, j: string)
    ensures a + "\n" + b + "\n\n" + c + "\n" + t + "\n\n" + k + "\n" + j
         == (a + "\n" + b + "\n\n") + c + (("\n" + t + "\n\n") + k + ['\n'] + j)
  {
  }

  /** The rendered summary seen as its head followed by the rest of its lines. */
  lemma LayoutHead(text: string, terms: map<Category, seq<string>>)
    requires HasListKeys(terms)
    ensures Join(SummaryLines(text, terms), "\n")
         == (Title + "\n" + Rule + "\n\n") + SummaryLabel
            + (("\n" + Trim(text, Python) + "\n\n") + KeyInfoLabel + ['\n']
               + Join(BlocksLines(terms) + TailLines, "\n"))
  {
    RenderedParts(text, terms);
    HeadJoin(text);
    HeadRegroup(Title, Rule, SummaryLabel, Trim(text, Python), KeyInfoLabel, Join(BlocksLines(terms) + TailLines, "\n"));
  }

  /**
   * The round trip: for prose and items that cannot be mistaken for the layout's headings, the
   * front end parses from the text `structure_summary` renders exactly the four lists it was
   * given (an empty list gives no block and parses as empty), and its Summary tab shows the
   * stripped prose, or the placeholder when that is empty.
   */
  lemma RoundTrip(text: string, terms: map<Category, seq<string>>)
    requires HasListKeys(terms) && ProseOk(text) && TermsOk(terms)
    ensures var s := Join(SummaryLines(text, terms), "\n");
      ParseSections(Some(s)) == Sections(terms[Diagnoses], terms[Symptoms], terms[Medications], terms[Procedures])
      && SummaryTab(Some(s)) == if Trim(text, Python) == [] then NoSummary else Trim(text, Python)
  {
    var s := Join(SummaryLines(text, terms), "\n");
    LayoutHead(text, terms);
    SummaryTabOf(Trim(text, Python), Join(BlocksLines(terms) + TailLines, "\n"));
    assert s != [];
    DiagnosesRoundTrip(text, terms);
    SymptomsRoundTrip(text, terms);
    MedicationsRoundTrip(text, terms);
    ProceduresRoundTrip(text, terms);
  }
}
