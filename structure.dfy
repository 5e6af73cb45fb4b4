/**
 * The plain-text layout of a visit summary (`structure_summary`): a title and rule, the
 * summary prose, one block per non-empty clinical list, and a closing rule and disclaimer.
 */
module SummaryStructure {
  import opened Text
  import opened MedicalTerms

  const Title := "PATIENT VISIT SUMMARY"
  /** `"=" * 25`. */
  const Rule := "========================="
  const SummaryLabel := "SUMMARY:"
  const KeyInfoLabel := "KEY MEDICAL INFORMATION:"
  const DiagnosesLabel := "Diagnoses:"
  const SymptomsLabel := "Symptoms:"
  const MedicationsLabel := "Medications:"
  const ProceduresLabel := "Procedures/Treatments:"
  const TestResultsLabel := "Test Results:"
  const DisclaimerHead := "DISCLAIMER:"
  // The sentence after `DISCLAIMER:`, named in short pieces so that facts about its
  // characters stay cheap to prove.
  const DisclaimerSubject := " This summary is "
  const DisclaimerOrigin := "AI-generated and "
  const DisclaimerRequest := "should be reviewed "
  const DisclaimerReviewer := "by a healthcare "
  const DisclaimerEnd := "professional."
  const DisclaimerTail := DisclaimerSubject + DisclaimerOrigin + DisclaimerRequest + DisclaimerReviewer
    + DisclaimerEnd
  const Disclaimer := DisclaimerHead + DisclaimerTail

  /** The dictionary lookups `structure_summary` performs; any other key may be missing. */
  predicate HasListKeys(terms: map<Category, seq<string>>) {
    Diagnoses in terms && Symptoms in terms && Medications in terms
    && Procedures in terms && TestResults in terms
  }

  /** One output line per item: `"  - " + item`. */
  function BulletLines(xs: seq<string>): (r: seq<string>)
    ensures |r| == |xs| && forall i | 0 <= i < |xs| :: r[i] == "  - " + xs[i]
  {
    seq(|xs|, i requires 0 <= i < |xs| => "  - " + xs[i])
  }

  /** The lines of one block: nothing for an empty list, otherwise the heading, the items and
      a blank line. */
  function BlockLines(heading: string, xs: seq<string>): (r: seq<string>)
    ensures xs == [] <==> r == []
    ensures xs != [] ==> |r| == |xs| + 2 && r[0] == heading && r[|r| - 1] == ""
    ensures xs != [] ==> r[1..|r| - 1] == BulletLines(xs)
  {
    if xs == [] then [] else [heading] + BulletLines(xs) + [""]
  }

  /** The lines before the first block. */
  function HeadLines(text: string): (r: seq<string>)
    ensures |r| == 7 && r[4] == Trim(text, Python)
  {
    [Title, Rule, "", SummaryLabel, Trim(text, Python), "", KeyInfoLabel]
  }

  /** The blocks, in the fixed order diagnoses, symptoms, medications, procedures, test results. */
  function BlocksLines(terms: map<Category, seq<string>>): (r: seq<string>)
    requires HasListKeys(terms)
  {
    BlockLines(DiagnosesLabel, terms[Diagnoses])
      + BlockLines(SymptomsLabel, terms[Symptoms])
      + BlockLines(MedicationsLabel, terms[Medications])
      + BlockLines(ProceduresLabel, terms[Procedures])
      + BlockLines(TestResultsLabel, terms[TestResults])
  }

  const TailLines: seq<string> := [Rule, Disclaimer]

  /** The lines of the summary, in order, as they appear between the newlines of the output. */
  function SummaryLines(text: string, terms: map<Category, seq<string>>): (r: seq<string>)
    requires HasListKeys(terms)
    ensures |r| >= 9
  {
    HeadLines(text) + BlocksLines(terms) + TailLines
  }

  /** `structure_summary`: collects the sections, each possibly spanning several lines, and
      joins them with newlines. */
  method StructureSummary(summarizedText: string, terms: map<Category, seq<string>>) returns (r: string)
    requires HasListKeys(terms)
    ensures r == Join(SummaryLines(summarizedText, terms), "\n")
  {
    var sections := HeadSectionsOf(summarizedText);
    ghost var head := HeadLines(summarizedText);
    ghost var blocks: seq<string> := [];
    assert head + blocks == head;

    sections, blocks := AddBlock(sections, head, blocks, DiagnosesLabel, terms[Diagnoses]);
    assert blocks == BlockLines(DiagnosesLabel, terms[Diagnoses]);
    sections, blocks := AddBlock(sections, head, blocks, SymptomsLabel, terms[Symptoms]);
    sections, blocks := AddBlock(sections, head, blocks, MedicationsLabel, terms[Medications]);
    sections, blocks := AddBlock(sections, head, blocks, ProceduresLabel, terms[Procedures]);
    sections, blocks := AddBlock(sections, head, blocks, TestResultsLabel, terms[TestResults]);
    assert blocks == BlocksLines(terms);

    JoinTwoAfter(sections, Rule, Disclaimer);
    JoinTwoAfter(head + blocks, Rule, Disclaimer);
    sections := sections + [Rule, Disclaimer];
    r := Join(sections, "\n");
  }

  /** The sections before the first block: title, rule (with the blank line after it), summary
      heading, stripped summary text, blank line and key-information heading. */
  method HeadSectionsOf(summarizedText: string) returns (sections: seq<string>)
    ensures sections != [] && Join(sections, "\n") == Join(HeadLines(summarizedText), "\n")
  {
    sections := [Title, Rule + "\n"];
    sections := sections + [SummaryLabel];
    sections := sections + [Trim(summarizedText, Python)];
    sections := sections + [""];
    sections := sections + [KeyInfoLabel];
    assert sections == [Title, Rule + "\n", SummaryLabel, Trim(summarizedText, Python), "", KeyInfoLabel];
    HeadSections(summarizedText);
  }

  lemma JoinTwoAfter(front: seq<string>, a: string, b: string)
    requires front != []
    ensures Join(front + [a, b], "\n") == Join(front, "\n") + "\n" + a + "\n" + b
  {
    JoinAppend(front, [a, b], "\n");
    JoinCons(a, [b], "\n");
  }

  /** The first six sections spell out the seven head lines: the rule's section carries the
      newline of the blank line after it. */
  lemma HeadSections(text: string)
    ensures Join([Title, Rule + "\n", SummaryLabel, Trim(text, Python), "", KeyInfoLabel], "\n")
         == Join(HeadLines(text), "\n")
  {
    var t := Trim(text, Python);
    assert HeadLines(text) == [Title, Rule, "", SummaryLabel, t, "", KeyInfoLabel];
    JoinHead(Title, Rule, SummaryLabel, t, KeyInfoLabel);
    JoinSections(Title, Rule, SummaryLabel, t, KeyInfoLabel);
  }

  lemma JoinSections(a: string, b: string, d: string, e: string, g: string)
    ensures Join([a, b + "\n", d, e, "", g], "\n") == a + "\n" + b + "\n\n" + d + "\n" + e + "\n\n" + g
  {
    JoinCons("", [g], "\n");
    JoinCons(e, ["", g], "\n");
    JoinCons(d, [e, "", g], "\n");
    JoinCons(b + "\n", [d, e, "", g], "\n");
    JoinCons(a, [b + "\n", d, e, "", g], "\n");
  }

  /** `if medical_terms[key]: sections.append(label); sections.append("  - " + "\n  - ".join(...));
      sections.append("")`, with the lines it adds. */
  method AddBlock(sections: seq<string>, ghost head: seq<string>, ghost blocks: seq<string>,
                  heading: string, xs: seq<string>)
    returns (sections': seq<string>, ghost blocks': seq<string>)
    requires sections != [] && head != [] && Join(sections, "\n") == Join(head + blocks, "\n")
    ensures sections' != [] && blocks' == blocks + BlockLines(heading, xs)
    ensures Join(sections', "\n") == Join(head + blocks', "\n")
  {
    sections', blocks' := sections, blocks;
    if xs != [] {
      var bullets := "  - " + Join(xs, "\n  - ");
      BlockAppended(sections, head, blocks, heading, xs);
      sections' := sections + [heading, bullets, ""];
      blocks' := blocks + BlockLines(heading, xs);
    } else {
      assert blocks + BlockLines(heading, xs) == blocks;
    }
  }

  /** Appending the three sections of a block adds the block's lines to the joined text. */
  lemma BlockAppended(sections: seq<string>, head: seq<string>, blocks: seq<string>, heading: string, xs: seq<string>)
    requires sections != [] && head != [] && xs != [] && Join(sections, "\n") == Join(head + blocks, "\n")
    ensures Join(sections + [heading, "  - " + Join(xs, "\n  - "), ""], "\n")
         == Join(head + (blocks + BlockLines(heading, xs)), "\n")
  {
    var lines := head + blocks;
    var block := BlockLines(heading, xs);
    var bullets := "  - " + Join(xs, "\n  - ");
    calc {
      Join(sections + [heading, bullets, ""], "\n");
      { SectionsGrow(sections, heading, bullets); }
      Join(sections, "\n") + "\n" + (heading + "\n" + bullets + "\n");
      Join(lines, "\n") + "\n" + (heading + "\n" + bullets + "\n");
      { LinesGrow(lines, heading, xs, bullets); }
      Join(lines + block, "\n");
      { SeqAssoc(head, blocks, block); }
      Join(head + (blocks + block), "\n");
    }
  }

  lemma SeqAssoc<T>(a: seq<T>, b: seq<T>, c: seq<T>)
    ensures a + b + c == a + (b + c)
  {
  }

  /** Appending a block's three sections adds the heading, the bullets and a newline. */
  lemma SectionsGrow(sections: seq<string>, heading: string, bullets: string)
    requires sections != []
    ensures Join(sections + [heading, bullets, ""], "\n")
         == Join(sections, "\n") + "\n" + (heading + "\n" + bullets + "\n")
  {
    JoinAppend(sections, [heading, bullets, ""], "\n");
    ThreeLines(heading, bullets);
  }

  /** Appending a block's lines adds the same text. */
  lemma LinesGrow(lines: seq<string>, heading: string, xs: seq<string>, bullets: string)
    requires lines != [] && xs != [] && bullets == "  - " + Join(xs, "\n  - ")
    ensures Join(lines + BlockLines(heading, xs), "\n")
         == Join(lines, "\n") + "\n" + (heading + "\n" + bullets + "\n")
  {
    BulletsAreLines(xs);
    BlockJoin(heading, xs);
    JoinAppend(lines, BlockLines(heading, xs), "\n");
  }

  /** A heading, a bullet text and an empty line, joined by newlines. */
  lemma ThreeLines(a: string, b: string)
    ensures Join([a, b, ""], "\n") == a + "\n" + b + "\n"
  {
    assert [a, b, ""][1..] == [b, ""];
    assert [b, ""][1..] == [""];
    assert Join([b, ""], "\n") == b + "\n" + "" == b + "\n";
  }

  lemma JoinCons(x: string, rest: seq<string>, sep: string)
    requires rest != []
    ensures Join([x] + rest, sep) == x + sep + Join(rest, sep)
  {
    assert ([x] + rest)[1..] == rest;
  }

  /** Joining two non-empty lists of lines puts one separator between their joins. */
  lemma {:induction false} JoinAppend(a: seq<string>, b: seq<string>, sep: string)
    requires a != [] && b != []
    ensures Join(a + b, sep) == Join(a, sep) + sep + Join(b, sep)
    decreases |a|
  {
    if |a| == 1 {
      assert (a + b)[1..] == b;
    } else {
      assert (a + b)[1..] == a[1..] + b;
      JoinAppend(a[1..], b, sep);
    }
  }

  /** The bullet section written in one piece is the join of its bullet lines. */
  lemma {:induction false} BulletsAreLines(xs: seq<string>)
    requires xs != []
    ensures "  - " + Join(xs, "\n  - ") == Join(BulletLines(xs), "\n")
    decreases |xs|
  {
    if |xs| > 1 {
      BulletsAreLines(xs[1..]);
      assert BulletLines(xs)[1..] == BulletLines(xs[1..]);
    }
  }

  lemma BlockJoin(heading: string, xs: seq<string>)
    requires xs != []
    ensures Join(BlockLines(heading, xs), "\n") == heading + "\n" + Join(BulletLines(xs), "\n") + "\n"
  {
    JoinAppend([heading], BulletLines(xs), "\n");
    JoinAppend([heading] + BulletLines(xs), [""], "\n");
  }

  // ---------------------------------------------------------------------------
  // What the layout guarantees

  /** The head lines written out. */
  lemma HeadJoin(text: string)
    ensures Join(HeadLines(text), "\n")
         == Title + "\n" + Rule + "\n\n" + SummaryLabel + "\n" + Trim(text, Python) + "\n\n" + KeyInfoLabel
  {
    var t := Trim(text, Python);
    assert HeadLines(text) == [Title, Rule, "", SummaryLabel, t, "", KeyInfoLabel];
    JoinHead(Title, Rule, SummaryLabel, t, KeyInfoLabel);
  }

  lemma JoinHead(a: string, b: string, d: string, e: string, g: string)
    ensures Join([a, b, "", d, e, "", g], "\n") == a + "\n" + b + "\n\n" + d + "\n" + e + "\n\n" + g
  {
    JoinCons("", [g], "\n");
    JoinCons(e, ["", g], "\n");
    JoinCons(d, [e, "", g], "\n");
    JoinCons("", [d, e, "", g], "\n");
    JoinCons(b, ["", d, e, "", g], "\n");
    JoinCons(a, [b, "", d, e, "", g], "\n");
  }

  /** The output is the head, then the blocks and the tail, each after a newline. */
  lemma RenderedParts(text: string, terms: map<Category, seq<string>>)
    requires HasListKeys(terms)
    ensures Join(SummaryLines(text, terms), "\n")
         == Join(HeadLines(text), "\n") + "\n" + Join(BlocksLines(terms) + TailLines, "\n")
  {
    JoinFront(HeadLines(text), BlocksLines(terms), TailLines);
  }

  lemma JoinFront(h: seq<string>, b: seq<string>, t: seq<string>)
    requires h != [] && t != []
    ensures Join(h + b + t, "\n") == Join(h, "\n") + "\n" + Join(b + t, "\n")
  {
    assert h + b + t == h + (b + t);
    JoinAppend(h, b + t, "\n");
  }

  /** The output starts with the title, a 25-character rule, a blank line, the summary heading,
      the stripped summary text, a blank line and the key-information heading. */
  lemma RenderedStart(text: string, terms: map<Category, seq<string>>)
    requires HasListKeys(terms)
    ensures var r := Join(SummaryLines(text, terms), "\n");
      var head := Title + "\n" + Rule + "\n\n" + SummaryLabel + "\n" + Trim(text, Python) + "\n\n" + KeyInfoLabel;
      |head| <= |r| && r[..|head|] == head
  {
    RenderedParts(text, terms);
    HeadJoin(text);
  }

  /** The output's first line is the title. */
  lemma RenderedTitleFirst(text: string, terms: map<Category, seq<string>>)
    requires HasListKeys(terms)
    ensures var r := Join(SummaryLines(text, terms), "\n");
      |Title| <= |r| && r[..|Title|] == Title
  {
    var lines := HeadLines(text);
    var h := Join(lines, "\n");
    var b := Join(BlocksLines(terms) + TailLines, "\n");
    var j := Join(lines[1..], "\n");
    assert h == Title + ("\n" + j) by {
      assert lines == [Title] + lines[1..];
      JoinCons(Title, lines[1..], "\n");
      Assoc(Title, "\n", j);
    }
    assert Join(SummaryLines(text, terms), "\n") == h + ("\n" + b) by {
      RenderedParts(text, terms);
      Assoc(h, "\n", b);
    }
    Leads(Title, "\n" + j, "\n" + b);
  }

  lemma Assoc(a: string, b: string, c: string)
    ensures a + b + c == a + (b + c)
  {
  }

  /** `a` leads `a + x + y`. */
  lemma Leads(a: string, x: string, y: string)
    ensures |a| <= |a + x + y| && (a + x + y)[..|a|] == a
  {
    assert a + x + y == a + (x + y);
  }

  /** The output ends with the rule and the disclaimer line. */
  lemma RenderedEnd(text: string, terms: map<Category, seq<string>>)
    requires HasListKeys(terms)
    ensures Join(SummaryLines(text, terms), "\n")
         == Join(HeadLines(text) + BlocksLines(terms), "\n") + "\n" + Rule + "\n" + Disclaimer
  {
    var front := HeadLines(text) + BlocksLines(terms);
    assert SummaryLines(text, terms) == front + [Rule, Disclaimer];
    JoinTwoAfter(front, Rule, Disclaimer);
  }

  /** The rule is 25 `'='` characters. */
  lemma RuleShape()
    ensures |Rule| == 25 && forall i | 0 <= i < 25 :: Rule[i] == '='
  {
  }

  /** The measurements and the uncategorised terms never reach the output. */
  lemma IgnoresUnlisted(text: string, terms: map<Category, seq<string>>, ms: seq<string>, os: seq<string>)
    requires HasListKeys(terms)
    ensures SummaryLines(text, terms[Measurements := ms][Other := os]) == SummaryLines(text, terms)
  {
    var t := terms[Measurements := ms][Other := os];
    assert t[Diagnoses] == terms[Diagnoses] && t[Symptoms] == terms[Symptoms];
    assert t[Medications] == terms[Medications] && t[Procedures] == terms[Procedures];
    assert t[TestResults] == terms[TestResults];
    assert BlocksLines(t) == BlocksLines(terms);
  }
}
