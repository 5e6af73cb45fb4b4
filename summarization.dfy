/**
 * The summary pipeline of the back end (`generate_medical_summary`): normalise the transcript,
 * bucket the entities, pick the length bounds, summarise, and lay the result out; any failure
 * becomes an error text instead. The language models are parameters; the extractive summariser
 * used when no model can be loaded is modelled in full.
 */
module Summarization {
  import opened Wrappers
  import opened Text
  import opened MedicalTerms
  import opened SummaryStructure
  import SummaryDisplay
  import SummaryRoundTrip
  import Preprocess

  // ---------------------------------------------------------------------------
  // The fallback summariser `SimpleExtractiveSum`

  /** `kwargs.get('max_length', 100)`. */
  function MaxLengthOr(maxLength: Option<nat>): (m: nat)
    ensures maxLength.Some? ==> m == maxLength.value
    ensures maxLength.None? ==> m == 100
  {
    if maxLength.Some? then maxLength.value else 100
  }

  /** The first five sentences (pieces between full stops), joined back and closed with a full
      stop. */
  function FirstSentences(text: string): string {
    var sentences := Split(text, '.');
    Join(sentences[..if |sentences| < 5 then |sentences| else 5], ".") + "."
  }

  /** The fallback summary: the first five sentences, cut to the first `max_length` words (and
      then re-spaced with single spaces) when they are longer. */
  function ExtractiveSummary(text: string, maxLength: Option<nat>): string {
    var m := MaxLengthOr(maxLength);
    var summary := FirstSentences(text);
    var words := Words(summary);
    if |words| > m then Join(words[..m], " ") else summary
  }

  /** Never more than `max_length` words; a summary within the limit is the first sentences
      verbatim, a longer one is exactly its first `max_length` words. */
  lemma ExtractiveBound(text: string, maxLength: Option<nat>)
    ensures |Words(ExtractiveSummary(text, maxLength))| <= MaxLengthOr(maxLength)
    ensures var full := FirstSentences(text); var m := MaxLengthOr(maxLength);
      (|Words(full)| <= m ==> ExtractiveSummary(text, maxLength) == full)
      && (|Words(full)| > m ==> Words(ExtractiveSummary(text, maxLength)) == Words(full)[..m])
    ensures var r := ExtractiveSummary(text, maxLength);
      |Words(FirstSentences(text))| > MaxLengthOr(maxLength) ==> r == Join(Words(r), " ")
  {
    var full := FirstSentences(text);
    var m := MaxLengthOr(maxLength);
    var words := Words(full);
    if |words| > m {
      forall i | 0 <= i < |words[..m]| ensures IsWord(words[..m][i]) {
        assert words[..m][i] == words[i];
      }
      WordsOfJoin(words[..m]);
    }
  }

  /** The untruncated summary is a prefix of the text, closed with a full stop. A text of more
      than five sentences is cut at its fifth full stop, which the summary keeps, and what comes
      before it splits into exactly the first five sentences. */
  lemma FirstSentencesPrefix(text: string)
    ensures var f := FirstSentences(text);
      |f| <= |text| + 1 && f[..|f| - 1] == text[..|f| - 1] && f[|f| - 1] == '.'
    ensures var f := FirstSentences(text); |Split(text, '.')| > 5 ==>
      |f| <= |text| && text[|f| - 1] == '.' && Split(f[..|f| - 1], '.') == Split(text, '.')[..5]
  {
    var sentences := Split(text, '.');
    var k := if |sentences| < 5 then |sentences| else 5;
    JoinSplitPrefix(text, '.', k);
    var j := Join(sentences[..k], ".");
    var f := j + ".";
    assert FirstSentences(text) == f;
    assert f[..|j|] == j;
    if |sentences| > 5 {
      FirstSentencesCut(text);
    }
  }

  lemma FirstSentencesCut(text: string)
    requires |Split(text, '.')| > 5
    ensures var f := FirstSentences(text);
      |f| <= |text| && text[|f| - 1] == '.' && Split(f[..|f| - 1], '.') == Split(text, '.')[..5]
  {
    var sentences := Split(text, '.');
    var j := Join(sentences[..5], ".");
    assert FirstSentences(text) == j + ".";
    assert (j + ".")[..|j|] == j;
    JoinSplitCut(text, '.', 5);
    SplitFree(text, '.');
    SplitJoin(sentences[..5], '.');
  }

  /** The first `k` pieces joined back are followed in `s` by the separator. */
  predicate SeparatorAfter(s: string, c: char, pieces: seq<string>, k: nat) {
    k <= |pieces| && var j := Join(pieces[..k], [c]); |j| < |s| && s[|j|] == c
  }

  /** When pieces remain, the first `k` joined are followed in the text by a separator. */
  lemma {:induction false} JoinSplitCut(s: string, c: char, k: nat)
    requires 0 < k < |Split(s, c)|
    ensures SeparatorAfter(s, c, Split(s, c), k)
    decreases k
  {
    var i := IndexOfChar(s, c);
    assert i < |s|;
    SplitFirst(s, c);
    var tail := Split(s[i + 1..], c);
    if k == 1 {
      CutFirst(s, c, i, Split(s, c), tail);
    } else {
      JoinSplitCut(s[i + 1..], c, k - 1);
      CutStep(s, c, i, Split(s, c), tail, k);
    }
  }

  lemma CutFirst(s: string, c: char, i: nat, pieces: seq<string>, tail: seq<string>)
    requires i < |s| && s[i] == c && pieces == [s[..i]] + tail
    ensures SeparatorAfter(s, c, pieces, 1)
  {
    assert pieces[..1] == [s[..i]];
  }

  lemma CutStep(s: string, c: char, i: nat, pieces: seq<string>, tail: seq<string>, k: nat)
    requires i < |s| && s[i] == c && pieces == [s[..i]] + tail && 1 < k
    requires SeparatorAfter(s[i + 1..], c, tail, k - 1)
    ensures SeparatorAfter(s, c, pieces, k)
  {
    var jt := Join(tail[..k - 1], [c]);
    assert pieces[..k] == [s[..i]] + tail[..k - 1];
    JoinCons(s[..i], tail[..k - 1], [c]);
    assert s[i + 1 + |jt|] == s[i + 1..][|jt|];
  }

  /** Pieces free of the separator split back out of their join. */
  lemma {:induction false} SplitJoin(ps: seq<string>, c: char)
    requires |ps| >= 1 && forall i | 0 <= i < |ps| :: c !in ps[i]
    ensures Split(Join(ps, [c]), c) == ps
    decreases |ps|
  {
    if |ps| == 1 {
      assert IndexOfChar(ps[0], c) == |ps[0]|;
      Singleton(ps);
    } else {
      var rest := Join(ps[1..], [c]);
      assert Join(ps, [c]) == ps[0] + ([c] + rest);
      IndexOfCharAppend(ps[0], [c] + rest, c);
      SplitFirst(ps[0] + ([c] + rest), c);
      assert (ps[0] + ([c] + rest))[..|ps[0]|] == ps[0];
      assert (ps[0] + ([c] + rest))[|ps[0]| + 1..] == rest;
      SplitJoin(ps[1..], c);
      HeadTail(ps);
    }
  }

  /** A text of at most five sentences is kept whole. */
  lemma FewSentences(text: string)
    requires |Split(text, '.')| <= 5
    ensures FirstSentences(text) == text + "."
  {
    var sentences := Split(text, '.');
    assert sentences[..|sentences|] == sentences;
    JoinSplit(text, '.');
  }

  /** Joining the first `k` pieces of a split gives back a prefix of the text. */
  predicate JoinedPrefix(s: string, c: char, k: nat) {
    var pieces := Split(s, c);
    var j := Join(pieces[..if k < |pieces| then k else |pieces|], [c]);
    |j| <= |s| && s[..|j|] == j
  }

  lemma {:induction false} JoinSplitPrefix(s: string, c: char, k: nat)
    ensures JoinedPrefix(s, c, k)
    decreases |s|
  {
    var i := IndexOfChar(s, c);
    if k == 0 {
      JoinedPrefixNone(s, c);
    } else if i == |s| {
      JoinedPrefixWhole(s, c, k);
    } else {
      JoinSplitPrefix(s[i + 1..], c, k - 1);
      JoinedPrefixStep(s, c, k, i);
    }
  }

  /** No pieces join to the empty prefix. */
  lemma JoinedPrefixNone(s: string, c: char)
    ensures JoinedPrefix(s, c, 0)
  {
    assert Split(s, c)[..0] == [];
  }

  /** A text without the separator is its own single piece. */
  lemma JoinedPrefixWhole(s: string, c: char, k: nat)
    requires k >= 1 && IndexOfChar(s, c) == |s|
    ensures JoinedPrefix(s, c, k)
  {
    var pieces := Split(s, c);
    assert pieces == [s];
    assert pieces[..1] == [s];
  }

  /** The first piece, the separator, and a prefix of the rest make a prefix of the text. */
  lemma JoinedPrefixStep(s: string, c: char, k: nat, i: nat)
    requires k >= 1 && i < |s| && i == IndexOfChar(s, c) && JoinedPrefix(s[i + 1..], c, k - 1)
    ensures JoinedPrefix(s, c, k)
  {
    var pieces := Split(s, c);
    var n := if k < |pieces| then k else |pieces|;
    var rest := s[i + 1..];
    var tail := Split(rest, c);
    assert pieces == [s[..i]] + tail;
    if n == 1 {
      assert pieces[..n] == [s[..i]];
    } else {
      var m := if k - 1 < |tail| then k - 1 else |tail|;
      assert m == n - 1;
      var j := Join(tail[..m], [c]);
      assert Join(pieces[..n], [c]) == s[..i] + [c] + j by {
        assert pieces[..n] == [s[..i]] + tail[..m];
        JoinCons(s[..i], tail[..m], [c]);
      }
      assert s == s[..i] + [c] + rest;
      PrefixAfter(s[..i] + [c], rest, j);
    }
  }

  /** A prefix of `rest` stays a prefix once the same text is put in front of both. */
  lemma PrefixAfter(front: string, rest: string, j: string)
    requires |j| <= |rest| && rest[..|j|] == j
    ensures (front + rest)[..|front + j|] == front + j
  {
    assert forall q | 0 <= q < |front + j| :: (front + rest)[q] == (front + j)[q];
  }

  /** With a limit of zero words the fallback returns the empty text: the closing full stop is
      always one word. */
  lemma ExtractiveZero(text: string)
    ensures ExtractiveSummary(text, Some(0)) == ""
  {
    var full := FirstSentences(text);
    FirstSentencesPrefix(text);
    assert full[|full| - 1] == '.';
    WordsNonEmpty(full);
  }

  /** A text that ends in a non-space character has at least one word. */
  lemma WordsNonEmpty(s: string)
    requires s != [] && !IsSpace(s[|s| - 1], Python)
    ensures Words(s) != []
  {
  }

  // ---------------------------------------------------------------------------
  // The length bounds passed to the summariser

  /** `max_length = min(1024, words // 2)` and `min_length = min(50, max_length // 2)`. */
  function SummaryLengths(wordCount: nat): (r: (nat, nat))
    ensures r.0 <= 1024 && 2 * r.0 <= wordCount && (r.0 == 1024 || wordCount < 2 * r.0 + 2)
    ensures r.1 <= 50 && 2 * r.1 <= r.0 && (r.1 == 50 || r.0 < 2 * r.1 + 2)
  {
    var maxLength := if wordCount / 2 < 1024 then wordCount / 2 else 1024;
    var minLength := if maxLength / 2 < 50 then maxLength / 2 else 50;
    (maxLength, minLength)
  }

  /** Fewer than two words leave the summariser no words at all. */
  lemma ShortTranscriptLengths(wordCount: nat)
    requires wordCount < 2
    ensures SummaryLengths(wordCount) == (0, 0)
  {
  }

  // ---------------------------------------------------------------------------
  // The pipeline

  /** The message of an exception, as the caller sees it. */
  function ErrorText(message: string): (r: string)
    ensures |r| >= |ErrorPrefix| && r[..|ErrorPrefix|] == ErrorPrefix && r[|ErrorPrefix|..] == message
  {
    ErrorPrefix + message
  }

  const ErrorPrefix := "Error generating summary: "

  /** The entity recogniser run on the normalised text; it may fail. */
  type Recogniser = string -> Result<seq<Entity>, string>

  /** The summarisation model: text, `max_length`, `min_length`; it may fail. */
  type Summariser = (string, nat, nat) -> Result<string, string>

  /** The fallback summariser as a model that never fails. */
  function Fallback(text: string, maxLength: nat, minLength: nat): Result<string, string> {
    Ok(ExtractiveSummary(text, Some(maxLength)))
  }

  /** The entities the pipeline works with: the given ones, or those the recogniser finds. */
  function EntitiesFor(pre: string, entities: Option<seq<Entity>>, ner: Recogniser): Result<seq<Entity>, string> {
    if entities.Some? then Ok(entities.value) else ner(pre)
  }

  /** The summary text and the entities of a run on the normalised text `pre`, or the message
      of the first failure. */
  function Stages(pre: string, entities: Option<seq<Entity>>, ner: Recogniser, summarize: Summariser)
    : Result<(string, seq<Entity>), string>
  {
    match EntitiesFor(pre, entities, ner)
    case Err(e) => Err(e)
    case Ok(es) =>
      var lengths := SummaryLengths(|Words(pre)|);
      match summarize(pre, lengths.0, lengths.1)
      case Err(e) => Err(e)
      case Ok(summaryText) => Ok((summaryText, es))
  }

  /** The layout of a summary text and the lists of the entities. */
  function Rendered(summaryText: string, es: seq<Entity>): string {
    Join(SummaryLines(summaryText, TermsOf(es)), "\n")
  }

  /** What `generate_medical_summary` returns. */
  function GenerateSpec(transcript: string, entities: Option<seq<Entity>>, ner: Recogniser,
                        summarize: Summariser): string
  {
    match Stages(Preprocess.PreprocessSpec(transcript), entities, ner, summarize)
    case Err(e) => ErrorText(e)
    case Ok(p) => Rendered(p.0, p.1)
  }

  method GenerateMedicalSummary(transcript: string, entities: Option<seq<Entity>>, ner: Recogniser,
                                summarize: Summariser) returns (r: string)
    ensures r == GenerateSpec(transcript, entities, ner, summarize)
  {
    var pre := Preprocess.PreprocessTranscript(transcript);
    r := SummarizePreprocessed(pre, entities, ner, summarize);
    SpecOfStages(transcript, entities, ner, summarize, pre);
  }

  /** The steps after normalisation, up to the error handler. */
  method SummarizePreprocessed(pre: string, entities: Option<seq<Entity>>, ner: Recogniser,
                               summarize: Summariser) returns (r: string)
    ensures var st := Stages(pre, entities, ner, summarize);
      r == if st.Err? then ErrorText(st.error) else Rendered(st.value.0, st.value.1)
  {
    var es: seq<Entity>;
    if entities.None? {
      var found := ner(pre);
      if found.Err? {
        return ErrorText(found.error);
      }
      es := found.value;
    } else {
      es := entities.value;
    }
    assert EntitiesFor(pre, entities, ner) == Ok(es);
    var terms := ExtractMedicalTerms(es);
    var lengths := SummaryLengths(|Words(pre)|);
    var summarized := summarize(pre, lengths.0, lengths.1);
    if summarized.Err? {
      return ErrorText(summarized.error);
    }
    assert Stages(pre, entities, ner, summarize) == Ok((summarized.value, es));
    r := StructureSummary(summarized.value, terms);
    SameLists(summarized.value, terms, es);
  }

  lemma SpecOfStages(transcript: string, entities: Option<seq<Entity>>, ner: Recogniser,
                     summarize: Summariser, pre: string)
    requires pre == Preprocess.PreprocessSpec(transcript)
    ensures var st := Stages(pre, entities, ner, summarize);
      GenerateSpec(transcript, entities, ner, summarize)
        == if st.Err? then ErrorText(st.error) else Rendered(st.value.0, st.value.1)
  {
  }

  /** Only the five listed categories reach the layout, so any dictionary holding the lists of
      `es` renders like `TermsOf(es)`. */
  lemma SameLists(text: string, terms: map<Category, seq<string>>, es: seq<Entity>)
    requires IsTermsOf(terms, es)
    ensures HasListKeys(terms) && SummaryLines(text, terms) == SummaryLines(text, TermsOf(es))
  {
    TermsOfLists(es);
  }

  /** A rendered summary starts with the title, which an error text cannot: the caller can
      tell the two outcomes apart. */
  lemma RenderedStartsWithTitle(summaryText: string, es: seq<Entity>)
    ensures var r := Rendered(summaryText, es);
      |Title| <= |r| && r[..|Title|] == Title && r[..|Title|] != ErrorPrefix[..|Title|]
  {
    assert ErrorPrefix[..|Title|][0] != Title[0];
    TermsOfLists(es);
    RenderedTitleFirst(summaryText, TermsOf(es));
  }

  /** The pipeline fails exactly when a stage fails, with that stage's message. */
  lemma Outcome(transcript: string, entities: Option<seq<Entity>>, ner: Recogniser, summarize: Summariser)
    ensures var pre := Preprocess.PreprocessSpec(transcript);
      var found := EntitiesFor(pre, entities, ner);
      var lengths := SummaryLengths(|Words(pre)|);
      var r := GenerateSpec(transcript, entities, ner, summarize);
      (found.Err? ==> r == ErrorText(found.error))
      && (found.Ok? && summarize(pre, lengths.0, lengths.1).Err? ==> r == ErrorText(summarize(pre, lengths.0, lengths.1).error))
      && (found.Ok? && summarize(pre, lengths.0, lengths.1).Ok? ==> r == Rendered(summarize(pre, lengths.0, lengths.1).value, found.value))
  {
  }

  /** End to end: when the summary text and the entity texts cannot be mistaken for headings,
      the front end shows, for each of the four lists, the distinct texts of the entities of
      that category in order of first appearance, and the stripped summary on the Summary tab. */
  lemma PipelineRoundTrip(summaryText: string, es: seq<Entity>)
    requires SummaryRoundTrip.ProseOk(summaryText) && SummaryRoundTrip.TermsOk(TermsOf(es))
    ensures var r := Some(Rendered(summaryText, es));
      var t := Trim(summaryText, Python);
      SummaryDisplay.ParseSections(r) == SummaryDisplay.Sections(CategoryTerms(es, Diagnoses),
        CategoryTerms(es, Symptoms), CategoryTerms(es, Medications), CategoryTerms(es, Procedures))
      && SummaryDisplay.SummaryTab(r) == if t == [] then SummaryDisplay.NoSummary else t
  {
    TermsOfLists(es);
    SummaryRoundTrip.RoundTrip(summaryText, TermsOf(es));
  }

  /** With the fallback summariser, a transcript of fewer than two words gets an empty summary,
      and the Summary tab shows its placeholder. */
  lemma ShortTranscriptNoSummary(transcript: string, entities: Option<seq<Entity>>, ner: Recogniser)
    requires |Words(Preprocess.PreprocessSpec(transcript))| < 2
    requires EntitiesFor(Preprocess.PreprocessSpec(transcript), entities, ner).Ok?
    ensures var es := EntitiesFor(Preprocess.PreprocessSpec(transcript), entities, ner).value;
      GenerateSpec(transcript, entities, ner, Fallback) == Rendered("", es)
    ensures SummaryDisplay.SummaryTab(Some(GenerateSpec(transcript, entities, ner, Fallback))) == SummaryDisplay.NoSummary
  {
    var pre := Preprocess.PreprocessSpec(transcript);
    var es := EntitiesFor(pre, entities, ner).value;
    ShortTranscriptLengths(|Words(pre)|);
    ExtractiveZero(pre);
    assert Fallback(pre, 0, 0) == Ok("");
    assert Stages(pre, entities, ner, Fallback) == Ok(("", es));
    TermsOfLists(es);
    SummaryRoundTrip.LayoutHead("", TermsOf(es));
    assert Trim("", Python) == "";
    NotContainsShort("", SummaryLabel);
    NotContainsShort("", KeyInfoLabel);
    SummaryRoundTrip.SummaryTabOf("", Join(BlocksLines(TermsOf(es)) + TailLines, "\n"));
  }
}
