/**
 * The summary view of the front end: which panel it shows, how it pulls the diagnosis,
 * symptom, medication and procedure lists out of the structured summary text with its
 * regular expressions, the prose it shows on the Summary tab, and the download file name.
 */
module SummaryDisplay {
  import opened Wrappers
  import opened Text
  import Numerals

  const DiagnosesHeader := "Diagnoses:"
  const SymptomsHeader := "Symptoms:"
  const MedicationsHeader := "Medications:"
  const ProceduresHeader := "Procedures/Treatments:"
  const SummaryMarker := "SUMMARY:"
  const KeyInfoMarker := "KEY MEDICAL INFORMATION:"
  const NoSummary := "No summary available"
  const NoTranscription := "No transcription available"

  /** The fields of the summary object the view reads; `None` is null or undefined. */
  datatype SummaryRecord = SummaryRecord(summary: Option<string>, patientId: Option<string>, transcription: Option<string>)

  /** A JavaScript string is truthy when it is present and not empty. */
  predicate Truthy(s: Option<string>) {
    s.Some? && s.value != []
  }

  // ---------------------------------------------------------------------------
  // `text.match(/<header>([\s\S]*?)(?:\n\n|\n$)/)`

  /** The alternation `\n\n|\n$` matches at `i` (no `m` flag: `$` is the end of the input). */
  predicate EndsBodyAt(rest: string, i: nat) {
    (i + 2 <= |rest| && rest[i] == '\n' && rest[i + 1] == '\n') || (i + 1 == |rest| && rest[i] == '\n')
  }

  /** The lazy `[\s\S]*?` stops at the first position where the terminator matches. */
  function BodyEnd(rest: string, from: nat): (r: Option<nat>)
    ensures r.Some? ==> from <= r.value < |rest| && EndsBodyAt(rest, r.value)
    ensures r.Some? ==> forall j: nat | from <= j < r.value :: !EndsBodyAt(rest, j)
    ensures r.None? ==> forall j: nat | from <= j :: !EndsBodyAt(rest, j)
    decreases |rest| - from
  {
    if from >= |rest| then None
    else if EndsBodyAt(rest, from) then Some(from)
    else BodyEnd(rest, from + 1)
  }

  /** The regular-expression engine tries start positions `from`, `from + 1`, ... in turn:
      the first position where the header occurs and a terminator follows gives group 1. */
  function MatchFrom(s: string, header: string, from: nat): (r: Option<string>)
    decreases |s| + 1 - from
  {
    if from + |header| > |s| then None
    else if OccursAt(s, header, from) && BodyEnd(s[from + |header|..], 0).Some? then
      Some(s[from + |header|..][..BodyEnd(s[from + |header|..], 0).value])
    else MatchFrom(s, header, from + 1)
  }

  /** Group 1 of the section match, or `None` when the match fails (`null`). */
  function SectionBody(s: string, header: string): (r: Option<string>)
    ensures r.Some? ==> Contains(s, header)
  {
    var r := MatchFrom(s, header, 0);
    if r.Some? then MatchFromOccurs(s, header, 0); r else r
  }

  lemma {:induction false} MatchFromOccurs(s: string, header: string, from: nat)
    requires MatchFrom(s, header, from).Some?
    ensures Contains(s, header)
    decreases |s| + 1 - from
  {
    if !(OccursAt(s, header, from) && BodyEnd(s[from + |header|..], 0).Some?) {
      MatchFromOccurs(s, header, from + 1);
    }
  }

  /** A section whose header never occurs is not matched. */
  lemma {:induction false} SectionAbsent(s: string, header: string)
    requires !Contains(s, header)
    ensures SectionBody(s, header).None?
  {
    MatchFromAbsent(s, header, 0);
  }

  lemma {:induction false} MatchFromAbsent(s: string, header: string, from: nat)
    requires forall q: nat | from <= q && OccursAt(s, header, q) :: BodyEnd(s[q + |header|..], 0).None?
    ensures MatchFrom(s, header, from).None?
    decreases |s| + 1 - from
  {
    if from + |header| <= |s| {
      MatchFromAbsent(s, header, from + 1);
    }
  }

  /** When the first occurrence of the header is not followed by a terminator, no later one is
      either, so the section is not matched. */
  lemma SectionUnterminated(s: string, header: string, p: nat)
    requires OccursAt(s, header, p) && forall q: nat | q < p :: !OccursAt(s, header, q)
    requires BodyEnd(s[p + |header|..], 0).None?
    ensures SectionBody(s, header).None?
  {
    forall q: nat | OccursAt(s, header, q)
      ensures BodyEnd(s[q + |header|..], 0).None?
    {
      assert p <= q;
      var restP := s[p + |header|..];
      var restQ := s[q + |header|..];
      forall j: nat ensures !EndsBodyAt(restQ, j) {
        if EndsBodyAt(restQ, j) {
          assert restQ == restP[q - p..];
          assert EndsBodyAt(restP, j + (q - p));
        }
      }
    }
    MatchFromAbsent(s, header, 0);
  }

  /** The body is the shortest text after the first occurrence of the header that reaches a
      terminator. */
  lemma SectionAtFirst(s: string, header: string, p: nat, i: nat)
    requires OccursAt(s, header, p) && forall q: nat | q < p :: !OccursAt(s, header, q)
    requires BodyEnd(s[p + |header|..], 0) == Some(i)
    ensures SectionBody(s, header) == Some(s[p + |header|..][..i])
  {
    MatchFromFirst(s, header, 0, p, i);
  }

  lemma {:induction false} MatchFromFirst(s: string, header: string, from: nat, p: nat, i: nat)
    requires from <= p
    requires OccursAt(s, header, p) && forall q: nat | from <= q < p :: !OccursAt(s, header, q)
    requires BodyEnd(s[p + |header|..], 0) == Some(i)
    ensures MatchFrom(s, header, from) == Some(s[p + |header|..][..i])
    decreases p - from
  {
    if from < p {
      MatchFromFirst(s, header, from + 1, p, i);
    }
  }

  // ---------------------------------------------------------------------------
  // `body.trim().split(/\s*-\s*/).filter(Boolean).map(item => item.trim())`

  // `t.split(/\s*-\s*/)`: every hyphen, with the whitespace on either side of it, separates two
  // pieces. The regular expression cannot match the empty string, so a text without a hyphen
  // is one piece.
  function SplitOnDash(t: string): (r: seq<string>)
    ensures |r| >= 1
    ensures forall i | 0 <= i < |r| :: '-' !in r[i]
    ensures IsTrimmed(t, JS) ==> forall i | 0 <= i < |r| :: IsTrimmed(r[i], JS)
    ensures IsTrimmed(t, JS) ==> r == TrimEach(Split(t, '-'))
    decreases |t|
  {
    var k := IndexOfChar(t, '-');
    if k == |t| then OneField(t); [t]
    else
      var head := TrimEnd(t[..k], JS);
      var tail := TrimStart(t[k + 1..], JS);
      DashPieces(t, k);
      DashFields(t, k);
      [head] + SplitOnDash(tail)
  }

  /** Text without a hyphen is one field, which trimming keeps when the text is trimmed. */
  lemma OneField(t: string)
    requires IndexOfChar(t, '-') == |t|
    ensures IsTrimmed(t, JS) ==> TrimEach(Split(t, '-')) == [t]
  {
    if IsTrimmed(t, JS) {
      TrimOfTrimmed(t, JS);
    }
  }

  /** On trimmed text, the regular expression's pieces are the hyphen-separated fields
      trimmed: the piece before the first hyphen loses its trailing whitespace, and the
      whitespace after the hyphen belongs to the first field of the rest. */
  lemma DashFields(t: string, k: nat)
    requires k == IndexOfChar(t, '-') && k < |t|
    ensures IsTrimmed(t, JS) ==>
      TrimEach(Split(t, '-')) == [TrimEnd(t[..k], JS)] + TrimEach(Split(TrimStart(t[k + 1..], JS), '-'))
  {
    if IsTrimmed(t, JS) {
      var u := t[k + 1..];
      var tail := TrimStart(u, JS);
      DashHead(t, k);
      HeadField(t, k);
      SpacesFields(u, |u| - |tail|);
    }
  }

  /** The first field, trimmed, then the trimmed fields after the first hyphen. */
  lemma DashHead(t: string, k: nat)
    requires k == IndexOfChar(t, '-') && k < |t|
    ensures TrimEach(Split(t, '-')) == [Trim(t[..k], JS)] + TrimEach(Split(t[k + 1..], '-'))
  {
    SplitFirstAt(t, '-', k);
    TrimEachCons(t[..k], Split(t[k + 1..], '-'));
  }

  lemma TrimEachCons(x: string, xs: seq<string>)
    ensures TrimEach([x] + xs) == [Trim(x, JS)] + TrimEach(xs)
  {
    var l, r := TrimEach([x] + xs), [Trim(x, JS)] + TrimEach(xs);
    assert |l| == |r|;
    forall i | 0 <= i < |l|
      ensures l[i] == r[i]
    {
      if i > 0 {
        TrimEachShift(x, xs, i);
      }
    }
  }

  lemma TrimEachShift(x: string, xs: seq<string>, i: nat)
    requires 0 < i <= |xs|
    ensures TrimEach([x] + xs)[i] == TrimEach(xs)[i - 1]
  {
    assert ([x] + xs)[i] == xs[i - 1];
  }

  /** The field before the first hyphen of trimmed text only needs its end trimmed. */
  lemma HeadField(t: string, k: nat)
    requires IsTrimmed(t, JS) && k < |t|
    ensures Trim(t[..k], JS) == TrimEnd(t[..k], JS)
  {
    if k > 0 {
      assert t[..k][0] == t[0];
    }
    TrimStartSkips("", t[..k], JS);
    assert "" + t[..k] == t[..k];
  }

  /** Whitespace in front of the fields is trimmed away with the first of them. */
  lemma {:induction false} SpacesFields(u: string, n: nat)
    requires n <= |u| && AllSpace(u[..n], JS)
    ensures TrimEach(Split(u, '-')) == TrimEach(Split(u[n..], '-'))
    decreases n
  {
    if n > 0 {
      SpacesRest(u, n);
      SpacesFields(u[1..], n - 1);
      SpaceField(u);
      assert u[1..][n - 1..] == u[n..];
    } else {
      assert u[n..] == u;
    }
  }

  lemma SpacesRest(u: string, n: nat)
    requires 0 < n <= |u| && AllSpace(u[..n], JS)
    ensures IsSpace(u[0], JS) && AllSpace(u[1..][..n - 1], JS)
  {
    assert u[..n][0] == u[0];
    AllSpaceTail(u[..n], JS);
    assert u[..n][1..] == u[1..][..n - 1];
  }

  /** One leading whitespace character is trimmed away with the first field. */
  lemma SpaceField(u: string)
    requires u != [] && IsSpace(u[0], JS)
    ensures TrimEach(Split(u, '-')) == TrimEach(Split(u[1..], '-'))
  {
    SplitDropOne(u, '-');
    var fields := Split(u[1..], '-');
    TrimSpaces([u[0]], fields[0], JS);
    TrimEachHead([u[0]] + fields[0], fields);
  }

  /** Replacing the first string by one that trims the same way changes nothing. */
  lemma TrimEachHead(h: string, xs: seq<string>)
    requires |xs| >= 1 && Trim(h, JS) == Trim(xs[0], JS)
    ensures TrimEach([h] + xs[1..]) == TrimEach(xs)
  {
    var l, r := TrimEach([h] + xs[1..]), TrimEach(xs);
    forall i | 0 <= i < |l|
      ensures l[i] == r[i]
    {
      if i > 0 {
        TrimEachTail(h, xs, i);
      }
    }
  }

  lemma TrimEachTail(h: string, xs: seq<string>, i: nat)
    requires 0 < i < |xs|
    ensures TrimEach([h] + xs[1..])[i] == TrimEach(xs)[i]
  {
    assert ([h] + xs[1..])[i] == xs[i];
  }

  /** The pieces on either side of the first hyphen: the one before it holds no hyphen, and
      both are trimmed when the whole text is. */
  lemma DashPieces(t: string, k: nat)
    requires k < |t| && '-' !in t[..k]
    ensures '-' !in TrimEnd(t[..k], JS)
    ensures IsTrimmed(t, JS) ==> IsTrimmed(TrimEnd(t[..k], JS), JS)
    ensures IsTrimmed(t, JS) ==> IsTrimmed(TrimStart(t[k + 1..], JS), JS)
  {
    var head := TrimEnd(t[..k], JS);
    var rest := t[k + 1..];
    var tail := TrimStart(rest, JS);
    assert head == t[..k][..|head|];
    if head != [] {
      assert head[0] == t[0];
    }
    if tail != [] {
      assert tail == rest[|rest| - |tail|..];
      assert tail[|tail| - 1] == t[|t| - 1];
    }
  }

  /** `.filter(Boolean)` on strings: drops the empty ones, keeping the order. */
  function FilterNonEmpty(xs: seq<string>): (r: seq<string>)
    ensures forall i | 0 <= i < |r| :: r[i] != [] && r[i] in xs
    decreases |xs|
  {
    if xs == [] then []
    else if xs[0] == [] then FilterNonEmpty(xs[1..])
    else [xs[0]] + FilterNonEmpty(xs[1..])
  }

  /** `.map(item => item.trim())`. */
  function TrimEach(xs: seq<string>): (r: seq<string>)
    ensures |r| == |xs| && forall i {:trigger r[i]} | 0 <= i < |xs| :: r[i] == Trim(xs[i], JS)
  {
    seq(|xs|, i requires 0 <= i < |xs| => Trim(xs[i], JS))
  }

  /** The list items of one section body: each is non-empty, trimmed and free of hyphens. */
  function Items(body: string): (r: seq<string>)
    ensures forall i | 0 <= i < |r| :: r[i] != [] && IsTrimmed(r[i], JS) && '-' !in r[i]
    ensures r == FilterNonEmpty(TrimEach(Split(Trim(body, JS), '-')))
  {
    var pieces := SplitOnDash(Trim(body, JS));
    var kept := FilterNonEmpty(pieces);
    KeptPieces(pieces, kept);
    TrimEachTrimmed(kept);
    TrimEach(kept)
  }

  /** Pieces kept by the filter are pieces, so they are trimmed and free of hyphens. */
  lemma KeptPieces(pieces: seq<string>, kept: seq<string>)
    requires forall i | 0 <= i < |pieces| :: IsTrimmed(pieces[i], JS) && '-' !in pieces[i]
    requires forall i | 0 <= i < |kept| :: kept[i] in pieces
    ensures forall i | 0 <= i < |kept| :: IsTrimmed(kept[i], JS) && '-' !in kept[i]
  {
    forall i | 0 <= i < |kept|
      ensures IsTrimmed(kept[i], JS) && '-' !in kept[i]
    {
      var j :| 0 <= j < |pieces| && pieces[j] == kept[i];
    }
  }

  /** Trimming trimmed strings changes nothing. */
  lemma TrimEachTrimmed(xs: seq<string>)
    requires forall i | 0 <= i < |xs| :: IsTrimmed(xs[i], JS)
    ensures TrimEach(xs) == xs
  {
    forall i | 0 <= i < |xs|
      ensures TrimEach(xs)[i] == xs[i]
    {
      TrimOfTrimmed(xs[i], JS);
    }
  }

  /** The four lists the Medical Details tab shows. */
  datatype Sections = Sections(diagnoses: seq<string>, symptoms: seq<string>,
                               medications: seq<string>, procedures: seq<string>)

  /** One list: the items of the section when the match succeeds, otherwise empty. */
  function SectionItems(text: string, header: string): (r: seq<string>)
    ensures r != [] ==> Contains(text, header)
    ensures forall i | 0 <= i < |r| :: r[i] != [] && IsTrimmed(r[i], JS) && '-' !in r[i]
  {
    match SectionBody(text, header)
    case None => []
    case Some(body) => Items(body)
  }

  /** The four lists start empty and are parsed only when the summary text is truthy. */
  function ParseSections(summaryText: Option<string>): (r: Sections)
    ensures !Truthy(summaryText) ==> r == Sections([], [], [], [])
    ensures Truthy(summaryText) ==>
      r.diagnoses == SectionItems(summaryText.value, DiagnosesHeader)
      && r.symptoms == SectionItems(summaryText.value, SymptomsHeader)
      && r.medications == SectionItems(summaryText.value, MedicationsHeader)
      && r.procedures == SectionItems(summaryText.value, ProceduresHeader)
  {
    if !Truthy(summaryText) then Sections([], [], [], [])
    else
      var s := summaryText.value;
      Sections(SectionItems(s, DiagnosesHeader), SectionItems(s, SymptomsHeader),
               SectionItems(s, MedicationsHeader), SectionItems(s, ProceduresHeader))
  }

  // ---------------------------------------------------------------------------
  // The Summary tab: `summary.summary?.split('SUMMARY:')[1]?.split('KEY MEDICAL INFORMATION:')[0]?.trim()
  //                   || 'No summary available'`

  /** `s.split(sep)[1]`: the text between the first and the second separator, or `None` when
      the separator does not occur (the element is undefined). */
  function SecondPiece(s: string, sep: string): (r: Option<string>)
    requires sep != []
    ensures r.None? <==> IndexOf(s, sep, 0).None?
  {
    match IndexOf(s, sep, 0)
    case None => None
    case Some(p) =>
      var rest := s[p + |sep|..];
      match IndexOf(rest, sep, 0)
      case None => Some(rest)
      case Some(q) => Some(rest[..q])
  }

  /** `s.split(sep)[0]`: the text before the first separator, or all of it. */
  function FirstPiece(s: string, sep: string): (r: string)
    requires sep != []
    ensures |r| <= |s| && r == s[..|r|]
    ensures |r| < |s| ==> OccursAt(s, sep, |r|)
    ensures !Contains(r, sep)
  {
    match IndexOf(s, sep, 0)
    case None => s
    case Some(p) => BeforeFirst(s, sep, p); s[..p]
  }

  function SummaryTab(summaryText: Option<string>): (r: string)
    ensures r != [] && IsTrimmed(r, JS)
    ensures r != NoSummary ==> summaryText.Some? && Contains(summaryText.value, SummaryMarker)
  {
    if summaryText.None? then NoSummary
    else
      match SecondPiece(summaryText.value, SummaryMarker)
      case None => NoSummary
      case Some(piece) =>
        var shown := Trim(FirstPiece(piece, KeyInfoMarker), JS);
        if shown == [] then NoSummary else (IndexOfSome(summaryText.value, SummaryMarker); shown)
  }

  lemma IndexOfSome(s: string, pat: string)
    requires IndexOf(s, pat, 0).Some?
    ensures Contains(s, pat)
  {
    assert OccursAt(s, pat, IndexOf(s, pat, 0).value);
  }

  /** Piece 1 of a split by position: the text after the first separator, up to the next
      separator found from there on, or to the end. */
  lemma SecondPieceFields(s: string, sep: string, p: nat, e: nat)
    requires sep != []
    requires OccursAt(s, sep, p) && forall q: nat | q < p :: !OccursAt(s, sep, q)
    requires p + |sep| <= e <= |s| && (e == |s| || OccursAt(s, sep, e))
    requires forall q: nat | p + |sep| <= q < e :: !OccursAt(s, sep, q)
    ensures SecondPiece(s, sep) == Some(s[p + |sep|..e])
  {
    IndexOfFirst(s, sep, p);
    var a := p + |sep|;
    var rest := s[a..];
    forall q: nat | q < e - a
      ensures !OccursAt(rest, sep, q)
    {
      OccursShift(s, sep, a, q);
    }
    if e < |s| {
      OccursShift(s, sep, a, e - a);
      IndexOfFirst(rest, sep, e - a);
      assert rest[..e - a] == s[a..e];
    } else {
      IndexOfAbsent(rest, sep);
      assert rest == s[a..e];
    }
  }

  /** Piece 0 of a split by position: the text before the first separator, or all of it. */
  lemma FirstPieceFields(v: string, sep: string, k: nat)
    requires sep != [] && k <= |v| && (k == |v| || OccursAt(v, sep, k))
    requires forall q: nat | q < k :: !OccursAt(v, sep, q)
    ensures FirstPiece(v, sep) == v[..k]
  {
    if k < |v| {
      IndexOfFirst(v, sep, k);
    } else {
      IndexOfAbsent(v, sep);
      assert v[..k] == v;
    }
  }

  /**
   * The Summary tab by position: with `SUMMARY:` first at `p` and its next occurrence (or the
   * end) at `e`, `v` is the text between them; with `KEY MEDICAL INFORMATION:` first at `k`
   * within `v` (or nowhere in it, `k` being its length), the tab shows `v[..k]` trimmed, or the
   * placeholder when that is empty.
   */
  lemma SummaryTabFields(s: string, p: nat, e: nat, v: string, k: nat)
    requires OccursAt(s, SummaryMarker, p) && forall q: nat | q < p :: !OccursAt(s, SummaryMarker, q)
    requires p + |SummaryMarker| <= e <= |s| && (e == |s| || OccursAt(s, SummaryMarker, e))
    requires forall q: nat | p + |SummaryMarker| <= q < e :: !OccursAt(s, SummaryMarker, q)
    requires v == s[p + |SummaryMarker|..e]
    requires k <= |v| && (k == |v| || OccursAt(v, KeyInfoMarker, k))
    requires forall q: nat | q < k :: !OccursAt(v, KeyInfoMarker, q)
    ensures SummaryTab(Some(s)) == if Trim(v[..k], JS) == [] then NoSummary else Trim(v[..k], JS)
  {
    SecondPieceFields(s, SummaryMarker, p, e);
    FirstPieceFields(v, KeyInfoMarker, k);
  }

  /** The Transcription tab: `summary.transcription || 'No transcription available'`. */
  function TranscriptionTab(transcription: Option<string>): (r: string)
    ensures Truthy(transcription) ==> r == transcription.value
    ensures !Truthy(transcription) ==> r == NoTranscription
  {
    if Truthy(transcription) then transcription.value else NoTranscription
  }

  /** `patient_summary_${summary.patientId || 'unknown'}_${today}.txt`. */
  function DownloadName(patientId: Option<string>, today: Numerals.Date): (r: string)
    requires Numerals.ValidDate(today)
    ensures |r| >= 31 && r[..16] == "patient_summary_" && r[|r| - 4..] == ".txt"
  {
    var id := if Truthy(patientId) then patientId.value else "unknown";
    var d := Numerals.IsoDate(today);
    Numerals.IsoDateShape(today);
    NameEnds(id, d);
    "patient_summary_" + id + "_" + d + ".txt"
  }

  lemma NameEnds(id: string, d: string)
    requires |d| == 10
    ensures var r := "patient_summary_" + id + "_" + d + ".txt";
      |r| >= 31 && r[..16] == "patient_summary_" && r[|r| - 4..] == ".txt"
  {
  }

  /** `r` holds `id` from position 16, then `_`, then the date as `YYYY-MM-DD`, then 4 more
      characters. */
  predicate NameFields(r: string, id: string, today: Numerals.Date) {
    var n := 16 + |id|;
    |r| == n + 15 && r[16..n] == id && r[n] == '_' && r[n + 5] == '-' && r[n + 8] == '-'
    && Numerals.AllDigits(r[n + 1..n + 5]) && Numerals.DecimalValue(r[n + 1..n + 5]) == today.year
    && Numerals.AllDigits(r[n + 6..n + 8]) && Numerals.DecimalValue(r[n + 6..n + 8]) == today.month
    && Numerals.AllDigits(r[n + 9..n + 11]) && Numerals.DecimalValue(r[n + 9..n + 11]) == today.day
  }

  /** The name reads back as the patient id (or `unknown` when it is missing or empty),
      then `_`, then the date as `YYYY-MM-DD`. */
  lemma DownloadNameFields(patientId: Option<string>, today: Numerals.Date)
    requires Numerals.ValidDate(today)
    ensures NameFields(DownloadName(patientId, today), if Truthy(patientId) then patientId.value else "unknown", today)
  {
    var id := if Truthy(patientId) then patientId.value else "unknown";
    Numerals.IsoDateShape(today);
    NameSlices(id, Numerals.IsoDate(today));
  }

  /** Where the id and the three date fields sit in the file name. */
  lemma NameSlices(id: string, d: string)
    requires |d| == 10
    ensures var r := "patient_summary_" + id + "_" + d + ".txt";
      var n := 16 + |id|;
      |r| == n + 15 && r[16..n] == id && r[n] == '_' && r[n + 5] == d[4] && r[n + 8] == d[7]
      && r[n + 1..n + 5] == d[..4] && r[n + 6..n + 8] == d[5..7] && r[n + 9..n + 11] == d[8..]
  {
    var r := "patient_summary_" + id + "_" + d + ".txt";
    var n := 16 + |id|;
    assert r[n + 1..n + 11] == d;
  }

  // ---------------------------------------------------------------------------
  // Which panel is rendered

  datatype View =
    | Spinner                        // "Generating summary..."
    | ErrorPanel(message: string)    // the alert with the error text
    | Nothing                        // `return null`
    | Details(summaryTab: string, sections: Sections, transcriptionTab: string)

  function Render(summary: Option<SummaryRecord>, isLoading: bool, error: Option<string>): (v: View)
  {
    if isLoading then Spinner
    else if Truthy(error) then ErrorPanel(error.value)
    else if summary.None? then Nothing
    else Details(SummaryTab(summary.value.summary), ParseSections(summary.value.summary),
                 TranscriptionTab(summary.value.transcription))
  }

  /** Loading wins over an error, an error over a missing summary, and the summary is parsed
      only when neither flag is set. */
  lemma RenderDispatch(summary: Option<SummaryRecord>, isLoading: bool, error: Option<string>)
    ensures isLoading <==> Render(summary, isLoading, error) == Spinner
    ensures Render(summary, isLoading, error).ErrorPanel? <==> !isLoading && Truthy(error)
    ensures Render(summary, isLoading, error) == Nothing <==> !isLoading && !Truthy(error) && summary.None?
    ensures Render(summary, isLoading, error).Details? <==> !isLoading && !Truthy(error) && summary.Some?
    ensures Render(summary, isLoading, error).Details? ==>
      Render(summary, isLoading, error).sections == ParseSections(summary.value.summary)
  {
  }
}
