/**
 * The saved-summaries page: a list of summary cards filtered by a case-insensitive search
 * over four of their fields.
 */
module Summaries {
  import opened Text

  datatype SummaryCard = SummaryCard(
    id: string,
    patientId: string,
    patientName: string,
    visitDate: string,
    physician: string,
    summaryPreview: string,
    diagnoses: seq<string>,
    medications: seq<string>)

  /** `field.toLowerCase().includes(term.toLowerCase())`. */
  predicate FieldMatches(field: string, term: string) {
    Contains(ToLower(field), ToLower(term))
  }

  /** The search test: patient id, patient name, physician or preview contains the term,
      ignoring letter case. */
  predicate Matches(s: SummaryCard, term: string) {
    FieldMatches(s.patientId, term) || FieldMatches(s.patientName, term)
    || FieldMatches(s.physician, term) || FieldMatches(s.summaryPreview, term)
  }

  /** `xs` is `ys` with some elements left out, the rest in their order. */
  predicate Subsequence<T(==)>(xs: seq<T>, ys: seq<T>)
    decreases |ys|
  {
    if xs == [] then true
    else if ys == [] then false
    else if xs[0] == ys[0] then Subsequence(xs[1..], ys[1..])
    else Subsequence(xs, ys[1..])
  }

  /** `summaries.filter(s => Matches(s, term))`. */
  function Filter(xs: seq<SummaryCard>, term: string): (r: seq<SummaryCard>)
    ensures forall s :: s in r <==> s in xs && Matches(s, term)
    ensures |r| <= |xs|
  {
    if xs == [] then []
    else if Matches(xs[0], term) then [xs[0]] + Filter(xs[1..], term)
    else Filter(xs[1..], term)
  }

  /** One more element in front of the longer sequence keeps a subsequence. */
  lemma {:induction false} SubsequenceSkip<T>(xs: seq<T>, y: T, ys: seq<T>)
    requires Subsequence(xs, ys)
    ensures Subsequence(xs, [y] + ys)
    decreases |ys|, 1
  {
    assert ([y] + ys)[1..] == ys;
    if xs != [] && xs[0] == y {
      SubsequenceTail(xs, ys);
    }
  }

  /** Dropping the first element of a subsequence keeps a subsequence. */
  lemma {:induction false} SubsequenceTail<T>(xs: seq<T>, ys: seq<T>)
    requires xs != [] && Subsequence(xs, ys)
    ensures Subsequence(xs[1..], ys)
    decreases |ys|, 0
  {
    assert ys != [];
    if xs[0] == ys[0] {
      SubsequenceSkip(xs[1..], ys[0], ys[1..]);
    } else {
      SubsequenceTail(xs, ys[1..]);
      SubsequenceSkip(xs[1..], ys[0], ys[1..]);
    }
    assert [ys[0]] + ys[1..] == ys;
  }

  /** The result keeps matching cards in their original order. */
  lemma {:induction false} FilterSubsequence(xs: seq<SummaryCard>, term: string)
    ensures Subsequence(Filter(xs, term), xs)
  {
    if xs != [] {
      FilterSubsequence(xs[1..], term);
      var rest := Filter(xs[1..], term);
      if Matches(xs[0], term) {
        assert ([xs[0]] + rest)[1..] == rest;
      } else {
        SubsequenceSkip(rest, xs[0], xs[1..]);
        assert [xs[0]] + xs[1..] == xs;
      }
    }
  }

  /** An empty search term keeps every card. */
  lemma {:induction false} EmptyTermKeepsAll(xs: seq<SummaryCard>)
    ensures Filter(xs, "") == xs
  {
    if xs != [] {
      ContainsEmpty(ToLower(xs[0].patientId));
      assert ToLower("") == "";
      EmptyTermKeepsAll(xs[1..]);
      assert [xs[0]] + xs[1..] == xs;
    }
  }

  /** Two terms that differ only in letter case select the same cards. */
  lemma {:induction false} CaseInsensitive(xs: seq<SummaryCard>, t: string, u: string)
    requires ToLower(t) == ToLower(u)
    ensures Filter(xs, t) == Filter(xs, u)
  {
    if xs != [] {
      CaseInsensitive(xs[1..], t, u);
    }
  }

  /** The lower-cased term selects the same cards as the term. */
  lemma LowerTermSame(xs: seq<SummaryCard>, t: string)
    ensures Filter(xs, ToLower(t)) == Filter(xs, t)
  {
    LowerIdempotent(t);
    CaseInsensitive(xs, ToLower(t), t);
  }

  lemma LowerIdempotent(t: string)
    ensures ToLower(ToLower(t)) == ToLower(t)
  {
  }

  lemma FieldMonotone(field: string, t: string, u: string)
    requires Contains(u, t) && FieldMatches(field, u)
    ensures FieldMatches(field, t)
  {
    ContainsLower(u, t);
    ContainsTransitive(ToLower(t), ToLower(u), ToLower(field));
  }

  /** Lengthening the term can only drop cards: a card found by a term is found by every
      part of it. */
  lemma Monotone(xs: seq<SummaryCard>, t: string, u: string)
    requires Contains(u, t)
    ensures forall s | s in Filter(xs, u) :: s in Filter(xs, t)
  {
    forall s | s in Filter(xs, u)
      ensures s in Filter(xs, t)
    {
      if FieldMatches(s.patientId, u) {
        FieldMonotone(s.patientId, t, u);
      } else if FieldMatches(s.patientName, u) {
        FieldMonotone(s.patientName, t, u);
      } else if FieldMatches(s.physician, u) {
        FieldMonotone(s.physician, t, u);
      } else {
        FieldMonotone(s.summaryPreview, t, u);
      }
    }
  }

  /** Diagnoses, medications, the visit date and the card id are never searched. */
  lemma {:induction false} UnsearchedFields(xs: seq<SummaryCard>, ys: seq<SummaryCard>, term: string)
    requires |xs| == |ys|
    requires forall i | 0 <= i < |xs| ::
      xs[i].patientId == ys[i].patientId && xs[i].patientName == ys[i].patientName
      && xs[i].physician == ys[i].physician && xs[i].summaryPreview == ys[i].summaryPreview
    ensures |Filter(xs, term)| == |Filter(ys, term)|
    ensures forall i | 0 <= i < |xs| :: xs[i] in Filter(xs, term) <==> ys[i] in Filter(ys, term)
  {
    if xs != [] {
      UnsearchedFields(xs[1..], ys[1..], term);
    }
  }

  /** The page's search box. */
  class SearchPage {
    const summaries: seq<SummaryCard>
    var searchTerm: string

    constructor(summaries: seq<SummaryCard>)
      ensures this.summaries == summaries && searchTerm == []
      ensures Visible() == summaries
    {
      this.summaries := summaries;
      searchTerm := [];
      new;
      EmptyTermKeepsAll(summaries);
    }

    /** The cards on screen. */
    function Visible(): (r: seq<SummaryCard>)
      reads this
      ensures forall s :: s in r <==> s in summaries && Matches(s, searchTerm)
    {
      Filter(summaries, searchTerm)
    }

    /** Typing in the search box. */
    method SetSearchTerm(value: string)
      modifies this
      ensures searchTerm == value
      ensures Visible() == Filter(summaries, value)
    {
      searchTerm := value;
    }

    /** `handleClearSearch`: the term becomes empty and every card is shown again. */
    method ClearSearch()
      modifies this
      ensures searchTerm == []
      ensures Visible() == summaries
    {
      searchTerm := [];
      EmptyTermKeepsAll(summaries);
    }
  }
}
