/**
 * Bucketing of named entities into the seven fixed categories of the summary
 * (`extract_medical_terms`): each entity text is appended to the list of the category its
 * label maps to, unless that list already holds it.
 */
module MedicalTerms {

  /** The two fields of an entity the categoriser reads (`text` and `label`). */
  datatype Entity = Entity(text: string, kind: string)

  /** The seven keys of the result, all present from the start. */
  datatype Category = Diagnoses | Symptoms | Medications | Procedures | Measurements | TestResults | Other

  /** The dictionary key each category is stored under. */
  function Key(c: Category): string {
    match c
    case Diagnoses => "diagnoses"
    case Symptoms => "symptoms"
    case Medications => "medications"
    case Procedures => "procedures"
    case Measurements => "measurements"
    case TestResults => "test_results"
    case Other => "other"
  }

  const AllCategories: set<Category> :=
    {Diagnoses, Symptoms, Medications, Procedures, Measurements, TestResults, Other}

  /** The label table; labels it does not list fall back to `Other`. */
  const EntityCategories: map<string, Category> := map[
    "DISEASE" := Diagnoses,
    "SYMPTOM" := Symptoms,
    "MEDICATION" := Medications,
    "PROCEDURE" := Procedures,
    "TREATMENT" := Procedures,
    "MEASUREMENT" := Measurements,
    "TEST_RESULT" := TestResults,
    "ANATOMY" := Other,
    "CHEMICAL" := Other,
    "TIME" := Other
  ]

  /** `entity_categories.get(label, "other")`. */
  function CategoryOf(kind: string): (c: Category)
    ensures c == Procedures <==> kind == "PROCEDURE" || kind == "TREATMENT"
    ensures kind !in EntityCategories ==> c == Other
  {
    if kind in EntityCategories then EntityCategories[kind] else Other
  }

  /** The texts of the entities whose label maps to category `c`, in entity order. */
  function TextsIn(es: seq<Entity>, c: Category): (r: seq<string>)
    ensures |r| <= |es|
    decreases |es|
  {
    if es == [] then []
    else TextsIn(es[..|es| - 1], c) + (if CategoryOf(es[|es| - 1].kind) == c then [es[|es| - 1].text] else [])
  }

  /** A text is among the texts of a category exactly when some entity carries it with a
      label of that category. */
  lemma {:induction false} TextsInMembership(es: seq<Entity>, c: Category, x: string)
    ensures x in TextsIn(es, c) <==> exists i | 0 <= i < |es| :: es[i].text == x && CategoryOf(es[i].kind) == c
    decreases |es|
  {
    if es != [] {
      var init := es[..|es| - 1];
      TextsInMembership(init, c, x);
      assert forall i | 0 <= i < |init| :: es[i] == init[i];
    }
  }

  /** Keeps the first occurrence of every element, in order. */
  function Dedup(xs: seq<string>): (r: seq<string>)
    ensures forall x :: x in r <==> x in xs
    ensures forall i, j | 0 <= i < j < |r| :: r[i] != r[j]
    ensures |r| <= |xs|
    decreases |xs|
  {
    if xs == [] then []
    else
      var d := Dedup(xs[..|xs| - 1]);
      var x := xs[|xs| - 1];
      assert xs == xs[..|xs| - 1] + [x];
      if x in d then d else d + [x]
  }

  /** What `extract_medical_terms` lists under category `c`: the distinct texts of the
      entities whose label maps to `c`, in order of first appearance. */
  function CategoryTerms(es: seq<Entity>, c: Category): (r: seq<string>)
    ensures forall i, j | 0 <= i < j < |r| :: r[i] != r[j]
  {
    Dedup(TextsIn(es, c))
  }

  /** The dictionary holds a list for every one of the seven categories, and each list is the
      one `CategoryTerms` describes. */
  predicate IsTermsOf(terms: map<Category, seq<string>>, es: seq<Entity>) {
    forall c: Category :: c in terms && terms[c] == CategoryTerms(es, c)
  }

  /** The dictionary `extract_medical_terms` returns, as one value. */
  function TermsOf(es: seq<Entity>): map<Category, seq<string>> {
    map[Diagnoses := CategoryTerms(es, Diagnoses), Symptoms := CategoryTerms(es, Symptoms),
        Medications := CategoryTerms(es, Medications), Procedures := CategoryTerms(es, Procedures),
        Measurements := CategoryTerms(es, Measurements), TestResults := CategoryTerms(es, TestResults),
        Other := CategoryTerms(es, Other)]
  }

  /** It holds all seven categories, each with the list `CategoryTerms` describes. */
  lemma TermsOfLists(es: seq<Entity>)
    ensures TermsOf(es).Keys == AllCategories && IsTermsOf(TermsOf(es), es)
  {
    var m := TermsOf(es);
    forall c: Category ensures c in m && m[c] == CategoryTerms(es, c) {
      match c
      case Diagnoses => case Symptoms => case Medications => case Procedures =>
      case Measurements => case TestResults => case Other =>
    }
    assert forall c :: c in m <==> c in AllCategories;
  }

  /** The dictionary the loop starts from: every category with an empty list. */
  const EmptyTerms: map<Category, seq<string>> :=
    map[Diagnoses := [], Symptoms := [], Medications := [], Procedures := [],
        Measurements := [], TestResults := [], Other := []]

  /** The loop of `extract_medical_terms`. */
  method ExtractMedicalTerms(entities: seq<Entity>) returns (terms: map<Category, seq<string>>)
    ensures terms.Keys == AllCategories
    ensures IsTermsOf(terms, entities)
  {
    terms := map[Diagnoses := [], Symptoms := [], Medications := [], Procedures := [],
                 Measurements := [], TestResults := [], Other := []];
    forall c: Category ensures c in terms && terms[c] == CategoryTerms(entities[..0], c) {
      assert TextsIn(entities[..0], c) == [];
      match c
      case Diagnoses => case Symptoms => case Medications => case Procedures =>
      case Measurements => case TestResults => case Other =>
    }
    for i := 0 to |entities|
      invariant IsTermsOf(terms, entities[..i])
    {
      var e := entities[i];
      var c := CategoryOf(e.kind);
      assert entities[..i + 1] == entities[..i] + [e];
      if e.text !in terms[c] {
        terms := terms[c := terms[c] + [e.text]];
      }
      forall d: Category ensures d in terms && terms[d] == CategoryTerms(entities[..i + 1], d) {
        TermsStep(entities[..i], e, d);
      }
    }
    assert entities[..|entities|] == entities;
    assert forall c :: c in terms <==> c in AllCategories;
  }

  /** One more entity changes only the list of its own category, and only by appending its
      text when that text is new there. */
  lemma TermsStep(es: seq<Entity>, e: Entity, d: Category)
    ensures var c := CategoryOf(e.kind); var old_c := CategoryTerms(es, c);
      CategoryTerms(es + [e], d) ==
        if d == c && e.text !in old_c then old_c + [e.text] else CategoryTerms(es, d)
  {
    var c := CategoryOf(e.kind);
    TextsInSnoc(es, e, d);
    if d == c {
      DedupSnoc(TextsIn(es, d), e.text);
    }
  }

  lemma TextsInSnoc(es: seq<Entity>, e: Entity, c: Category)
    ensures CategoryOf(e.kind) == c ==> TextsIn(es + [e], c) == TextsIn(es, c) + [e.text]
    ensures CategoryOf(e.kind) != c ==> TextsIn(es + [e], c) == TextsIn(es, c)
  {
    assert (es + [e])[..|es|] == es;
  }

  lemma DedupSnoc(xs: seq<string>, x: string)
    ensures Dedup(xs + [x]) == if x in Dedup(xs) then Dedup(xs) else Dedup(xs) + [x]
  {
    assert (xs + [x])[..|xs|] == xs;
  }

  /** A text is listed under a category exactly when some entity with that text has a label
      mapping to it. */
  lemma TermsMembership(es: seq<Entity>, c: Category, x: string)
    ensures x in CategoryTerms(es, c) <==> exists i | 0 <= i < |es| :: es[i].text == x && CategoryOf(es[i].kind) == c
  {
    TextsInMembership(es, c, x);
  }

  /** Index of the first occurrence of `x` in `xs`. */
  function FirstIndex(xs: seq<string>, x: string): (k: nat)
    requires x in xs
    ensures k < |xs| && xs[k] == x && x !in xs[..k]
    decreases |xs|
  {
    if xs[0] == x then 0 else 1 + FirstIndex(xs[1..], x)
  }

  /** The deduplicated list keeps the order of first occurrences. */
  lemma {:induction false} DedupOrder(xs: seq<string>, i: nat, j: nat)
    requires i < j < |Dedup(xs)|
    ensures FirstIndex(xs, Dedup(xs)[i]) < FirstIndex(xs, Dedup(xs)[j])
    decreases |xs|
  {
    var init := xs[..|xs| - 1];
    var x := xs[|xs| - 1];
    var d := Dedup(init);
    var r := Dedup(xs);
    assert xs == init + [x];
    if j < |d| {
      assert r[i] == d[i] && r[j] == d[j];
      DedupOrder(init, i, j);
      FirstIndexPrefix(init, x, d[i]);
      FirstIndexPrefix(init, x, d[j]);
    } else {
      assert x !in d && r[j] == x && r[i] == d[i];
      assert x !in init;
      FirstIndexPrefix(init, x, d[i]);
      FirstIndexLast(init, x);
    }
  }

  lemma {:induction false} FirstIndexPrefix(init: seq<string>, x: string, y: string)
    requires y in init
    ensures FirstIndex(init + [x], y) == FirstIndex(init, y)
    decreases |init|
  {
    if init[0] != y {
      assert (init + [x])[1..] == init[1..] + [x];
      FirstIndexPrefix(init[1..], x, y);
    }
  }

  lemma {:induction false} FirstIndexLast(init: seq<string>, x: string)
    requires x !in init
    ensures FirstIndex(init + [x], x) == |init|
    decreases |init|
  {
    if init != [] {
      assert (init + [x])[1..] == init[1..] + [x];
      FirstIndexLast(init[1..], x);
    }
  }

  /** Within each category the texts are distinct and appear in the order in which their first
      entity appears. */
  lemma TermsOrder(es: seq<Entity>, c: Category, i: nat, j: nat)
    requires i < j < |CategoryTerms(es, c)|
    ensures FirstIndex(TextsIn(es, c), CategoryTerms(es, c)[i]) < FirstIndex(TextsIn(es, c), CategoryTerms(es, c)[j])
  {
    DedupOrder(TextsIn(es, c), i, j);
  }
}
