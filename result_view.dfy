/** The result panel of the client (`ResultTable`): a pure projection of the
    comparison result and the loading flag onto the view that is shown.
    The result is whatever JSON the service returned; every field is optional
    and is tested on its own, with JavaScript truthiness read as "present and
    non-empty". */
module ResultView {
  import opened Common

  /** One entry of `tableau_comparatif`; a key the service left out renders as
      an empty cell. */
  datatype ComparisonItem = ComparisonItem(
    aspect: Option<string>,
    devis1: Option<string>,
    devis2: Option<string>,
    commentaire: Option<string>)

  /** The `elements_manquants` object, with one optional list per quote. */
  datatype MissingItems = MissingItems(devis1: Option<seq<string>>, devis2: Option<seq<string>>)

  /** The `result` object of a successful response. `error` is the service's own
      error channel inside an otherwise successful answer. */
  datatype ComparisonResult = ComparisonResult(
    error: Option<string>,
    comparaisonGenerale: Option<string>,
    tableauComparatif: Option<seq<ComparisonItem>>,
    differencesNotables: Option<seq<string>>,
    elementsManquants: Option<MissingItems>,
    recommandation: Option<string>)

  /** A rendered table row: the four cells aspect, quote 1, quote 2, comment. */
  datatype Row = Row(aspect: string, devis1: string, devis2: string, commentaire: string)

  /** One side of the missing-items section. */
  datatype MissingSide = Listed(items: seq<string>) | Placeholder(text: string)

  datatype Section =
    | GeneralComparison(text: string)
    | ComparisonTable(rows: seq<Row>)
    | NotableDifferences(items: seq<string>)
    | MissingElements(quote1: MissingSide, quote2: MissingSide)
    | Recommendation(text: string)

  datatype View =
    | Spinner(status: string, advisory: string)
    | Empty
    | ErrorPanel(title: string, message: string)
    | Report(heading: string, sections: seq<Section>)

  const LoadingStatus := "Analyse en cours, veuillez patienter..."
  const LoadingAdvisory := "L'analyse de vos devis peut prendre jusqu'à une minute selon leur complexité."
  const ErrorTitle := "Une erreur est survenue"
  const ResultHeading := "Résultat de l'analyse"
  const NoMissingText := "Aucun élément manquant"

  /** JavaScript truthiness of an optional string. */
  predicate Truthy(s: Option<string>) {
    s.Some? && s.value != ""
  }

  /** `xs && xs.length > 0` on an optional list. */
  predicate NonEmpty<T>(xs: Option<seq<T>>) {
    xs.Some? && |xs.value| > 0
  }

  function Cell(s: Option<string>): string {
    s.GetOr("")
  }

  function RowOf(item: ComparisonItem): Row {
    Row(Cell(item.aspect), Cell(item.devis1), Cell(item.devis2), Cell(item.commentaire))
  }

  /** The table body: one row per item, in the order of the items. */
  function RowsOf(items: seq<ComparisonItem>): (rows: seq<Row>)
    ensures |rows| == |items|
    ensures forall i :: 0 <= i < |items| ==> rows[i] == RowOf(items[i])
  {
    seq(|items|, i requires 0 <= i < |items| => RowOf(items[i]))
  }

  /** One side of the missing-items section: its own list, or the placeholder
      when that list is absent or empty. */
  function SideView(items: Option<seq<string>>): MissingSide {
    if NonEmpty(items) then Listed(items.value) else Placeholder(NoMissingText)
  }

  function GeneralPart(r: ComparisonResult): seq<Section> {
    if Truthy(r.comparaisonGenerale) then [GeneralComparison(r.comparaisonGenerale.value)] else []
  }

  function TablePart(r: ComparisonResult): seq<Section> {
    if NonEmpty(r.tableauComparatif) then [ComparisonTable(RowsOf(r.tableauComparatif.value))] else []
  }

  function DifferencesPart(r: ComparisonResult): seq<Section> {
    if NonEmpty(r.differencesNotables) then [NotableDifferences(r.differencesNotables.value)] else []
  }

  function MissingPart(r: ComparisonResult): seq<Section> {
    match r.elementsManquants
    case Some(m) => [MissingElements(SideView(m.devis1), SideView(m.devis2))]
    case None => []
  }

  function RecommendationPart(r: ComparisonResult): seq<Section> {
    if Truthy(r.recommandation) then [Recommendation(r.recommandation.value)] else []
  }

  /** The sections of a normal report, in the fixed order general comparison,
      table, differences, missing items, recommendation. */
  function Sections(r: ComparisonResult): seq<Section> {
    GeneralPart(r) + TablePart(r) + DifferencesPart(r) + MissingPart(r) + RecommendationPart(r)
  }

  /** The whole projection: loading first, then the absent result, then the
      service's error field, and only then the report. */
  function Render(result: Option<ComparisonResult>, isLoading: bool): (v: View)
    ensures isLoading ==> v == Spinner(LoadingStatus, LoadingAdvisory)
    ensures !isLoading && result.None? ==> v == Empty
    ensures !isLoading && result.Some? && Truthy(result.value.error)
            ==> v == ErrorPanel(ErrorTitle, result.value.error.value)
    ensures v.Report? <==> !isLoading && result.Some? && !Truthy(result.value.error)
    ensures v.Report? ==> v.heading == ResultHeading && v.sections == Sections(result.value)
  {
    if isLoading then Spinner(LoadingStatus, LoadingAdvisory)
    else if result.None? then Empty
    else if Truthy(result.value.error) then ErrorPanel(ErrorTitle, result.value.error.value)
    else Report(ResultHeading, Sections(result.value))
  }

  /** Position of a section kind in the fixed order. */
  function Rank(s: Section): nat {
    match s
    case GeneralComparison(_) => 0
    case ComparisonTable(_) => 1
    case NotableDifferences(_) => 2
    case MissingElements(_, _) => 3
    case Recommendation(_) => 4
  }

  /** The first section of rank `k`, if any. */
  function Lookup(secs: seq<Section>, k: nat): (found: Option<Section>)
    ensures found.Some? ==> found.value in secs && Rank(found.value) == k
    ensures found.None? ==> forall i :: 0 <= i < |secs| ==> Rank(secs[i]) != k
  {
    if secs == [] then None
    else if Rank(secs[0]) == k then Some(secs[0])
    else Lookup(secs[1..], k)
  }

  lemma {:induction false} LookupAppend(a: seq<Section>, b: seq<Section>, k: nat)
    ensures Lookup(a + b, k) == if Lookup(a, k).Some? then Lookup(a, k) else Lookup(b, k)
  {
    if a != [] {
      assert (a + b)[1..] == a[1..] + b;
      LookupAppend(a[1..], b, k);
    } else {
      assert a + b == b;
    }
  }

  /** Strictly increasing ranks: the fixed order, each kind at most once. */
  predicate Ordered(secs: seq<Section>) {
    forall i, j :: 0 <= i < j < |secs| ==> Rank(secs[i]) < Rank(secs[j])
  }

  predicate RanksBelow(secs: seq<Section>, k: nat) {
    forall i :: 0 <= i < |secs| ==> Rank(secs[i]) < k
  }

  /** A part of the report: at most one section, of rank `k`. */
  predicate OfRank(part: seq<Section>, k: nat) {
    |part| <= 1 && forall i :: 0 <= i < |part| ==> Rank(part[i]) == k
  }

  lemma PartsRanked(r: ComparisonResult)
    ensures OfRank(GeneralPart(r), 0) && OfRank(TablePart(r), 1) && OfRank(DifferencesPart(r), 2)
    ensures OfRank(MissingPart(r), 3) && OfRank(RecommendationPart(r), 4)
  {
  }

  /** Appending a part of rank `k` after sections all ranked below `k` keeps
      the order. */
  lemma OrderedExtend(prefix: seq<Section>, part: seq<Section>, k: nat)
    requires Ordered(prefix) && RanksBelow(prefix, k) && OfRank(part, k)
    ensures Ordered(prefix + part) && RanksBelow(prefix + part, k + 1)
  {
    var whole := prefix + part;
    assert forall i :: 0 <= i < |prefix| ==> whole[i] == prefix[i];
    assert forall i :: |prefix| <= i < |whole| ==> whole[i] == part[i - |prefix|];
  }

  /** The sections of a report come in the fixed order, each kind at most once. */
  lemma SectionsInOrder(r: ComparisonResult)
    ensures forall i, j :: 0 <= i < j < |Sections(r)| ==> Rank(Sections(r)[i]) < Rank(Sections(r)[j])
  {
    var g, t, d, m, c := GeneralPart(r), TablePart(r), DifferencesPart(r), MissingPart(r), RecommendationPart(r);
    PartsRanked(r);
    OrderedExtend(g, t, 1);
    OrderedExtend(g + t, d, 2);
    OrderedExtend(g + t + d, m, 3);
    OrderedExtend(g + t + d + m, c, 4);
    assert Ordered(Sections(r));
  }

  // Each section is shown exactly when its own field passes its presence test,
  // and it shows that field's content; no other field affects it.

  lemma GeneralShown(r: ComparisonResult)
    ensures Lookup(Sections(r), 0) ==
      if Truthy(r.comparaisonGenerale) then Some(GeneralComparison(r.comparaisonGenerale.value)) else None
  {
    LookupParts(r, 0);
  }

  lemma TableShown(r: ComparisonResult)
    ensures Lookup(Sections(r), 1) ==
      if NonEmpty(r.tableauComparatif) then Some(ComparisonTable(RowsOf(r.tableauComparatif.value))) else None
  {
    LookupParts(r, 1);
  }

  lemma DifferencesShown(r: ComparisonResult)
    ensures Lookup(Sections(r), 2) ==
      if NonEmpty(r.differencesNotables) then Some(NotableDifferences(r.differencesNotables.value)) else None
  {
    LookupParts(r, 2);
  }

  lemma MissingShown(r: ComparisonResult)
    ensures Lookup(Sections(r), 3) ==
      if r.elementsManquants.Some?
      then Some(MissingElements(SideView(r.elementsManquants.value.devis1), SideView(r.elementsManquants.value.devis2)))
      else None
  {
    LookupParts(r, 3);
  }

  lemma RecommendationShown(r: ComparisonResult)
    ensures Lookup(Sections(r), 4) ==
      if Truthy(r.recommandation) then Some(Recommendation(r.recommandation.value)) else None
  {
    LookupParts(r, 4);
  }

  /** Looking a rank up in the report is looking it up part by part. */
  lemma LookupParts(r: ComparisonResult, k: nat)
    ensures Lookup(Sections(r), k) ==
      if Lookup(GeneralPart(r), k).Some? then Lookup(GeneralPart(r), k)
      else if Lookup(TablePart(r), k).Some? then Lookup(TablePart(r), k)
      else if Lookup(DifferencesPart(r), k).Some? then Lookup(DifferencesPart(r), k)
      else if Lookup(MissingPart(r), k).Some? then Lookup(MissingPart(r), k)
      else Lookup(RecommendationPart(r), k)
  {
    var g, t, d, m, c := GeneralPart(r), TablePart(r), DifferencesPart(r), MissingPart(r), RecommendationPart(r);
    PartsRanked(r);
    LookupAppend(g + t + d + m, c, k);
    LookupAppend(g + t + d, m, k);
    LookupAppend(g + t, d, k);
    LookupAppend(g, t, k);
  }

  /** The two sides of the missing-items section are decided independently:
      each shows its own list when non-empty and the placeholder otherwise. */
  lemma MissingSidesIndependent(r: ComparisonResult, q1: Option<seq<string>>, q2: Option<seq<string>>)
    requires r.elementsManquants == Some(MissingItems(q1, q2))
    ensures Lookup(Sections(r), 3) == Some(MissingElements(SideView(q1), SideView(q2)))
    ensures SideView(q1) == if NonEmpty(q1) then Listed(q1.value) else Placeholder(NoMissingText)
    ensures SideView(q2) == if NonEmpty(q2) then Listed(q2.value) else Placeholder(NoMissingText)
  {
    MissingShown(r);
  }

  /** A result that carries only a recommendation renders the heading and the
      recommendation panel and nothing else. */
  lemma RecommendationOnly(text: string)
    requires text != ""
    ensures Render(Some(ComparisonResult(None, None, None, None, None, Some(text))), false)
            == Report(ResultHeading, [Recommendation(text)])
  {
  }

  /** A missing-items object with no list for quote 1 and one item for quote 2
      shows the placeholder on the first side and that one item on the second. */
  lemma MissingOnOneSide(item: string)
    ensures Render(Some(ComparisonResult(None, None, None, None, Some(MissingItems(None, Some([item]))), None)), false)
            == Report(ResultHeading, [MissingElements(Placeholder(NoMissingText), Listed([item]))])
  {
  }
}
