/** The home page (src/pages/Index.tsx): the pages' list, loaded once, shown
    in three groups by kind. */
module IndexPage {
  import opened Seqs
  import opened MedicineTypes
  import opened Storage
  import opened MedicineStorage

  /** The `medicines` state after the load: the stored list, or the initial
      empty list when nothing is stored. */
  function LoadedMedicines(items: map<string, seq<Medicine>>): (r: seq<Medicine>)
    ensures PagesKey !in items ==> r == []
    ensures PagesKey in items ==> r == items[PagesKey]
  {
    Load(items, PagesKey)
  }

  /** The three lists the page shows. */
  datatype Groups = Groups(oneTime: seq<Medicine>, regular: seq<Medicine>, course: seq<Medicine>)

  function GroupByType(meds: seq<Medicine>): Groups {
    Groups(GetMedicinesByType(meds, OneTime), GetMedicinesByType(meds, Regular), GetMedicinesByType(meds, Course))
  }

  /** The groups split the list: each holds exactly the medicines of its
      kind, in list order; no medicine is in two groups; and, since there
      are only three kinds, every medicine is in one of them and the group
      sizes add up to the list's length. */
  lemma {:induction false} GroupsPartition(meds: seq<Medicine>)
    ensures var g := GroupByType(meds);
      && (forall m :: m in g.oneTime <==> m in meds && m.kind == OneTime)
      && (forall m :: m in g.regular <==> m in meds && m.kind == Regular)
      && (forall m :: m in g.course <==> m in meds && m.kind == Course)
      && IsSubsequence(g.oneTime, meds) && IsSubsequence(g.regular, meds) && IsSubsequence(g.course, meds)
      && (forall m :: !(m in g.oneTime && m in g.regular) && !(m in g.oneTime && m in g.course) && !(m in g.regular && m in g.course))
      && (forall m :: m in meds ==> m in g.oneTime || m in g.regular || m in g.course)
      && |g.oneTime| + |g.regular| + |g.course| == |meds|
    decreases |meds|
  {
    if meds != [] {
      GroupsPartition(meds[1..]);
    }
  }

  /** Counted with multiplicity, the three groups together are the list. */
  lemma GroupsAreAPermutation(meds: seq<Medicine>)
    ensures var g := GroupByType(meds);
      multiset(g.oneTime) + multiset(g.regular) + multiset(g.course) == multiset(meds)
  {
    var g := GroupByType(meds);
    forall m ensures (multiset(g.oneTime) + multiset(g.regular) + multiset(g.course))[m] == multiset(meds)[m] {
      QueriesKeepMultiplicity(meds, OneTime, 0, m);
      QueriesKeepMultiplicity(meds, Regular, 0, m);
      QueriesKeepMultiplicity(meds, Course, 0, m);
    }
  }
}
