/** The search page (src/pages/SearchMedicine.tsx): the pages' list loaded
    once, a search term, the matching medicines, and deletion from the
    store and from both lists. */
module SearchPage {
  import opened Wrappers
  import opened Text
  import opened Seqs
  import opened MedicineTypes
  import opened Storage
  import opened MedicineStorage

  /** The filter effect: a blank term shows nothing; otherwise the medicines
      whose lower-cased name or description contains the lower-cased term,
      in list order. */
  function SearchResults(meds: seq<Medicine>, term: string): (r: seq<Medicine>)
    ensures IsBlank(term) ==> r == []
    ensures !IsBlank(term) ==> forall m :: m in r <==> m in meds && MatchesQuery(m, Lower(term))
    ensures IsSubsequence(r, meds)
  {
    if IsBlank(term) then []
    else
      FilterIsSubsequence(meds, Matching(Lower(term)));
      FilterMembers(meds, Matching(Lower(term)));
      Filter(meds, Matching(Lower(term)))
  }

  /** A match occurs as often as in the list: the result is exactly the
      matching medicines, not just some of them. */
  lemma SearchResultsKeepMultiplicity(meds: seq<Medicine>, term: string, m: Medicine)
    requires !IsBlank(term)
    ensures multiset(SearchResults(meds, term))[m] == if MatchesQuery(m, Lower(term)) then multiset(meds)[m] else 0
  {
    FilterCounts(meds, Matching(Lower(term)), m);
  }

  /** The page and the helper module agree on every non-blank term and
      disagree on a blank one: the page shows nothing, the helper the whole
      list. */
  lemma PageAndHelperSearch(meds: seq<Medicine>, term: string)
    ensures !IsBlank(term) ==> SearchResults(meds, term) == SearchMedicines(meds, term)
    ensures IsBlank(term) ==> SearchResults(meds, term) == [] && SearchMedicines(meds, term) == meds
  {
  }

  /** The letter case of the term does not matter: terms with the same
      lower-case form find the same medicines. */
  lemma SearchIgnoresCase(meds: seq<Medicine>, term: string, other: string)
    requires Lower(term) == Lower(other)
    ensures SearchResults(meds, term) == SearchResults(meds, other)
  {
    BlankIgnoresCase(term, other);
  }

  /** Deleting from the results gives the results of the list with the
      medicine deleted, so when the page's list is the stored list, the
      handler's direct update of the results already is what the re-run
      filter effect settles on. */
  lemma DeleteCommutesWithSearch(meds: seq<Medicine>, term: string, id: string)
    ensures WithoutId(SearchResults(meds, term), id) == SearchResults(WithoutId(meds, id), term)
  {
    if IsBlank(term) {
      FilterNone([], IdIsNot(id));
    } else {
      FilterCommutes(meds, Matching(Lower(term)), IdIsNot(id));
    }
  }

  class SearchView {
    /** The `searchTerm`, `medicines` and `filteredMedicines` states. */
    var searchTerm: string
    var medicines: seq<Medicine>
    var filteredMedicines: seq<Medicine>

    constructor ()
      ensures searchTerm == "" && medicines == [] && filteredMedicines == []
    {
      searchTerm := "";
      medicines := [];
      filteredMedicines := [];
    }

    /** The filter effect, run whenever the term or the list changes. */
    method FilterEffect()
      modifies this
      ensures searchTerm == old(searchTerm) && medicines == old(medicines)
      ensures filteredMedicines == SearchResults(medicines, searchTerm)
    {
      if IsBlank(searchTerm) {
        filteredMedicines := [];
      } else {
        filteredMedicines := Filter(medicines, Matching(Lower(searchTerm)));
      }
    }

    /** The load effect: take the stored list when there is one, then
        re-filter. */
    method LoadMedicines(storage: LocalStorage)
      modifies this
      ensures searchTerm == old(searchTerm)
      ensures medicines == if storage.GetItem(PagesKey).Some? then storage.GetItem(PagesKey).value else old(medicines)
      ensures filteredMedicines == SearchResults(medicines, searchTerm)
    {
      var saved := storage.GetItem(PagesKey);
      if saved.Some? {
        medicines := saved.value;
      }
      FilterEffect();
    }

    /** Typing in the search box: the new term, then re-filter. */
    method SetSearchTerm(term: string)
      modifies this
      ensures searchTerm == term && medicines == old(medicines)
      ensures filteredMedicines == SearchResults(medicines, term)
    {
      searchTerm := term;
      FilterEffect();
    }

    /** `handleDelete(id)`: with nothing stored, nothing happens; otherwise
        the stored list loses every medicine with `id` and is written back,
        and it becomes the page's list, while the shown results lose that
        id too. The new list then re-runs the filter effect, so the results
        settle on the search of the new list. */
    method HandleDelete(storage: LocalStorage, id: string)
      modifies this, storage
      ensures old(storage.GetItem(PagesKey)).None? ==>
        storage.items == old(storage.items) && medicines == old(medicines) && filteredMedicines == old(filteredMedicines)
      ensures old(storage.GetItem(PagesKey)).Some? ==>
        && storage.items == old(storage.items)[PagesKey := WithoutId(old(storage.items[PagesKey]), id)]
        && medicines == WithoutId(old(storage.items[PagesKey]), id)
        && filteredMedicines == SearchResults(medicines, searchTerm)
      ensures searchTerm == old(searchTerm)
    {
      var stored := storage.GetItem(PagesKey);
      if stored.None? {
        return;
      }
      var updatedMedicines := WithoutId(stored.value, id);
      storage.SetItem(PagesKey, updatedMedicines);
      medicines := updatedMedicines;
      filteredMedicines := WithoutId(filteredMedicines, id);
      FilterEffect();
    }
  }
}
