/** The helper module over `localStorage` (src/utils/medicineStorage.ts).
    It keeps its list under its own key, separate from the pages' key.
    Every query there starts with `getAllMedicines()`; here each query
    takes that loaded list as its argument. */
module MedicineStorage {
  import opened Text
  import opened Seqs
  import opened MedicineTypes
  import opened Storage

  const StorageKey: string := "medibuddy-medicines"

  /** The threshold `getLowStockMedicines` uses when called without one. */
  const DefaultLowStockThreshold: int := 5

  /** `getAllMedicines()`. */
  function GetAllMedicines(items: map<string, seq<Medicine>>): seq<Medicine> {
    Load(items, StorageKey)
  }

  /** Nothing stored gives the empty list; the helper's writes and the
      pages' writes never see each other. */
  lemma StoresAreSeparate(items: map<string, seq<Medicine>>, value: seq<Medicine>)
    ensures StorageKey !in items ==> GetAllMedicines(items) == []
    ensures GetAllMedicines(items[StorageKey := value]) == value
    ensures Load(items[StorageKey := value], PagesKey) == Load(items, PagesKey)
    ensures GetAllMedicines(items[PagesKey := value]) == GetAllMedicines(items)
  {
    assert StorageKey != PagesKey;
    LoadAfterWrite(items, StorageKey, value, PagesKey);
    LoadAfterWrite(items, PagesKey, value, StorageKey);
  }

  /** `addMedicine(medicine)`: the loaded list grows by `medicine` at its
      end and is written back. */
  method AddMedicine(storage: LocalStorage, medicine: Medicine)
    modifies storage
    ensures storage.items == old(storage.items)[StorageKey := old(GetAllMedicines(storage.items)) + [medicine]]
  {
    var medicines := GetAllMedicines(storage.items);
    medicines := medicines + [medicine];
    storage.SetItem(StorageKey, medicines);
  }

  /** `findIndex(med => med.id === id)`: the first position holding `id`, or
      -1 when no medicine has it. */
  function FindIndexById(meds: seq<Medicine>, id: string): (r: int)
    ensures -1 <= r < |meds|
    ensures r == -1 <==> forall i | 0 <= i < |meds| :: meds[i].id != id
    ensures r >= 0 ==> meds[r].id == id && forall i | 0 <= i < r :: meds[i].id != id
  {
    if meds == [] then -1
    else if meds[0].id == id then 0
    else
      var k := FindIndexById(meds[1..], id);
      if k == -1 then -1 else k + 1
  }

  /** `updateMedicine(updated)`: the first medicine with the same id is
      replaced and the list written back; with no such medicine nothing is
      written. */
  method UpdateMedicine(storage: LocalStorage, updated: Medicine)
    modifies storage
    ensures var before := old(GetAllMedicines(storage.items));
            var index := FindIndexById(before, updated.id);
            if index == -1 then storage.items == old(storage.items)
            else storage.items == old(storage.items)[StorageKey := before[index := updated]]
  {
    var medicines := GetAllMedicines(storage.items);
    var index := FindIndexById(medicines, updated.id);
    if index != -1 {
      medicines := medicines[index := updated];
      storage.SetItem(StorageKey, medicines);
    }
  }

  /** The predicate `medicine.id !== id`. */
  function IdIsNot(id: string): Medicine -> bool {
    (m: Medicine) => m.id != id
  }

  /** `medicines.filter(medicine => medicine.id !== id)`. */
  function WithoutId(meds: seq<Medicine>, id: string): (r: seq<Medicine>)
    ensures forall m :: m in r <==> m in meds && m.id != id
    ensures IsSubsequence(r, meds)
  {
    FilterIsSubsequence(meds, IdIsNot(id));
    FilterMembers(meds, IdIsNot(id));
    Filter(meds, IdIsNot(id))
  }

  /** Deleting keeps every other medicine as many times as it was there. */
  lemma DeleteKeepsOthers(meds: seq<Medicine>, id: string, m: Medicine)
    ensures multiset(WithoutId(meds, id))[m] == if m.id == id then 0 else multiset(meds)[m]
  {
    FilterCounts(meds, IdIsNot(id), m);
  }

  /** Deleting an id nobody has leaves the list as it was. */
  lemma DeleteAbsentIsIdentity(meds: seq<Medicine>, id: string)
    requires forall m | m in meds :: m.id != id
    ensures WithoutId(meds, id) == meds
  {
    FilterKeepsAll(meds, IdIsNot(id));
  }

  /** Deleting twice is deleting once. */
  lemma DeleteTwiceIsDeleteOnce(meds: seq<Medicine>, id: string)
    ensures WithoutId(WithoutId(meds, id), id) == WithoutId(meds, id)
  {
    FilterIdempotent(meds, IdIsNot(id));
  }

  /** `deleteMedicine(id)`: the filtered list is written back, present or
      not. */
  method DeleteMedicine(storage: LocalStorage, id: string)
    modifies storage
    ensures storage.items == old(storage.items)[StorageKey := WithoutId(old(GetAllMedicines(storage.items)), id)]
  {
    var medicines := GetAllMedicines(storage.items);
    var filtered := WithoutId(medicines, id);
    storage.SetItem(StorageKey, filtered);
  }

  /** The name or the description, lower-cased, contains `lowerQuery`. */
  predicate MatchesQuery(m: Medicine, lowerQuery: string) {
    Contains(Lower(m.name), lowerQuery) || Contains(Lower(m.description), lowerQuery)
  }

  function Matching(lowerQuery: string): Medicine -> bool {
    (m: Medicine) => MatchesQuery(m, lowerQuery)
  }

  /** `searchMedicines(query)`: a blank query gives the whole list;
      otherwise the medicines whose lower-cased name or description contains
      the lower-cased query (untrimmed), in order. */
  function SearchMedicines(meds: seq<Medicine>, query: string): (r: seq<Medicine>)
    ensures IsBlank(query) ==> r == meds
    ensures !IsBlank(query) ==> forall m :: m in r <==> m in meds && MatchesQuery(m, Lower(query))
    ensures IsSubsequence(r, meds)
  {
    SubsequenceReflexive(meds);
    FilterIsSubsequence(meds, Matching(Lower(query)));
    FilterMembers(meds, Matching(Lower(query)));
    if IsBlank(query) then meds else Filter(meds, Matching(Lower(query)))
  }

  function OfKind(kind: MedicineType): Medicine -> bool {
    (m: Medicine) => m.kind == kind
  }

  /** `getMedicinesByType(type)`: the medicines of that kind, in order. */
  function GetMedicinesByType(meds: seq<Medicine>, kind: MedicineType): (r: seq<Medicine>)
    ensures forall m :: m in r <==> m in meds && m.kind == kind
    ensures IsSubsequence(r, meds)
  {
    FilterIsSubsequence(meds, OfKind(kind));
    FilterMembers(meds, OfKind(kind));
    Filter(meds, OfKind(kind))
  }

  function StockAtMost(threshold: int): Medicine -> bool {
    (m: Medicine) => m.stock <= threshold
  }

  /** `getLowStockMedicines(threshold)`: the medicines with at most
      `threshold` (5 by default) in stock, in order. */
  function GetLowStockMedicines(meds: seq<Medicine>, threshold: int := DefaultLowStockThreshold): (r: seq<Medicine>)
    ensures forall m :: m in r <==> m in meds && m.stock <= threshold
    ensures IsSubsequence(r, meds)
  {
    FilterIsSubsequence(meds, StockAtMost(threshold));
    FilterMembers(meds, StockAtMost(threshold));
    Filter(meds, StockAtMost(threshold))
  }

  /** Each filter keeps every selected medicine as many times as it was
      there, so it is exactly the selection and not merely a subset. */
  lemma QueriesKeepMultiplicity(meds: seq<Medicine>, kind: MedicineType, threshold: int, m: Medicine)
    ensures multiset(GetMedicinesByType(meds, kind))[m] == if m.kind == kind then multiset(meds)[m] else 0
    ensures multiset(GetLowStockMedicines(meds, threshold))[m] == if m.stock <= threshold then multiset(meds)[m] else 0
  {
    FilterCounts(meds, OfKind(kind), m);
    FilterCounts(meds, StockAtMost(threshold), m);
  }
}
