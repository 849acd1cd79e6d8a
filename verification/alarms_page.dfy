/** The alarm list page (src/pages/Alarms.tsx): every alarm of every stored
    medicine as one entry, sorted by time, with a switch that sets one
    alarm's `enabled` flag in the store and in the list on screen. */
module AlarmsPage {
  import opened Wrappers
  import opened Text
  import opened Seqs
  import opened MedicineTypes
  import opened Storage
  import opened Formatters

  /** `MedicineWithAlarm`: one alarm with the fields of its medicine that the
      list shows. */
  datatype AlarmEntry = AlarmEntry(medicineId: string, medicineName: string, alarm: Alarm, kind: MedicineType, dosage: string)

  function EntryOf(p: Pair): AlarmEntry {
    AlarmEntry(p.medicine.id, p.medicine.name, p.alarm, p.medicine.kind, p.medicine.dosage)
  }

  /** The flattened list, before sorting: one entry per (medicine, alarm)
      pair, medicine by medicine and alarm by alarm. */
  function Entries(meds: seq<Medicine>): (r: seq<AlarmEntry>)
    ensures |r| == AlarmCount(meds)
  {
    PairsLength(meds);
    Map(Pairs(meds), EntryOf)
  }

  /** There is one entry per alarm: alarm `j` of medicine `i` sits after the
      alarms of the medicines before `i`, and carries that medicine's id,
      name, kind and dosage. */
  lemma EntriesOnePerAlarm(meds: seq<Medicine>, i: nat, j: nat)
    requires i < |meds| && j < |meds[i].alarms|
    ensures |Entries(meds)| == AlarmCount(meds)
    ensures AlarmCount(meds[..i]) + j < |Entries(meds)|
    ensures Entries(meds)[AlarmCount(meds[..i]) + j] ==
      AlarmEntry(meds[i].id, meds[i].name, meds[i].alarms[j], meds[i].kind, meds[i].dosage)
  {
    PairsIndex(meds, i, j);
    assert Entries(meds)[AlarmCount(meds[..i]) + j] == EntryOf(Pairs(meds)[AlarmCount(meds[..i]) + j]);
  }

  /** The nested `forEach` loops of `loadAlarms`, pushing one entry per
      alarm. */
  method ExtractAlarms(medicines: seq<Medicine>) returns (extracted: seq<AlarmEntry>)
    ensures extracted == Entries(medicines)
  {
    extracted := [];
    var i := 0;
    while i < |medicines|
      invariant 0 <= i <= |medicines|
      invariant extracted == Entries(medicines[..i])
    {
      var medicine := medicines[i];
      ghost var before := extracted;
      var j := 0;
      while j < |medicine.alarms|
        invariant 0 <= j <= |medicine.alarms|
        invariant extracted == before + Map(PairsOf(medicine, medicine.alarms[..j]), EntryOf)
      {
        var alarm := medicine.alarms[j];
        assert PairsOf(medicine, medicine.alarms[..j + 1]) == PairsOf(medicine, medicine.alarms[..j]) + [Pair(medicine, alarm)];
        MapConcat(PairsOf(medicine, medicine.alarms[..j]), [Pair(medicine, alarm)], EntryOf);
        assert Map([Pair(medicine, alarm)], EntryOf) == [EntryOf(Pair(medicine, alarm))];
        extracted := extracted + [AlarmEntry(medicine.id, medicine.name, alarm, medicine.kind, medicine.dosage)];
        j := j + 1;
      }
      assert medicine.alarms[..j] == medicine.alarms;
      assert medicines[..i + 1][..i] == medicines[..i];
      assert Pairs(medicines[..i + 1]) == Pairs(medicines[..i]) + PairsOf(medicine, medicine.alarms);
      MapConcat(Pairs(medicines[..i]), PairsOf(medicine, medicine.alarms), EntryOf);
      i := i + 1;
    }
    assert medicines[..i] == medicines;
  }

  // ---------------------------------------------------------------------
  // Sorting by time
  // ---------------------------------------------------------------------

  predicate SortedByTime(s: seq<AlarmEntry>) {
    forall i, j | 0 <= i < j < |s| :: LexLessEq(s[i].alarm.time, s[j].alarm.time)
  }

  /** `x` goes after every entry whose time is not later than its own. */
  function InsertByTime(sorted: seq<AlarmEntry>, x: AlarmEntry): (r: seq<AlarmEntry>)
    ensures |r| == |sorted| + 1
  {
    if sorted == [] then [x]
    else if LexLessEq(sorted[0].alarm.time, x.alarm.time) then [sorted[0]] + InsertByTime(sorted[1..], x)
    else [x] + sorted
  }

  /** `extractedAlarms.sort((a, b) => a.alarm.time.localeCompare(b.alarm.time))`:
      a stable sort by the time text. */
  function SortByTime(s: seq<AlarmEntry>): (r: seq<AlarmEntry>)
    ensures |r| == |s|
  {
    if s == [] then [] else InsertByTime(SortByTime(s[..|s| - 1]), s[|s| - 1])
  }

  /** An entry no later than every entry of a sorted list can go in front. */
  lemma ConsSorted(a: AlarmEntry, r: seq<AlarmEntry>)
    requires SortedByTime(r)
    requires NotBefore(a.alarm.time, r)
    ensures SortedByTime([a] + r)
  {
    var s := [a] + r;
    forall i, j | 0 <= i < j < |s| ensures LexLessEq(s[i].alarm.time, s[j].alarm.time) {
      assert s[j] == r[j - 1];
      if i > 0 {
        assert s[i] == r[i - 1];
      }
    }
  }

  /** Every entry of `s` is at time `time` or later. */
  predicate NotBefore(time: string, s: seq<AlarmEntry>) {
    forall k | 0 <= k < |s| :: LexLessEq(time, s[k].alarm.time)
  }

  lemma {:induction false} InsertNotBefore(sorted: seq<AlarmEntry>, x: AlarmEntry, time: string)
    requires NotBefore(time, sorted) && LexLessEq(time, x.alarm.time)
    ensures NotBefore(time, InsertByTime(sorted, x))
    decreases |sorted|
  {
    if sorted != [] && LexLessEq(sorted[0].alarm.time, x.alarm.time) {
      InsertNotBefore(sorted[1..], x, time);
      var r := InsertByTime(sorted[1..], x);
      assert InsertByTime(sorted, x) == [sorted[0]] + r;
      forall k | 0 < k <= |r| ensures LexLessEq(time, ([sorted[0]] + r)[k].alarm.time) {
        assert ([sorted[0]] + r)[k] == r[k - 1];
      }
    }
  }

  lemma {:induction false} InsertCounts(sorted: seq<AlarmEntry>, x: AlarmEntry)
    ensures multiset(InsertByTime(sorted, x)) == multiset(sorted) + multiset{x}
    decreases |sorted|
  {
    if sorted != [] && LexLessEq(sorted[0].alarm.time, x.alarm.time) {
      InsertCounts(sorted[1..], x);
      assert sorted == [sorted[0]] + sorted[1..];
    }
  }

  lemma {:induction false} InsertSorted(sorted: seq<AlarmEntry>, x: AlarmEntry)
    requires SortedByTime(sorted)
    ensures SortedByTime(InsertByTime(sorted, x))
    decreases |sorted|
  {
    if sorted == [] {
    } else if LexLessEq(sorted[0].alarm.time, x.alarm.time) {
      var rest := sorted[1..];
      InsertSorted(rest, x);
      assert NotBefore(sorted[0].alarm.time, rest) by {
        forall k | 0 <= k < |rest| ensures LexLessEq(sorted[0].alarm.time, rest[k].alarm.time) {
          assert rest[k] == sorted[k + 1];
        }
      }
      InsertNotBefore(rest, x, sorted[0].alarm.time);
      ConsSorted(sorted[0], InsertByTime(rest, x));
    } else {
      LexTotal(sorted[0].alarm.time, x.alarm.time);
      forall k | 0 <= k < |sorted| ensures LexLessEq(x.alarm.time, sorted[k].alarm.time) {
        if k > 0 {
          LexTransitive(x.alarm.time, sorted[0].alarm.time, sorted[k].alarm.time);
        }
      }
      ConsSorted(x, sorted);
    }
  }

  /** The sorted list is in non-decreasing time order and holds the same
      entries as many times each. */
  lemma SortIsSortedPermutation(s: seq<AlarmEntry>)
    ensures SortedByTime(SortByTime(s))
    ensures multiset(SortByTime(s)) == multiset(s)
  {
    SortIsSorted(s);
    SortIsPermutation(s);
  }

  lemma {:induction false} SortIsSorted(s: seq<AlarmEntry>)
    ensures SortedByTime(SortByTime(s))
    decreases |s|
  {
    if s != [] {
      var n := |s| - 1;
      SortIsSorted(s[..n]);
      InsertSorted(SortByTime(s[..n]), s[n]);
    }
  }

  lemma {:induction false} SortIsPermutation(s: seq<AlarmEntry>)
    ensures multiset(SortByTime(s)) == multiset(s)
    decreases |s|
  {
    if s != [] {
      var n := |s| - 1;
      SortIsPermutation(s[..n]);
      InsertCounts(SortByTime(s[..n]), s[n]);
      assert s == s[..n] + [s[n]];
    }
  }

  function TimeIs(time: string): AlarmEntry -> bool {
    (e: AlarmEntry) => e.alarm.time == time
  }

  lemma {:induction false} InsertStable(sorted: seq<AlarmEntry>, x: AlarmEntry, time: string)
    requires SortedByTime(sorted)
    ensures Filter(InsertByTime(sorted, x), TimeIs(time)) ==
      Filter(sorted, TimeIs(time)) + (if x.alarm.time == time then [x] else [])
    decreases |sorted|
  {
    var same := TimeIs(time);
    if sorted == [] {
      assert [x] == [] + [x];
    } else if LexLessEq(sorted[0].alarm.time, x.alarm.time) {
      InsertStable(sorted[1..], x, time);
      InsertStableSkip(sorted, x, same, if x.alarm.time == time then [x] else []);
    } else {
      InsertStableFront(sorted, x, time);
    }
  }

  /** Inserting past the first entry keeps that entry first, so any filter
      of the result starts as the filter of the input does. */
  lemma InsertStableSkip(sorted: seq<AlarmEntry>, x: AlarmEntry, keep: AlarmEntry -> bool, tail: seq<AlarmEntry>)
    requires sorted != [] && LexLessEq(sorted[0].alarm.time, x.alarm.time)
    requires Filter(InsertByTime(sorted[1..], x), keep) == Filter(sorted[1..], keep) + tail
    ensures Filter(InsertByTime(sorted, x), keep) == Filter(sorted, keep) + tail
  {
    var inserted := InsertByTime(sorted, x);
    assert inserted == [sorted[0]] + InsertByTime(sorted[1..], x);
    assert inserted[0] == sorted[0];
    assert inserted[1..] == InsertByTime(sorted[1..], x);
  }

  lemma InsertStableFront(sorted: seq<AlarmEntry>, x: AlarmEntry, time: string)
    requires SortedByTime(sorted)
    requires sorted != [] && !LexLessEq(sorted[0].alarm.time, x.alarm.time)
    ensures Filter(InsertByTime(sorted, x), TimeIs(time)) ==
      Filter(sorted, TimeIs(time)) + (if x.alarm.time == time then [x] else [])
  {
    var same := TimeIs(time);
    FilterConcat([x], sorted, same);
    if x.alarm.time == time {
      forall e | e in sorted ensures !same(e) {
        var k :| 0 <= k < |sorted| && sorted[k] == e;
        if k == 0 {
          LexReflexive(x.alarm.time);
        }
      }
      FilterNone(sorted, same);
      assert Filter([x], same) == [x];
    } else {
      assert Filter([x], same) == [];
    }
  }

  /** The sort is stable: the entries sharing any one time keep the order
      they had in the flattened list. */
  lemma {:induction false} SortIsStable(s: seq<AlarmEntry>, time: string)
    ensures Filter(SortByTime(s), TimeIs(time)) == Filter(s, TimeIs(time))
    decreases |s|
  {
    if s != [] {
      var n := |s| - 1;
      var init, last := s[..n], s[n];
      var same := TimeIs(time);
      assert SortByTime(s) == InsertByTime(SortByTime(init), last);
      SortIsStable(init, time);
      SortIsSorted(init);
      InsertStable(SortByTime(init), last, time);
      assert s == init + [last];
      FilterConcat(init, [last], same);
      assert Filter([last], same) == if last.alarm.time == time then [last] else [];
    }
  }

  /** `f` leaves every entry's time as it was. */
  ghost predicate KeepsTime(f: AlarmEntry -> AlarmEntry) {
    forall e :: f(e).alarm.time == e.alarm.time
  }

  lemma {:induction false} InsertMap(sorted: seq<AlarmEntry>, x: AlarmEntry, f: AlarmEntry -> AlarmEntry)
    requires KeepsTime(f)
    ensures Map(InsertByTime(sorted, x), f) == InsertByTime(Map(sorted, f), f(x))
    decreases |sorted|
  {
    if sorted != [] {
      assert f(sorted[0]).alarm.time == sorted[0].alarm.time;
      assert f(x).alarm.time == x.alarm.time;
      assert Map(sorted, f)[1..] == Map(sorted[1..], f);
      if LexLessEq(sorted[0].alarm.time, x.alarm.time) {
        InsertMap(sorted[1..], x, f);
        MapConcat([sorted[0]], InsertByTime(sorted[1..], x), f);
      } else {
        MapConcat([x], sorted, f);
      }
    }
  }

  /** Changing entries without changing their times commutes with the
      sort. */
  lemma {:induction false} SortMapCommute(s: seq<AlarmEntry>, f: AlarmEntry -> AlarmEntry)
    requires KeepsTime(f)
    ensures SortByTime(Map(s, f)) == Map(SortByTime(s), f)
    decreases |s|
  {
    if s != [] {
      var n := |s| - 1;
      SortMapCommute(s[..n], f);
      assert Map(s, f)[..n] == Map(s[..n], f);
      InsertMap(SortByTime(s[..n]), s[n], f);
    }
  }

  // ---------------------------------------------------------------------
  // Switching an alarm on or off
  // ---------------------------------------------------------------------

  /** `alarm.id === alarmId ? { ...alarm, enabled } : alarm`. */
  function SetEnabled(alarmId: string, enabled: bool): Alarm -> Alarm {
    (a: Alarm) => if a.id == alarmId then a.(enabled := enabled) else a
  }

  /** The outer callback of the `map` in `toggleAlarmStatus`. */
  function ToggleMedicine(medicineId: string, alarmId: string, enabled: bool): Medicine -> Medicine {
    (m: Medicine) => if m.id == medicineId then m.(alarms := Map(m.alarms, SetEnabled(alarmId, enabled))) else m
  }

  /** The stored list after the switch. */
  function ToggleInMedicines(meds: seq<Medicine>, medicineId: string, alarmId: string, enabled: bool): (r: seq<Medicine>)
    ensures |r| == |meds|
    ensures forall i | 0 <= i < |r| :: r[i].id == meds[i].id && |r[i].alarms| == |meds[i].alarms|
  {
    Map(meds, ToggleMedicine(medicineId, alarmId, enabled))
  }

  /** The callback of the `map` over the list on screen. */
  function ToggleEntry(medicineId: string, alarmId: string, enabled: bool): AlarmEntry -> AlarmEntry {
    (e: AlarmEntry) =>
      if e.medicineId == medicineId && e.alarm.id == alarmId then e.(alarm := e.alarm.(enabled := enabled)) else e
  }

  /** The list on screen after the switch. */
  function ToggleInView(entries: seq<AlarmEntry>, medicineId: string, alarmId: string, enabled: bool): (r: seq<AlarmEntry>)
    ensures |r| == |entries|
    ensures forall k | 0 <= k < |r| :: r[k].alarm.time == entries[k].alarm.time && r[k].medicineId == entries[k].medicineId
  {
    Map(entries, ToggleEntry(medicineId, alarmId, enabled))
  }

  /** Only the flag of the matching alarms changes: every medicine keeps its
      position and every field but its alarms, every alarm keeps its
      position and every field but `enabled`, and `enabled` becomes the new
      value exactly on the alarms with `alarmId` inside the medicines with
      `medicineId`. */
  lemma ToggleChangesOnlyMatches(meds: seq<Medicine>, medicineId: string, alarmId: string, enabled: bool)
    ensures var r := ToggleInMedicines(meds, medicineId, alarmId, enabled);
      && |r| == |meds|
      && (forall i | 0 <= i < |meds| :: r[i] == meds[i].(alarms := r[i].alarms) && |r[i].alarms| == |meds[i].alarms|)
      && (forall i, j | 0 <= i < |meds| && 0 <= j < |meds[i].alarms| ::
            && r[i].alarms[j] == meds[i].alarms[j].(enabled := r[i].alarms[j].enabled)
            && r[i].alarms[j].enabled ==
                 if meds[i].id == medicineId && meds[i].alarms[j].id == alarmId then enabled else meds[i].alarms[j].enabled)
  {
  }

  /** With no medicine `medicineId` holding an alarm `alarmId`, the rewritten
      list is the list as it was. */
  lemma ToggleUnknownIsIdentity(meds: seq<Medicine>, medicineId: string, alarmId: string, enabled: bool)
    requires forall i, j | 0 <= i < |meds| && 0 <= j < |meds[i].alarms| ::
      meds[i].id != medicineId || meds[i].alarms[j].id != alarmId
    ensures ToggleInMedicines(meds, medicineId, alarmId, enabled) == meds
  {
    var r := ToggleInMedicines(meds, medicineId, alarmId, enabled);
    forall i | 0 <= i < |meds| ensures r[i] == meds[i] {
      if meds[i].id == medicineId {
        assert r[i].alarms == meds[i].alarms;
      }
    }
  }

  /** Switching twice to the same value is switching once; the later of two
      switches of the same alarm wins. */
  lemma ToggleTwice(meds: seq<Medicine>, medicineId: string, alarmId: string, first: bool, second: bool)
    ensures ToggleInMedicines(ToggleInMedicines(meds, medicineId, alarmId, first), medicineId, alarmId, second) ==
      ToggleInMedicines(meds, medicineId, alarmId, second)
  {
    var once := ToggleInMedicines(meds, medicineId, alarmId, first);
    var twice := ToggleInMedicines(once, medicineId, alarmId, second);
    var direct := ToggleInMedicines(meds, medicineId, alarmId, second);
    forall i | 0 <= i < |meds| ensures twice[i] == direct[i] {
      if meds[i].id == medicineId {
        assert twice[i].alarms == direct[i].alarms;
      }
    }
  }

  /** The list on screen changes exactly at the entries matching both ids,
      and there only in the flag. */
  lemma ViewToggleChangesOnlyMatches(entries: seq<AlarmEntry>, medicineId: string, alarmId: string, enabled: bool, k: nat)
    requires k < |entries|
    ensures var r := ToggleInView(entries, medicineId, alarmId, enabled);
      && |r| == |entries|
      && r[k] == entries[k].(alarm := entries[k].alarm.(enabled := r[k].alarm.enabled))
      && r[k].alarm.enabled ==
           if entries[k].medicineId == medicineId && entries[k].alarm.id == alarmId then enabled else entries[k].alarm.enabled
  {
  }

  /** Switching in the store and re-flattening gives the flattened list with
      the switch applied to it. */
  lemma {:induction false} EntriesAfterToggle(meds: seq<Medicine>, medicineId: string, alarmId: string, enabled: bool)
    ensures Entries(ToggleInMedicines(meds, medicineId, alarmId, enabled)) ==
      ToggleInView(Entries(meds), medicineId, alarmId, enabled)
    decreases |meds|
  {
    if meds != [] {
      var n := |meds| - 1;
      var f := ToggleMedicine(medicineId, alarmId, enabled);
      var g := ToggleEntry(medicineId, alarmId, enabled);
      var toggled := ToggleInMedicines(meds, medicineId, alarmId, enabled);
      var last, newLast := meds[n], toggled[n];
      EntriesAfterToggle(meds[..n], medicineId, alarmId, enabled);
      assert toggled[..n] == ToggleInMedicines(meds[..n], medicineId, alarmId, enabled);
      MapConcat(Pairs(toggled[..n]), PairsOf(newLast, newLast.alarms), EntryOf);
      MapConcat(Pairs(meds[..n]), PairsOf(last, last.alarms), EntryOf);
      var lastBlock := Map(PairsOf(last, last.alarms), EntryOf);
      MapConcat(Map(Pairs(meds[..n]), EntryOf), lastBlock, g);
      BlockAfterToggle(last, medicineId, alarmId, enabled);
    }
  }

  /** The entries of one switched medicine are its entries, switched. */
  lemma BlockAfterToggle(m: Medicine, medicineId: string, alarmId: string, enabled: bool)
    ensures var t := ToggleMedicine(medicineId, alarmId, enabled)(m);
      Map(PairsOf(t, t.alarms), EntryOf) ==
      Map(Map(PairsOf(m, m.alarms), EntryOf), ToggleEntry(medicineId, alarmId, enabled))
  {
    var t := ToggleMedicine(medicineId, alarmId, enabled)(m);
    var a := Map(PairsOf(t, t.alarms), EntryOf);
    var b := Map(Map(PairsOf(m, m.alarms), EntryOf), ToggleEntry(medicineId, alarmId, enabled));
    assert |a| == |b|;
    forall k | 0 <= k < |a| ensures a[k] == b[k] {
      assert a[k] == EntryOf(Pair(t, t.alarms[k]));
      assert b[k] == ToggleEntry(medicineId, alarmId, enabled)(EntryOf(Pair(m, m.alarms[k])));
    }
  }

  /** When the list on screen is the sorted flattening of the store, it still
      is after a switch: the page's two updates agree. */
  lemma ViewStaysInSync(meds: seq<Medicine>, medicineId: string, alarmId: string, enabled: bool)
    ensures ToggleInView(SortByTime(Entries(meds)), medicineId, alarmId, enabled) ==
      SortByTime(Entries(ToggleInMedicines(meds, medicineId, alarmId, enabled)))
  {
    EntriesAfterToggle(meds, medicineId, alarmId, enabled);
    SortMapCommute(Entries(meds), ToggleEntry(medicineId, alarmId, enabled));
  }

  // ---------------------------------------------------------------------
  // Schedule text
  // ---------------------------------------------------------------------

  /** `getAlarmSchedule(item)`; `days?.join(", ") || "Every day"`. */
  function AlarmSchedule(item: AlarmEntry): (r: string)
    ensures r != ""
    ensures item.kind == OneTime ==> r == "One time only"
    ensures item.kind == Course ==> r == "During course"
  {
    match item.kind
    case OneTime => "One time only"
    case Regular =>
      var days := match item.alarm.days case None => "" case Some(ds) => Join(ds, ", ");
      if days == "" then "Every day" else days
    case Course => "During course"
  }

  /** A regular alarm's text lists its days, or says "Every day" when it has
      none, an empty list or a single empty name (the joined text is then
      empty, hence falsy); and it agrees with the medicine summary of
      src/utils/formatters.ts for the first alarm. */
  lemma AlarmScheduleOfRegular(m: Medicine, renderDate: string -> string)
    requires m.kind == Regular && |m.alarms| > 0
    ensures var e := EntryOf(Pair(m, m.alarms[0]));
      var days := m.alarms[0].days;
      && (days.None? || days == Some([]) || days == Some([""]) ==>
            AlarmSchedule(e) == "Every day" && FormatMedicineSchedule(m, renderDate) == m.alarms[0].time + " on every day")
      && (days.Some? && days.value != [] && days.value != [""] ==>
            AlarmSchedule(e) == Join(days.value, ", ") &&
            FormatMedicineSchedule(m, renderDate) == m.alarms[0].time + " on " + AlarmSchedule(e))
  {
    if m.alarms[0].days.Some? {
      JoinIsEmptyIff(m.alarms[0].days.value, ", ");
    }
  }

  // ---------------------------------------------------------------------
  // The page
  // ---------------------------------------------------------------------

  class AlarmsView {
    /** The `alarms` state: the list on screen. */
    var alarms: seq<AlarmEntry>

    constructor ()
      ensures alarms == []
    {
      alarms := [];
    }

    /** `loadAlarms()`: with a stored list, show its sorted flattening;
        without one, keep what is shown. */
    method LoadAlarms(storage: LocalStorage)
      modifies this
      ensures storage.GetItem(PagesKey).None? ==> alarms == old(alarms)
      ensures storage.GetItem(PagesKey).Some? ==> alarms == SortByTime(Entries(storage.GetItem(PagesKey).value))
    {
      var saved := storage.GetItem(PagesKey);
      if saved.Some? {
        var extracted := ExtractAlarms(saved.value);
        alarms := SortByTime(extracted);
      }
    }

    /** `toggleAlarmStatus(medicineId, alarmId, enabled)`: with a stored list,
        write the switched list back and switch the entry on screen; without
        one, change nothing. */
    method ToggleAlarmStatus(storage: LocalStorage, medicineId: string, alarmId: string, enabled: bool)
      modifies this, storage
      ensures old(storage.GetItem(PagesKey)).None? ==> storage.items == old(storage.items) && alarms == old(alarms)
      ensures old(storage.GetItem(PagesKey)).Some? ==>
        && storage.items == old(storage.items)[PagesKey := ToggleInMedicines(old(storage.items[PagesKey]), medicineId, alarmId, enabled)]
        && alarms == ToggleInView(old(alarms), medicineId, alarmId, enabled)
    {
      var saved := storage.GetItem(PagesKey);
      if saved.Some? {
        var updated := ToggleInMedicines(saved.value, medicineId, alarmId, enabled);
        storage.SetItem(PagesKey, updated);
        alarms := ToggleInView(alarms, medicineId, alarmId, enabled);
      }
    }
  }
}
