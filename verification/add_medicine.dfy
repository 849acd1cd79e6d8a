/** The form that adds a medicine (src/pages/AddMedicine.tsx): the weekday
    picker and the submission that validates the form, builds the new record
    and appends it to the pages' list. The two fresh ids and the creation
    timestamp are parameters. */
module AddMedicinePage {
  import opened Wrappers
  import opened Text
  import opened Seqs
  import opened MedicineTypes
  import opened Storage
  import opened Notifications

  /** `daysOfWeek`: the names a regular alarm gets when no day is picked. */
  const DaysOfWeek: seq<string> := ["Monday", "Tuesday", "Wednesday", "Thursday", "Friday", "Saturday", "Sunday"]

  // ---------------------------------------------------------------------
  // The weekday picker
  // ---------------------------------------------------------------------

  function DayIsNot(day: string): string -> bool {
    (d: string) => d != day
  }

  /** `handleDayToggle(day)`: a picked day is removed (every copy of it), an
      unpicked one is appended. */
  function ToggleDay(days: seq<string>, day: string): (r: seq<string>)
    ensures day in r <==> day !in days
  {
    FilterMembers(days, DayIsNot(day));
    if day in days then Filter(days, DayIsNot(day)) else days + [day]
  }

  /** After the toggle, `day` is picked exactly when it was not, and every
      other day is as it was. */
  lemma ToggleDayFlipsOnlyThatDay(days: seq<string>, day: string, d: string)
    ensures d in ToggleDay(days, day) <==> if d == day then day !in days else d in days
  {
    FilterMembers(days, DayIsNot(day));
  }

  /** What the toggle does to the list: an unpicked day is appended after
      the picked ones, which stay as they were; a picked day is removed
      everywhere, and every other day keeps its order and its count. */
  lemma ToggleDayEffect(days: seq<string>, day: string)
    ensures var r := ToggleDay(days, day);
      day !in days ==> |r| == |days| + 1 && r[..|days|] == days && r[|days|] == day
    ensures var r := ToggleDay(days, day);
      day in days ==> IsSubsequence(r, days) && forall x :: multiset(r)[x] == if x == day then 0 else multiset(days)[x]
  {
    if day in days {
      FilterIsSubsequence(days, DayIsNot(day));
      forall x ensures multiset(ToggleDay(days, day))[x] == if x == day then 0 else multiset(days)[x] {
        FilterCounts(days, DayIsNot(day), x);
      }
    }
  }

  /** Each name occurs at most once. */
  ghost predicate NoDuplicates(s: seq<string>) {
    forall x :: multiset(s)[x] <= 1
  }

  /** A picker without repeated days stays without them. */
  lemma ToggleDayKeepsNoDuplicates(days: seq<string>, day: string)
    requires NoDuplicates(days)
    ensures NoDuplicates(ToggleDay(days, day))
  {
    var r := ToggleDay(days, day);
    forall x ensures multiset(r)[x] <= 1 {
      if day in days {
        FilterCounts(days, DayIsNot(day), x);
      } else {
        assert multiset(r) == multiset(days) + multiset{day};
      }
    }
  }

  /** Toggling a day twice: an unpicked day leaves the list as it was; a
      picked one ends up removed from its place and put back at the end. */
  lemma ToggleDayTwice(days: seq<string>, day: string)
    ensures day !in days ==> ToggleDay(ToggleDay(days, day), day) == days
    ensures day in days ==> ToggleDay(ToggleDay(days, day), day) == Filter(days, DayIsNot(day)) + [day]
  {
    var other := DayIsNot(day);
    if day !in days {
      var once := days + [day];
      assert once[|days|] == day;
      assert ToggleDay(once, day) == Filter(once, other);
      FilterConcat(days, [day], other);
      FilterKeepsAll(days, other);
      assert Filter([day], other) == [];
      assert days + [] == days;
    } else {
      FilterMembers(days, other);
      assert day !in Filter(days, other);
    }
  }

  // ---------------------------------------------------------------------
  // Submission
  // ---------------------------------------------------------------------

  /** The form state at submission. The dates are the raw input text, empty
      when not entered. */
  datatype MedicineForm = MedicineForm(
    name: string,
    description: string,
    kind: MedicineType,
    time: string,
    days: seq<string>,
    startDate: string,
    endDate: string,
    dosage: string,
    stock: int,
    photoUrl: string)

  /** Why a submission is refused. */
  datatype SubmitError = NameRequired | CourseDatesRequired

  /** The days of the new alarm: a regular medicine's picked days, or the
      whole week when none is picked; no list for the other kinds. */
  function AlarmDays(kind: MedicineType, picked: seq<string>): Option<seq<string>> {
    if kind == Regular then Some(if |picked| > 0 then picked else DaysOfWeek) else None
  }

  /** The record a valid form describes, or why the form is refused. */
  function NewMedicine(form: MedicineForm, medicineId: string, alarmId: string, createdAt: string): (r: Result<Medicine, SubmitError>)
    ensures r.Ok? <==> !IsBlank(form.name) && !(form.kind == Course && (form.startDate == "" || form.endDate == ""))
  {
    if IsBlank(form.name) then Err(NameRequired)
    else if form.kind == Course && (form.startDate == "" || form.endDate == "") then Err(CourseDatesRequired)
    else
      var alarm := Alarm(alarmId, form.time, AlarmDays(form.kind, form.days), true);
      var dated := form.kind == Course;
      Ok(Medicine(medicineId, form.name, form.description, form.kind, [alarm], Some(form.photoUrl), form.stock,
                  if dated then Some(form.startDate) else None, if dated then Some(form.endDate) else None,
                  form.dosage, createdAt, None))
  }

  /** What a submission accepts and what it builds. A blank name is refused
      first; then a course without both dates. An accepted form gives a
      record with the untrimmed name, exactly one enabled alarm at the
      entered time, the picked days (or all seven weekdays) for a regular
      medicine and no days otherwise, the entered dates for a course and no
      dates otherwise, the description, dosage, stock, photo and creation
      time as given, and no number to notify. */
  lemma NewMedicineProperties(form: MedicineForm, medicineId: string, alarmId: string, createdAt: string)
    ensures var r := NewMedicine(form, medicineId, alarmId, createdAt);
      && (r == Err(NameRequired) <==> IsBlank(form.name))
      && (r == Err(CourseDatesRequired) <==>
            !IsBlank(form.name) && form.kind == Course && (form.startDate == "" || form.endDate == ""))
      && (r.Ok? ==>
            var m := r.value;
            && m.id == medicineId && m.name == form.name && m.kind == form.kind
            && |m.alarms| == 1 && m.alarms[0].id == alarmId
            && m.alarms[0].enabled && m.alarms[0].time == form.time
            && (form.kind == Regular && |form.days| > 0 ==> m.alarms[0].days == Some(form.days))
            && (form.kind == Regular && |form.days| == 0 ==> m.alarms[0].days == Some(DaysOfWeek))
            && (form.kind != Regular ==> m.alarms[0].days.None?)
            && (form.kind == Course ==> m.startDate == Some(form.startDate) && m.endDate == Some(form.endDate))
            && (form.kind != Course ==> m.startDate.None? && m.endDate.None?)
            && m.description == form.description && m.dosage == form.dosage && m.stock == form.stock
            && m.photoUrl == Some(form.photoUrl) && m.createdAt == createdAt
            && m.whatsappNumber.None?)
  {
  }

  /** A medicine added through the form never sends a reminder: the
      notification tick sends exactly what it sent before the addition. */
  lemma AddedMedicineIsSilent(meds: seq<Medicine>, form: MedicineForm, medicineId: string, alarmId: string, createdAt: string,
                              currentTime: string, currentDay: string)
    requires NewMedicine(form, medicineId, alarmId, createdAt).Ok?
    ensures var m := NewMedicine(form, medicineId, alarmId, createdAt).value;
      Dispatches(meds + [m], currentTime, currentDay) == Dispatches(meds, currentTime, currentDay)
  {
    var m := NewMedicine(form, medicineId, alarmId, createdAt).value;
    NumberlessMedicineIsSilent(meds, m, [], currentTime, currentDay);
    assert meds + [m] + [] == meds + [m];
    assert meds + [] == meds;
  }

  /** `handleSubmit()`: refuse a blank name; build the alarm and the record,
      giving a regular alarm its days and a course its dates (refusing a
      course without both); then append the record to the pages' list,
      which starts empty when nothing is stored. A refused form writes
      nothing. */
  method HandleSubmit(storage: LocalStorage, form: MedicineForm, medicineId: string, alarmId: string, createdAt: string)
    returns (result: Result<Medicine, SubmitError>)
    modifies storage
    ensures result == NewMedicine(form, medicineId, alarmId, createdAt)
    ensures result.Err? ==> storage.items == old(storage.items)
    ensures result.Ok? ==>
      storage.items == old(storage.items)[PagesKey := Load(old(storage.items), PagesKey) + [result.value]]
  {
    // `name.trim()` is empty exactly when the name is blank.
    if IsBlank(form.name) {
      return Err(NameRequired);
    }
    var alarm := Alarm(alarmId, form.time, None, true);
    if form.kind == Regular {
      alarm := alarm.(days := Some(if |form.days| > 0 then form.days else DaysOfWeek));
    }
    var newMedicine := Medicine(medicineId, form.name, form.description, form.kind, [alarm], Some(form.photoUrl),
                                form.stock, None, None, form.dosage, createdAt, None);
    if form.kind == Course {
      if form.startDate == "" || form.endDate == "" {
        return Err(CourseDatesRequired);
      }
      newMedicine := newMedicine.(startDate := Some(form.startDate), endDate := Some(form.endDate));
    }
    var existing := storage.GetItem(PagesKey);
    var medicines := if existing.Some? then existing.value else [];
    medicines := medicines + [newMedicine];
    storage.SetItem(PagesKey, medicines);
    result := Ok(newMedicine);
  }
}
