/** One tick of the automatic-notification timer
    (src/hooks/useAutomaticNotifications.ts). The clock and the weekday are
    parameters; opening the chat link becomes an element of the returned
    dispatch list. A tick keeps nothing between calls. */
module Notifications {
  import opened Wrappers
  import opened Text
  import opened Seqs
  import opened MedicineTypes
  import opened Storage

  /** The current time as the hook writes it: hours and minutes, each
      `toString().padStart(2, '0')`, joined by ':'. */
  function CurrentTime(hours: nat, minutes: nat): (r: string)
    ensures hours < 100 && minutes < 100 ==> |r| == 5 && r[2] == ':'
  {
    TwoDigits(hours) + ":" + TwoDigits(minutes)
  }

  /** For a time of day the text is "HH:MM": five characters, a colon in the
      middle, and two-digit fields that read back as the hour and the
      minute. */
  lemma CurrentTimeShape(hours: nat, minutes: nat)
    requires hours < 24 && minutes < 60
    ensures var t := CurrentTime(hours, minutes);
      && |t| == 5 && t[2] == ':'
      && t[..2] == TwoDigits(hours) && t[3..] == TwoDigits(minutes)
      && AllDigits(t[..2]) && DigitsValue(t[..2]) == hours
      && AllDigits(t[3..]) && DigitsValue(t[3..]) == minutes
  {
    TwoDigitsRoundTrip(hours);
    TwoDigitsRoundTrip(minutes);
    var t := CurrentTime(hours, minutes);
    assert t[..2] == TwoDigits(hours);
    assert t[3..] == TwoDigits(minutes);
  }

  /** Different times of day give different texts, so string equality with
      the current time is equality of hour and minute. */
  lemma CurrentTimeInjective(h1: nat, m1: nat, h2: nat, m2: nat)
    requires h1 < 24 && m1 < 60 && h2 < 24 && m2 < 60
    requires CurrentTime(h1, m1) == CurrentTime(h2, m2)
    ensures h1 == h2 && m1 == m2
  {
    CurrentTimeShape(h1, m1);
    CurrentTimeShape(h2, m2);
  }

  /** `medicine.whatsappNumber` is truthy: present and not empty. */
  predicate HasNumber(m: Medicine) {
    m.whatsappNumber.Some? && m.whatsappNumber.value != ""
  }

  /** The weekday test: only a regular medicine's alarm that has a day list
      is restricted, and then to the listed days (an empty list is truthy,
      so it blocks every day). */
  predicate ScheduledToday(m: Medicine, a: Alarm, currentDay: string) {
    !(m.kind == Regular && a.days.Some? && currentDay !in a.days.value)
  }

  /** The pair produces a message on this tick. */
  predicate Fires(p: Pair, currentTime: string, currentDay: string) {
    && HasNumber(p.medicine)
    && p.alarm.enabled
    && ScheduledToday(p.medicine, p.alarm, currentDay)
    && p.alarm.time == currentTime
  }

  function FiresAt(currentTime: string, currentDay: string): Pair -> bool {
    (p: Pair) => Fires(p, currentTime, currentDay)
  }

  /** A message to send: the destination number and the text. */
  datatype Dispatch = Dispatch(number: string, message: string)

  function ReminderText(m: Medicine): string {
    "Time to take your medicine: " + m.name + " - " + m.dosage
  }

  function DispatchFor(p: Pair): Dispatch {
    Dispatch(p.medicine.whatsappNumber.GetOr(""), ReminderText(p.medicine))
  }

  /** What a tick sends: the firing (medicine, alarm) pairs in medicine
      order, then alarm order, each turned into its message. */
  function Dispatches(meds: seq<Medicine>, currentTime: string, currentDay: string): (r: seq<Dispatch>)
    ensures |r| <= AlarmCount(meds)
  {
    PairsLength(meds);
    Map(Filter(Pairs(meds), FiresAt(currentTime, currentDay)), DispatchFor)
  }

  /** The interval callback: read the pages' list and visit every medicine,
      collecting the messages each one sends. */
  method Tick(storage: LocalStorage, hours: nat, minutes: nat, currentDay: string) returns (sent: seq<Dispatch>)
    ensures storage.GetItem(PagesKey).None? ==> sent == []
    ensures storage.GetItem(PagesKey).Some? ==>
      sent == Dispatches(storage.GetItem(PagesKey).value, CurrentTime(hours, minutes), currentDay)
  {
    var currentTime := CurrentTime(hours, minutes);
    sent := [];
    var saved := storage.GetItem(PagesKey);
    if saved.None? {
      return;
    }
    var medicines := saved.value;
    var i := 0;
    while i < |medicines|
      invariant 0 <= i <= |medicines|
      invariant sent == Dispatches(medicines[..i], currentTime, currentDay)
    {
      var out := CheckMedicine(medicines[i], currentTime, currentDay);
      MedicineStep(medicines, i, currentTime, currentDay);
      sent := sent + out;
      i := i + 1;
    }
    assert medicines[..i] == medicines;
  }

  /** The per-medicine callback: nothing without a number; otherwise every
      alarm that is enabled, scheduled for today and set to the current
      time sends the reminder. */
  method CheckMedicine(medicine: Medicine, currentTime: string, currentDay: string) returns (sent: seq<Dispatch>)
    ensures sent == Map(Filter(PairsOf(medicine, medicine.alarms), FiresAt(currentTime, currentDay)), DispatchFor)
  {
    sent := [];
    if !HasNumber(medicine) {
      NoNumberNoFire(medicine, medicine.alarms, currentTime, currentDay);
      return;
    }
    var j := 0;
    while j < |medicine.alarms|
      invariant 0 <= j <= |medicine.alarms|
      invariant sent == Map(Filter(PairsOf(medicine, medicine.alarms[..j]), FiresAt(currentTime, currentDay)), DispatchFor)
    {
      var alarm := medicine.alarms[j];
      AlarmStep(medicine, medicine.alarms, j, currentTime, currentDay);
      if !alarm.enabled {
      } else if medicine.kind == Regular && alarm.days.Some? && currentDay !in alarm.days.value {
      } else if alarm.time == currentTime {
        sent := sent + [Dispatch(medicine.whatsappNumber.value, ReminderText(medicine))];
      }
      j := j + 1;
    }
    assert medicine.alarms[..j] == medicine.alarms;
  }

  /** The pairs of one more alarm add that alarm's message if it fires. */
  lemma AlarmStep(m: Medicine, alarms: seq<Alarm>, j: nat, currentTime: string, currentDay: string)
    requires j < |alarms|
    ensures var fires := FiresAt(currentTime, currentDay);
      Map(Filter(PairsOf(m, alarms[..j + 1]), fires), DispatchFor) ==
      Map(Filter(PairsOf(m, alarms[..j]), fires), DispatchFor) +
      (if Fires(Pair(m, alarms[j]), currentTime, currentDay) then [DispatchFor(Pair(m, alarms[j]))] else [])
  {
    var fires := FiresAt(currentTime, currentDay);
    assert PairsOf(m, alarms[..j + 1]) == PairsOf(m, alarms[..j]) + [Pair(m, alarms[j])];
    FilterConcat(PairsOf(m, alarms[..j]), [Pair(m, alarms[j])], fires);
    MapConcat(Filter(PairsOf(m, alarms[..j]), fires), Filter([Pair(m, alarms[j])], fires), DispatchFor);
  }

  /** One more medicine adds the messages of its own alarms. */
  lemma MedicineStep(meds: seq<Medicine>, i: nat, currentTime: string, currentDay: string)
    requires i < |meds|
    ensures Dispatches(meds[..i + 1], currentTime, currentDay) ==
      Dispatches(meds[..i], currentTime, currentDay) +
      Map(Filter(PairsOf(meds[i], meds[i].alarms), FiresAt(currentTime, currentDay)), DispatchFor)
  {
    var fires := FiresAt(currentTime, currentDay);
    assert meds[..i + 1][..i] == meds[..i];
    assert Pairs(meds[..i + 1]) == Pairs(meds[..i]) + PairsOf(meds[i], meds[i].alarms);
    FilterConcat(Pairs(meds[..i]), PairsOf(meds[i], meds[i].alarms), fires);
    MapConcat(Filter(Pairs(meds[..i]), fires), Filter(PairsOf(meds[i], meds[i].alarms), fires), DispatchFor);
  }

  /** A medicine without a number contributes no message. */
  lemma NoNumberNoFire(m: Medicine, alarms: seq<Alarm>, currentTime: string, currentDay: string)
    requires !HasNumber(m)
    ensures Filter(PairsOf(m, alarms), FiresAt(currentTime, currentDay)) == []
  {
    forall p | p in PairsOf(m, alarms) ensures !FiresAt(currentTime, currentDay)(p) {
      var k :| 0 <= k < |alarms| && PairsOf(m, alarms)[k] == p;
    }
    FilterNone(PairsOf(m, alarms), FiresAt(currentTime, currentDay));
  }

  /** Alarm (i, j) is due on this tick. */
  predicate DueAt(meds: seq<Medicine>, i: nat, j: nat, currentTime: string, currentDay: string) {
    i < |meds| && j < |meds[i].alarms| && Fires(Pair(meds[i], meds[i].alarms[j]), currentTime, currentDay)
  }

  /** A message is sent exactly when some alarm of some medicine is due, and
      it is that medicine's reminder to that medicine's number. */
  lemma DispatchesCharacterized(meds: seq<Medicine>, currentTime: string, currentDay: string, d: Dispatch)
    ensures d in Dispatches(meds, currentTime, currentDay) <==>
      exists i: nat, j: nat :: DueAt(meds, i, j, currentTime, currentDay) && d == DispatchFor(Pair(meds[i], meds[i].alarms[j]))
  {
    var fired := Filter(Pairs(meds), FiresAt(currentTime, currentDay));
    FilterMembers(Pairs(meds), FiresAt(currentTime, currentDay));
    if d in Dispatches(meds, currentTime, currentDay) {
      var k :| 0 <= k < |fired| && DispatchFor(fired[k]) == d;
      var p := fired[k];
      assert p in fired;
      PairsMembership(meds, p);
      var i: nat, j: nat :| PairAt(meds, i, j, p);
      assert DueAt(meds, i, j, currentTime, currentDay);
    }
    if exists i: nat, j: nat :: DueAt(meds, i, j, currentTime, currentDay) && d == DispatchFor(Pair(meds[i], meds[i].alarms[j])) {
      var i: nat, j: nat :| DueAt(meds, i, j, currentTime, currentDay) && d == DispatchFor(Pair(meds[i], meds[i].alarms[j]));
      var p := Pair(meds[i], meds[i].alarms[j]);
      PairsMembership(meds, p);
      assert PairAt(meds, i, j, p);
      assert p in fired;
      var k :| 0 <= k < |fired| && fired[k] == p;
      assert Dispatches(meds, currentTime, currentDay)[k] == d;
    }
  }

  /** The alarm is due on this tick, as a test on positions. */
  function IsDue(meds: seq<Medicine>, currentTime: string, currentDay: string): ((nat, nat)) -> bool {
    (ij: (nat, nat)) => DueAt(meds, ij.0, ij.1, currentTime, currentDay)
  }

  /** The positions of the due alarms, in the order the tick visits them. */
  function DueAlarms(meds: seq<Medicine>, currentTime: string, currentDay: string): seq<(nat, nat)> {
    Filter(Positions(meds), IsDue(meds, currentTime, currentDay))
  }

  /** A tick sends one message per due alarm and no other: the k-th message
      is the reminder of the k-th due alarm, and each alarm's position
      occurs once among the due ones when it is due and never otherwise. */
  lemma AtMostOnePerAlarm(meds: seq<Medicine>, currentTime: string, currentDay: string)
    ensures var sent := Dispatches(meds, currentTime, currentDay);
      var due := DueAlarms(meds, currentTime, currentDay);
      && |sent| == |due|
      && (forall k | 0 <= k < |due| ::
            && DueAt(meds, due[k].0, due[k].1, currentTime, currentDay)
            && sent[k] == DispatchFor(Pair(meds[due[k].0], meds[due[k].0].alarms[due[k].1])))
      && (forall i: nat, j: nat :: multiset(due)[(i, j)] == if DueAt(meds, i, j, currentTime, currentDay) then 1 else 0)
  {
    var fires, isDue := FiresAt(currentTime, currentDay), IsDue(meds, currentTime, currentDay);
    var ps, qs := Pairs(meds), Positions(meds);
    PositionsMatchPairs(meds);
    forall k | 0 <= k < |ps| ensures fires(ps[k]) == isDue(qs[k]) {
      assert PairAt(meds, qs[k].0, qs[k].1, ps[k]);
    }
    FilterAligned(ps, qs, fires, isDue);
    var fired, due := Filter(ps, fires), DueAlarms(meds, currentTime, currentDay);
    var sent := Dispatches(meds, currentTime, currentDay);
    FilterMembers(qs, isDue);
    forall k | 0 <= k < |due|
      ensures DueAt(meds, due[k].0, due[k].1, currentTime, currentDay)
      ensures sent[k] == DispatchFor(Pair(meds[due[k].0], meds[due[k].0].alarms[due[k].1]))
    {
      assert due[k] in due;
      var m :| 0 <= m < |ps| && fired[k] == ps[m] && due[k] == qs[m];
      assert PairAt(meds, qs[m].0, qs[m].1, ps[m]);
      assert sent[k] == DispatchFor(fired[k]);
    }
    forall i: nat, j: nat ensures multiset(due)[(i, j)] == if DueAt(meds, i, j, currentTime, currentDay) then 1 else 0 {
      FilterCounts(qs, isDue, (i, j));
      PositionsCount(meds, (i, j));
    }
  }

  /** The messages of two lists one after the other are the messages of
      the first list followed by those of the second. */
  lemma DispatchesConcat(a: seq<Medicine>, b: seq<Medicine>, currentTime: string, currentDay: string)
    ensures Dispatches(a + b, currentTime, currentDay) ==
      Dispatches(a, currentTime, currentDay) + Dispatches(b, currentTime, currentDay)
  {
    var fires := FiresAt(currentTime, currentDay);
    PairsConcat(a, b);
    FilterConcat(Pairs(a), Pairs(b), fires);
    MapConcat(Filter(Pairs(a), fires), Filter(Pairs(b), fires), DispatchFor);
  }

  /** A medicine without a number never sends, whatever its alarms: removing
      it from anywhere in the list leaves the tick's messages as they were. */
  lemma NumberlessMedicineIsSilent(a: seq<Medicine>, m: Medicine, b: seq<Medicine>, currentTime: string, currentDay: string)
    requires !HasNumber(m)
    ensures Dispatches(a + [m] + b, currentTime, currentDay) == Dispatches(a + b, currentTime, currentDay)
  {
    DispatchesConcat(a + [m], b, currentTime, currentDay);
    DispatchesConcat(a, [m], currentTime, currentDay);
    DispatchesConcat(a, b, currentTime, currentDay);
    assert Pairs([m]) == PairsOf(m, m.alarms) by {
      assert [m][..0] == [];
    }
    NoNumberNoFire(m, m.alarms, currentTime, currentDay);
    assert Dispatches([m], currentTime, currentDay) == [];
  }

  /** The weekday rule: outside regular medicines, or without a day list,
      the weekday plays no part; a regular alarm with a day list fires only
      on a listed day, so an empty list never fires. */
  lemma WeekdayRule(p: Pair, currentTime: string, day: string, otherDay: string)
    ensures p.medicine.kind != Regular || p.alarm.days.None? ==>
      (Fires(p, currentTime, day) <==> Fires(p, currentTime, otherDay))
    ensures p.medicine.kind == Regular && p.alarm.days.Some? && Fires(p, currentTime, day) ==>
      day in p.alarm.days.value
    ensures p.medicine.kind == Regular && p.alarm.days == Some([]) ==> !Fires(p, currentTime, day)
  {
  }
}
