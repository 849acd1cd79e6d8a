/** The records of the application: a medicine with its alarms. The field
    `type` of the source is called `kind` here (`type` is a Dafny keyword). */
module MedicineTypes {
  import opened Wrappers

  /** Exactly three kinds of medicine. */
  datatype MedicineType = OneTime | Regular | Course

  /** `time` is meant to be "HH:MM" (nothing enforces it); `days` is meant
      for regular medicines only. */
  datatype Alarm = Alarm(id: string, time: string, days: Option<seq<string>>, enabled: bool)

  /** `photoUrl`, `startDate`, `endDate` and `whatsappNumber` may be absent;
      every other field is always there. */
  datatype Medicine = Medicine(
    id: string,
    name: string,
    description: string,
    kind: MedicineType,
    alarms: seq<Alarm>,
    photoUrl: Option<string>,
    stock: int,
    startDate: Option<string>,
    endDate: Option<string>,
    dosage: string,
    createdAt: string,
    whatsappNumber: Option<string>)

  /** One (medicine, alarm) pair, as two nested `forEach` loops visit them. */
  datatype Pair = Pair(medicine: Medicine, alarm: Alarm)

  /** The pairs of medicine `m` with each of `alarms`, in order. */
  function PairsOf(m: Medicine, alarms: seq<Alarm>): seq<Pair> {
    seq(|alarms|, k requires 0 <= k < |alarms| => Pair(m, alarms[k]))
  }

  /** All (medicine, alarm) pairs: medicine order first, then alarm order. */
  function Pairs(meds: seq<Medicine>): seq<Pair> {
    if meds == [] then []
    else
      var last := meds[|meds| - 1];
      Pairs(meds[..|meds| - 1]) + PairsOf(last, last.alarms)
  }

  /** The sum of the alarm counts. */
  function AlarmCount(meds: seq<Medicine>): nat {
    if meds == [] then 0 else AlarmCount(meds[..|meds| - 1]) + |meds[|meds| - 1].alarms|
  }

  /** `p` is alarm `j` of medicine `i`. */
  predicate PairAt(meds: seq<Medicine>, i: nat, j: nat, p: Pair) {
    i < |meds| && j < |meds[i].alarms| && p == Pair(meds[i], meds[i].alarms[j])
  }

  /** Alarm `j` of medicine `i` sits at position "alarms of the medicines
      before `i`, plus `j`": every pair appears once, medicine by medicine
      and alarm by alarm, and there are as many pairs as alarms. */
  lemma {:induction false} PairsIndex(meds: seq<Medicine>, i: nat, j: nat)
    requires i < |meds| && j < |meds[i].alarms|
    ensures |Pairs(meds)| == AlarmCount(meds)
    ensures AlarmCount(meds[..i]) + j < |Pairs(meds)|
    ensures Pairs(meds)[AlarmCount(meds[..i]) + j] == Pair(meds[i], meds[i].alarms[j])
    decreases |meds|
  {
    var init := meds[..|meds| - 1];
    PairsLength(init);
    if i == |meds| - 1 {
      assert meds[..i] == init;
    } else {
      assert init[..i] == meds[..i];
      PairsIndex(init, i, j);
    }
  }

  /** There are as many pairs as alarms. */
  lemma {:induction false} PairsLength(meds: seq<Medicine>)
    ensures |Pairs(meds)| == AlarmCount(meds)
    decreases |meds|
  {
    if meds != [] {
      PairsLength(meds[..|meds| - 1]);
    }
  }

  /** The pairs of a concatenation are the pairs of each part. */
  lemma {:induction false} PairsConcat(a: seq<Medicine>, b: seq<Medicine>)
    ensures Pairs(a + b) == Pairs(a) + Pairs(b)
    decreases |b|
  {
    if b == [] {
      assert a + b == a;
    } else {
      var n := |b| - 1;
      var ab := a + b;
      assert ab[..|ab| - 1] == a + b[..n];
      assert ab[|ab| - 1] == b[n];
      PairsConcat(a, b[..n]);
      var tail := PairsOf(b[n], b[n].alarms);
      assert Pairs(ab) == Pairs(a + b[..n]) + tail;
      assert Pairs(b) == Pairs(b[..n]) + tail;
    }
  }

  /** A pair is listed exactly when it is some alarm of some medicine. */
  lemma PairsMembership(meds: seq<Medicine>, p: Pair)
    ensures p in Pairs(meds) <==> exists i: nat, j: nat :: PairAt(meds, i, j, p)
  {
    if p in Pairs(meds) {
      ListedPairHasPosition(meds, p);
    }
    if exists i: nat, j: nat :: PairAt(meds, i, j, p) {
      var i: nat, j: nat :| PairAt(meds, i, j, p);
      PairsIndex(meds, i, j);
    }
  }

  lemma {:induction false} ListedPairHasPosition(meds: seq<Medicine>, p: Pair)
    requires p in Pairs(meds)
    ensures exists i: nat, j: nat :: PairAt(meds, i, j, p)
    decreases |meds|
  {
    var n := |meds| - 1;
    var init, last := meds[..n], meds[n];
    assert Pairs(meds) == Pairs(init) + PairsOf(last, last.alarms);
    if p in Pairs(init) {
      ListedPairHasPosition(init, p);
      var i: nat, j: nat :| PairAt(init, i, j, p);
      assert PairAt(meds, i, j, p);
    } else {
      var k :| 0 <= k < |last.alarms| && PairsOf(last, last.alarms)[k] == p;
      assert PairAt(meds, n, k, p);
    }
  }

  /** The positions (i, j) of alarm j of medicine i, in the order the nested
      loops visit them. */
  function Positions(meds: seq<Medicine>): seq<(nat, nat)> {
    if meds == [] then []
    else
      var n := |meds| - 1;
      Positions(meds[..n]) + Row(n, |meds[n].alarms|)
  }

  /** The positions of the first `count` alarms of medicine `i`. */
  function Row(i: nat, count: nat): seq<(nat, nat)> {
    seq(count, k requires 0 <= k < count => (i, k))
  }

  /** The k-th pair is the alarm at the k-th position. */
  lemma {:induction false} PositionsMatchPairs(meds: seq<Medicine>)
    ensures |Positions(meds)| == |Pairs(meds)|
    ensures forall k | 0 <= k < |Pairs(meds)| ::
      PairAt(meds, Positions(meds)[k].0, Positions(meds)[k].1, Pairs(meds)[k])
    decreases |meds|
  {
    if meds != [] {
      var n := |meds| - 1;
      var init := meds[..n];
      PositionsMatchPairs(init);
      var ps, qs := Pairs(init), Positions(init);
      assert Pairs(meds) == ps + PairsOf(meds[n], meds[n].alarms);
      assert Positions(meds) == qs + Row(n, |meds[n].alarms|);
      forall k | 0 <= k < |Pairs(meds)|
        ensures PairAt(meds, Positions(meds)[k].0, Positions(meds)[k].1, Pairs(meds)[k])
      {
        if k < |ps| {
          assert Pairs(meds)[k] == ps[k] && Positions(meds)[k] == qs[k];
          assert PairAt(init, qs[k].0, qs[k].1, ps[k]);
          assert init[qs[k].0] == meds[qs[k].0];
        } else {
          var j := k - |ps|;
          assert Pairs(meds)[k] == Pair(meds[n], meds[n].alarms[j]);
          assert Positions(meds)[k] == (n, j);
        }
      }
    }
  }

  lemma {:induction false} RowCount(i: nat, count: nat, x: (nat, nat))
    ensures multiset(Row(i, count))[x] == if x.0 == i && x.1 < count then 1 else 0
    decreases count
  {
    if count > 0 {
      RowCount(i, count - 1, x);
      assert Row(i, count) == Row(i, count - 1) + [(i, count - 1)];
    }
  }

  /** Every alarm's position is listed exactly once, and nothing else is. */
  lemma {:induction false} PositionsCount(meds: seq<Medicine>, x: (nat, nat))
    ensures multiset(Positions(meds))[x] == if x.0 < |meds| && x.1 < |meds[x.0].alarms| then 1 else 0
    decreases |meds|
  {
    if meds != [] {
      var n := |meds| - 1;
      PositionsCount(meds[..n], x);
      RowCount(n, |meds[n].alarms|, x);
      if x.0 < n {
        assert meds[..n][x.0] == meds[x.0];
      }
    }
  }
}
