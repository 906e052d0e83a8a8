/** Open addressing with linear probing, as the hot-stat builder fills its two tables
    (crates/vrift-ipc/src/lib.rs, `ManifestMmapBuilder::write_to_file`, steps 6 and 7). Hash 0 marks
    a free slot. */
module ProbeTable {
  import opened Bytes

  datatype Slot = Slot(hash: nat, body: Bytes) {
    predicate IsFree() {
      hash == 0
    }
  }

  function Home(cap: nat, h: nat): (s: nat)
    requires cap > 0
    ensures s < cap
  {
    h % cap
  }

  /** The `k`-th slot of the probe path of `h`, wrapping once. */
  function SlotAt(cap: nat, h: nat, k: nat): (s: nat)
    requires k < cap
    ensures s < cap
  {
    var s := Home(cap, h) + k;
    if s < cap then s else s - cap
  }

  lemma {:induction false} SlotAtIsModular(cap: nat, h: nat, k: nat)
    requires k < cap
    ensures SlotAt(cap, h, k) == (h % cap + k) % cap
  {
    var s := Home(cap, h) + k;
    if s >= cap {
      ModOfWrapped(s, cap);
    } else {
      ModOfSmall(s, cap);
    }
  }

  lemma {:induction false} ModOfSmall(s: nat, cap: nat)
    requires s < cap
    ensures s % cap == s
  {
  }

  lemma {:induction false} ModOfWrapped(s: nat, cap: nat)
    requires 0 < cap <= s < 2 * cap
    ensures s % cap == s - cap
  {
    var q := s / cap;
    assert s == q * cap + s % cap;
    assert q >= 2 ==> q * cap >= 2 * cap;
    assert q <= 0 ==> q * cap <= 0;
  }

  // ---------------------------------------------------------------- the writer

  /** The first free slot on the probe path of `h`, from distance `k` on. */
  function Probe(t: seq<Slot>, h: nat, k: nat): (r: Option<nat>)
    requires |t| > 0
    ensures r.Some? ==> r.value < |t| && t[r.value].IsFree()
    decreases |t| - k
  {
    if k >= |t| then None
    else if t[SlotAt(|t|, h, k)].IsFree() then Some(SlotAt(|t|, h, k))
    else Probe(t, h, k + 1)
  }

  /** A filled table, with the slot recorded for each record: 0 if none was free. */
  datatype Filled = Filled(table: seq<Slot>, slots: seq<nat>)

  /** Adds one record, dropping it when no slot is free. */
  function Put(t: seq<Slot>, r: Slot): (t': seq<Slot>)
    requires |t| > 0
    ensures |t'| == |t|
  {
    match Probe(t, r.hash, 0)
    case None => t
    case Some(s) => t[s := r]
  }

  /** The slot recorded for a record about to be added. */
  function PutSlot(t: seq<Slot>, r: Slot): nat
    requires |t| > 0
  {
    match Probe(t, r.hash, 0)
    case None => 0
    case Some(s) => s
  }

  /** Adds the first `n` records in order. */
  function Fill(t: seq<Slot>, rs: seq<Slot>, n: nat): (f: Filled)
    requires |t| > 0 && n <= |rs|
    ensures |f.table| == |t| && |f.slots| == n
  {
    if n == 0 then Filled(t, [])
    else
      var f := Fill(t, rs, n - 1);
      Filled(Put(f.table, rs[n - 1]), f.slots + [PutSlot(f.table, rs[n - 1])])
  }

  // ---------------------------------------------------------------- the reader

  /** Linear probe for `h`: stops at the first free slot or at a record with that hash. */
  function Find(t: seq<Slot>, h: nat, k: nat): (r: Option<nat>)
    requires |t| > 0
    ensures r.Some? ==> r.value < |t| && !t[r.value].IsFree() && t[r.value].hash == h
    decreases |t| - k
  {
    if k >= |t| then None
    else
      var s := SlotAt(|t|, h, k);
      if t[s].IsFree() then None
      else if t[s].hash == h then Some(s)
      else Find(t, h, k + 1)
  }

  // ---------------------------------------------------------------- counting slots

  ghost function Below(n: nat): (r: set<nat>)
    ensures |r| == n && forall s :: s in r <==> 0 <= s < n
  {
    if n == 0 then {} else Below(n - 1) + {n - 1}
  }

  ghost predicate Distinct(slots: seq<nat>) {
    forall i, j :: 0 <= i < j < |slots| ==> slots[i] != slots[j]
  }

  ghost function Elements(slots: seq<nat>): (r: set<nat>)
    requires Distinct(slots)
    ensures |r| == |slots| && forall s :: s in r <==> s in slots
  {
    if slots == [] then {}
    else
      var front, last := slots[..|slots| - 1], slots[|slots| - 1];
      assert slots == front + [last] && last !in front;
      Elements(front) + {last}
  }

  /** Fewer distinct slots than the capacity leave one out. */
  lemma {:induction false} SlotLeftOut(cap: nat, slots: seq<nat>) returns (x: nat)
    requires Distinct(slots) && |slots| < cap
    ensures x < cap && x !in slots
  {
    assert |Below(cap) - Elements(slots)| > 0;
    x :| x in Below(cap) - Elements(slots);
  }

  /** As many distinct slots as the capacity take every one. */
  lemma {:induction false} AllSlotsTaken(cap: nat, slots: seq<nat>, x: nat)
    requires Distinct(slots) && |slots| == cap && x < cap && forall i :: 0 <= i < |slots| ==> slots[i] < cap
    ensures x in slots
  {
    var all, used := Below(cap), Elements(slots);
    assert used <= all && |all - used| == 0;
    assert x in all;
  }

  /** The probe path of any hash visits every slot. */
  lemma {:induction false} DistanceTo(cap: nat, h: nat, s: nat) returns (k: nat)
    requires s < cap
    ensures k < cap && SlotAt(cap, h, k) == s
  {
    var start := Home(cap, h);
    k := if s >= start then s - start else s + cap - start;
  }

  lemma {:induction false} ProbeReaches(t: seq<Slot>, h: nat, k: nat, d: nat)
    requires |t| > 0 && k <= d < |t| && t[SlotAt(|t|, h, d)].IsFree()
    ensures Probe(t, h, k).Some?
    decreases d - k
  {
    if k < d && !t[SlotAt(|t|, h, k)].IsFree() {
      ProbeReaches(t, h, k + 1, d);
    }
  }

  lemma {:induction false} ProbeStops(t: seq<Slot>, h: nat, k: nat)
    requires |t| > 0 && forall s :: 0 <= s < |t| ==> !t[s].IsFree()
    ensures Probe(t, h, k) == None
    decreases |t| - k
  {
    if k < |t| {
      ProbeStops(t, h, k + 1);
    }
  }

  // ---------------------------------------------------------------- one insertion

  lemma {:induction false} FindUnaffected(t: seq<Slot>, s: nat, r: Slot, h: nat, k: nat)
    requires |t| > 0 && s < |t| && t[s].IsFree() && Find(t, h, k).Some?
    ensures Find(t[s := r], h, k) == Find(t, h, k)
    decreases |t| - k
  {
    if t[SlotAt(|t|, h, k)].hash != h {
      FindUnaffected(t, s, r, h, k + 1);
    }
  }

  lemma {:induction false} FindInserted(t: seq<Slot>, r: Slot, k: nat)
    requires |t| > 0 && !r.IsFree() && Probe(t, r.hash, k).Some?
    requires Find(t, r.hash, k) == None
    ensures var s := Probe(t, r.hash, k).value; Find(t[s := r], r.hash, k) == Some(s)
    decreases |t| - k
  {
    if !t[SlotAt(|t|, r.hash, k)].IsFree() {
      FindInserted(t, r, k + 1);
    }
  }

  // ---------------------------------------------------------------- filling from empty

  ghost predicate AllUsed(rs: seq<Slot>) {
    forall i :: 0 <= i < |rs| ==> !rs[i].IsFree()
  }

  ghost predicate AllEmpty(t: seq<Slot>) {
    |t| > 0 && forall s :: 0 <= s < |t| ==> t[s].IsFree()
  }

  /** No earlier record has the hash of record `i`. */
  ghost predicate IsFirst(rs: seq<Slot>, i: nat)
    requires i < |rs|
  {
    forall j :: 0 <= j < i ==> rs[j].hash != rs[i].hash
  }

  ghost predicate Placed(tb: seq<Slot>, slots: seq<nat>, rs: seq<Slot>) {
    && |slots| <= |rs|
    && (forall i :: 0 <= i < |slots| ==> slots[i] < |tb| && tb[slots[i]] == rs[i])
    && Distinct(slots)
  }

  ghost predicate Covered(tb: seq<Slot>, slots: seq<nat>)
    requires |tb| > 0
  {
    forall s :: 0 <= s < |tb| && !tb[s].IsFree() ==> s in slots
  }

  ghost predicate Found(tb: seq<Slot>, slots: seq<nat>, rs: seq<Slot>)
    requires |tb| > 0 && |slots| <= |rs|
  {
    forall i {:trigger IsFirst(rs, i)} ::
      0 <= i < |slots| && IsFirst(rs, i) ==> Find(tb, rs[i].hash, 0) == Some(slots[i])
  }

  /** What the table looks like after up to `|tb|` insertions. */
  ghost predicate FillInv(tb: seq<Slot>, slots: seq<nat>, rs: seq<Slot>) {
    && |tb| > 0
    && Placed(tb, slots, rs) && Covered(tb, slots) && Found(tb, slots, rs)
  }

  lemma {:induction false} FoundIsAdded(tb: seq<Slot>, slots: seq<nat>, rs: seq<Slot>, h: nat) returns (j: nat)
    requires FillInv(tb, slots, rs) && Find(tb, h, 0).Some?
    ensures j < |slots| && rs[j].hash == h
  {
    var x := Find(tb, h, 0).value;
    j :| 0 <= j < |slots| && slots[j] == x;
  }

  lemma {:induction false} InsertKeepsFound(tb: seq<Slot>, slots: seq<nat>, rs: seq<Slot>, s: nat)
    requires FillInv(tb, slots, rs) && AllUsed(rs) && |slots| < |rs|
    requires Probe(tb, rs[|slots|].hash, 0) == Some(s)
    ensures Found(tb[s := rs[|slots|]], slots + [s], rs)
  {
    var r := rs[|slots|];
    forall i | 0 <= i < |slots| + 1 && IsFirst(rs, i)
      ensures Find(tb[s := r], rs[i].hash, 0) == Some((slots + [s])[i])
    {
      if i < |slots| {
        FindUnaffected(tb, s, r, rs[i].hash, 0);
      } else {
        NotYetFound(tb, slots, rs);
        FindInserted(tb, r, 0);
      }
    }
  }

  lemma {:induction false} NotYetFound(tb: seq<Slot>, slots: seq<nat>, rs: seq<Slot>)
    requires FillInv(tb, slots, rs) && |slots| < |rs| && IsFirst(rs, |slots|)
    ensures Find(tb, rs[|slots|].hash, 0) == None
  {
    var h := rs[|slots|].hash;
    if Find(tb, h, 0).Some? {
      var j := FoundIsAdded(tb, slots, rs, h);
    }
  }

  lemma {:induction false} InsertAt(tb: seq<Slot>, slots: seq<nat>, rs: seq<Slot>, s: nat)
    requires FillInv(tb, slots, rs) && AllUsed(rs) && |slots| < |rs|
    requires Probe(tb, rs[|slots|].hash, 0) == Some(s)
    ensures FillInv(tb[s := rs[|slots|]], slots + [s], rs)
  {
    var r := rs[|slots|];
    InsertKeepsFound(tb, slots, rs, s);
    var tb', slots' := tb[s := r], slots + [s];
    assert Covered(tb', slots') by {
      forall x | 0 <= x < |tb'| && !tb'[x].IsFree()
        ensures x in slots'
      {
        assert x == s || x in slots;
      }
    }
    assert s !in slots;
    assert Placed(tb', slots', rs);
  }

  lemma {:induction false} FreeSlotIsProbed(tb: seq<Slot>, slots: seq<nat>, rs: seq<Slot>, h: nat)
    requires |tb| > 0 && Placed(tb, slots, rs) && Covered(tb, slots) && |slots| < |tb|
    ensures Probe(tb, h, 0).Some?
  {
    var free := SlotLeftOut(|tb|, slots);
    var d := DistanceTo(|tb|, h, free);
    ProbeReaches(tb, h, 0, d);
  }

  lemma {:induction false} InsertKeepsInv(tb: seq<Slot>, slots: seq<nat>, rs: seq<Slot>)
    requires FillInv(tb, slots, rs) && AllUsed(rs) && |slots| < |rs| && |slots| < |tb|
    ensures FillInv(Put(tb, rs[|slots|]), slots + [PutSlot(tb, rs[|slots|])], rs)
  {
    FreeSlotIsProbed(tb, slots, rs, rs[|slots|].hash);
    InsertAt(tb, slots, rs, Probe(tb, rs[|slots|].hash, 0).value);
  }

  lemma {:induction false} EmptyKeepsInv(t: seq<Slot>, rs: seq<Slot>)
    requires AllEmpty(t)
    ensures FillInv(t, [], rs)
  {
  }

  lemma {:induction false} FillKeepsInv(t: seq<Slot>, rs: seq<Slot>, n: nat)
    requires AllEmpty(t) && AllUsed(rs) && n <= |rs| && n <= |t|
    ensures FillInv(Fill(t, rs, n).table, Fill(t, rs, n).slots, rs)
  {
    if n == 0 {
      EmptyKeepsInv(t, rs);
    } else {
      FillKeepsInv(t, rs, n - 1);
      InsertKeepsInv(Fill(t, rs, n - 1).table, Fill(t, rs, n - 1).slots, rs);
    }
  }

  lemma {:induction false} PutWhenFull(tb: seq<Slot>, slots: seq<nat>, rs: seq<Slot>, r: Slot)
    requires |tb| > 0 && Placed(tb, slots, rs) && AllUsed(rs) && |slots| == |tb|
    ensures Put(tb, r) == tb && PutSlot(tb, r) == 0
  {
    forall x | 0 <= x < |tb|
      ensures !tb[x].IsFree()
    {
      AllSlotsTaken(|tb|, slots, x);
    }
    ProbeStops(tb, r.hash, 0);
  }

  lemma {:induction false} FillPastCapacity(t: seq<Slot>, rs: seq<Slot>, n: nat)
    requires AllEmpty(t) && AllUsed(rs) && |t| <= n <= |rs|
    ensures Fill(t, rs, n) == Filled(Fill(t, rs, |t|).table, Fill(t, rs, |t|).slots + seq(n - |t|, i => 0))
  {
    var full := Fill(t, rs, |t|);
    if n == |t| {
      assert full.slots + seq(0, i => 0) == full.slots;
    } else {
      FillPastCapacity(t, rs, n - 1);
      FullTable(t, rs, rs[n - 1]);
      assert full.slots + seq(n - 1 - |t|, i => 0) + [0] == full.slots + seq(n - |t|, i => 0);
    }
  }

  lemma {:induction false} FullTable(t: seq<Slot>, rs: seq<Slot>, r: Slot)
    requires AllEmpty(t) && AllUsed(rs) && |t| <= |rs|
    ensures var full := Fill(t, rs, |t|).table; Put(full, r) == full && PutSlot(full, r) == 0
  {
    FillKeepsInv(t, rs, |t|);
    PutWhenFull(Fill(t, rs, |t|).table, Fill(t, rs, |t|).slots, rs, r);
  }

  // ---------------------------------------------------------------- theorems

  lemma {:induction false} FillPlaces(t: seq<Slot>, rs: seq<Slot>) returns (tb: seq<Slot>, slots: seq<nat>)
    requires AllEmpty(t) && AllUsed(rs)
    ensures |tb| == |t| && |slots| == (if |rs| <= |t| then |rs| else |t|) && Placed(tb, slots, rs)
    ensures |t| <= |rs| ==> 0 in slots
    ensures Fill(t, rs, |rs|) == Filled(tb, slots + seq(|rs| - |slots|, i => 0))
  {
    var n := if |rs| <= |t| then |rs| else |t|;
    var f := Fill(t, rs, n);
    tb, slots := f.table, f.slots;
    FillKeepsInv(t, rs, n);
    if |t| <= |rs| {
      FillPastCapacity(t, rs, |rs|);
      AllSlotsTaken(|t|, slots, 0);
    } else {
      assert slots + seq(0, i => 0) == slots;
    }
  }

  /** Slot `s` of the filled table is where record `i` is recorded and found. */
  ghost predicate HasSlot(f: Filled, rs: seq<Slot>, i: nat) {
    i < |rs| && i < |f.slots| && f.slots[i] < |f.table| && f.table[f.slots[i]] == rs[i]
  }

  /** Every record within the capacity has a slot of its own holding it; every record past the
      capacity is dropped and recorded at slot 0, which is the slot of an earlier record. */
  lemma {:induction false} EveryRecordHasItsSlot(t: seq<Slot>, rs: seq<Slot>)
    requires AllEmpty(t) && AllUsed(rs)
    ensures var f := Fill(t, rs, |rs|);
            && (forall i :: 0 <= i < |rs| && i < |t| ==> HasSlot(f, rs, i))
            && (forall i, j :: 0 <= i < j < |rs| && j < |t| ==> f.slots[i] != f.slots[j])
            && (forall i :: |t| <= i < |rs| ==> f.slots[i] == 0)
            && (|t| < |rs| ==> 0 in f.slots[..|t|])
  {
    var tb, slots := FillPlaces(t, rs);
    PaddedSlots(tb, slots, rs);
  }

  lemma {:induction false} PaddedSlots(tb: seq<Slot>, slots: seq<nat>, rs: seq<Slot>)
    requires Placed(tb, slots, rs)
    ensures var f := Filled(tb, slots + seq(|rs| - |slots|, i => 0));
            && (forall i :: 0 <= i < |slots| ==> HasSlot(f, rs, i))
            && (forall i, j :: 0 <= i < j < |slots| ==> f.slots[i] != f.slots[j])
            && (forall i :: |slots| <= i < |rs| ==> f.slots[i] == 0)
            && f.slots[..|slots|] == slots
  {
  }

  /** The reader finds, for each hash added within the capacity, the record added first. */
  lemma {:induction false} FindsFirstAdded(t: seq<Slot>, rs: seq<Slot>, i: nat)
    requires AllEmpty(t) && AllUsed(rs) && i < |rs| && i < |t| && IsFirst(rs, i)
    ensures var f := Fill(t, rs, |rs|); Find(f.table, rs[i].hash, 0) == Some(f.slots[i])
  {
    if |rs| <= |t| {
      FillKeepsInv(t, rs, |rs|);
    } else {
      FillKeepsInv(t, rs, |t|);
      FillPastCapacity(t, rs, |rs|);
    }
  }

  /** A hash that was not added within the capacity is never found. */
  lemma {:induction false} NeverAddedNeverFound(t: seq<Slot>, rs: seq<Slot>, h: nat)
    requires AllEmpty(t) && AllUsed(rs)
    requires forall i :: 0 <= i < |rs| && i < |t| ==> rs[i].hash != h
    ensures Find(Fill(t, rs, |rs|).table, h, 0) == None
  {
    var n := if |rs| <= |t| then |rs| else |t|;
    var f := Fill(t, rs, n);
    FillKeepsInv(t, rs, n);
    if n < |rs| {
      FillPastCapacity(t, rs, |rs|);
    }
    if Find(f.table, h, 0).Some? {
      var j := FoundIsAdded(f.table, f.slots, rs, h);
    }
  }
}
