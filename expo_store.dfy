/** The pavilion status store of the Expo 2025 bot (src/expo/data_manager.py):
    a full snapshot resets it, a delta batch updates it slot by slot and
    reports only the real status transitions. */
module ExpoStore {
  import opened Wrappers

  // ---------------------------------------------------------------------------
  // Payloads and stored values

  /** One entry of a snapshot item's `"s"` list. `None` stands for a missing
      `"t"` or `"s"` key. */
  datatype ScheduleEntry = ScheduleEntry(t: Option<string>, s: Option<int>)

  /** One item of the snapshot list: code `"c"`, name `"n"`, url `"u"` and the
      schedule list `"s"` (a missing `"s"` is the empty list). */
  datatype SnapshotItem = SnapshotItem(c: Option<string>, n: Option<string>, u: Option<string>, s: seq<ScheduleEntry>)

  /** What the store keeps per code: `{name, url, schedules}`. */
  datatype Pavilion = Pavilion(name: string, url: string, schedules: map<string, int>)

  /** One element of a delta list: `update.get("t")` and `update.get("s")`. */
  datatype Update = Update(t: Option<string>, s: Option<int>)

  /** The `(old_status, new_status)` pair; `old` is `None` for a slot that had
      no status yet. */
  datatype Transition = Transition(oldStatus: Option<int>, newStatus: int)

  /** `{code: {slot: (old, new)}}`, the result of `apply_updates`. */
  type Changes = map<string, map<string, Transition>>

  /** The delta map `{code: [update, ...]}`, as the sequence of its items. */
  type Delta = seq<(string, seq<Update>)>

  const UnknownPavilionName: string := "Unknown Pavilion"

  // ---------------------------------------------------------------------------
  // Snapshot (load_initial_data)

  /** `{s["t"]: s["s"] for s in schedules_list if "t" in s and "s" in s}`:
      incomplete entries are dropped and a later entry for a slot wins. */
  function SchedulesOf(entries: seq<ScheduleEntry>): map<string, int>
  {
    if entries == [] then map[]
    else
      var m := SchedulesOf(entries[..|entries| - 1]);
      var e := entries[|entries| - 1];
      if e.t.Some? && e.s.Some? then m[e.t.value := e.s.value] else m
  }

  /** `if not code: continue` keeps only items with a non-empty code. */
  predicate HasCode(item: SnapshotItem) {
    item.c.Some? && item.c.value != ""
  }

  function PavilionOf(item: SnapshotItem): Pavilion {
    Pavilion(item.n.GetOr(UnknownPavilionName), item.u.GetOr(""), SchedulesOf(item.s))
  }

  /** The store a non-empty snapshot list builds; a later item with the same
      code replaces an earlier one. */
  function Snapshot(items: seq<SnapshotItem>): (store: map<string, Pavilion>)
    ensures "" !in store
  {
    if items == [] then map[]
    else
      var m := Snapshot(items[..|items| - 1]);
      var item := items[|items| - 1];
      if HasCode(item) then m[item.c.value := PavilionOf(item)] else m
  }

  /** The slots of an item are exactly those of its complete entries. */
  lemma {:induction false} SchedulesOfKeys(entries: seq<ScheduleEntry>, slot: string)
    ensures slot in SchedulesOf(entries) <==>
      exists i :: 0 <= i < |entries| && entries[i].t == Some(slot) && entries[i].s.Some?
  {
    if entries != [] {
      var init := entries[..|entries| - 1];
      SchedulesOfKeys(init, slot);
      if exists i :: 0 <= i < |init| && init[i].t == Some(slot) && init[i].s.Some? {
        var i :| 0 <= i < |init| && init[i].t == Some(slot) && init[i].s.Some?;
        assert entries[i] == init[i];
      }
    }
  }

  /** The status of a slot is taken from the last complete entry for it. */
  lemma {:induction false} SchedulesOfLastWins(entries: seq<ScheduleEntry>, i: nat)
    requires i < |entries| && entries[i].t.Some? && entries[i].s.Some?
    requires forall j :: i < j < |entries| ==> entries[j].t != entries[i].t || entries[j].s.None?
    ensures entries[i].t.value in SchedulesOf(entries)
    ensures SchedulesOf(entries)[entries[i].t.value] == entries[i].s.value
  {
    if i < |entries| - 1 {
      SchedulesOfLastWins(entries[..|entries| - 1], i);
    }
  }

  /** The codes a snapshot stores are exactly the non-empty codes it lists. */
  lemma {:induction false} SnapshotKeys(items: seq<SnapshotItem>, code: string)
    ensures code in Snapshot(items) <==>
      exists i :: 0 <= i < |items| && items[i].c == Some(code) && code != ""
  {
    if items != [] {
      var init := items[..|items| - 1];
      SnapshotKeys(init, code);
      if exists i :: 0 <= i < |init| && init[i].c == Some(code) && code != "" {
        var i :| 0 <= i < |init| && init[i].c == Some(code) && code != "";
        assert items[i] == init[i];
      }
    }
  }

  /** A stored pavilion comes from the last item with its code, with the
      defaults `"Unknown Pavilion"` and `""` for a missing name and url. */
  lemma {:induction false} SnapshotLastWins(items: seq<SnapshotItem>, i: nat)
    requires i < |items| && HasCode(items[i])
    requires forall j :: i < j < |items| ==> items[j].c != items[i].c
    ensures items[i].c.value in Snapshot(items)
    ensures var p := Snapshot(items)[items[i].c.value];
      && p.name == (if items[i].n.Some? then items[i].n.value else UnknownPavilionName)
      && p.url == (if items[i].u.Some? then items[i].u.value else "")
      && p.schedules == SchedulesOf(items[i].s)
  {
    if i < |items| - 1 {
      SnapshotLastWins(items[..|items| - 1], i);
    }
  }

  // ---------------------------------------------------------------------------
  // Delta batches (apply_updates)

  /** The live statuses together with the changes detected so far. */
  datatype Ingest = Ingest(store: map<string, map<string, int>>, changes: Changes)

  /** One update of the delta for `code`: unknown codes and updates without a
      slot or a status are skipped; a status equal to the live one is a no-op;
      any other status is written and its transition recorded, replacing an
      earlier record for the same slot. */
  function ApplyUpdate(st: Ingest, code: string, u: Update): (r: Ingest)
    ensures code !in st.store ==> r == st
  {
    if code !in st.store || u.t.None? || u.s.None? then st
    else
      var slot := u.t.value;
      var previous := Get(st.store[code], slot);
      if previous == u.s then st
      else
        Ingest(st.store[code := st.store[code][slot := u.s.value]],
               st.changes[code := Get(st.changes, code).GetOr(map[])[slot := Transition(previous, u.s.value)]])
  }

  /** The updates listed for one code, applied in order. */
  function ApplyCodeUpdates(st: Ingest, code: string, us: seq<Update>): Ingest
  {
    if us == [] then st else ApplyUpdate(ApplyCodeUpdates(st, code, us[..|us| - 1]), code, us[|us| - 1])
  }

  /** A whole delta map, code after code. */
  function ApplyDelta(st: Ingest, delta: Delta): Ingest
  {
    if delta == [] then st
    else
      var last := delta[|delta| - 1];
      ApplyCodeUpdates(ApplyDelta(st, delta[..|delta| - 1]), last.0, last.1)
  }

  predicate Reported(changes: Changes, code: string, slot: string) {
    code in changes && slot in changes[code]
  }

  /** Every recorded transition is a real one and ends in the live status. */
  ghost predicate ChangesAreLive(st: Ingest) {
    forall c :: c in st.changes ==>
      c in st.store &&
      forall s :: s in st.changes[c] ==>
        s in st.store[c] && st.changes[c][s].newStatus == st.store[c][s] && st.changes[c][s].oldStatus != Some(st.changes[c][s].newStatus)
  }

  /** `b` follows from `a`: same codes, records are only added or replaced,
      and any slot without a record in `b` has the status it had in `a`. */
  ghost predicate Evolves(a: Ingest, b: Ingest) {
    && b.store.Keys == a.store.Keys
    && (forall c :: c in a.changes ==> c in b.changes && a.changes[c].Keys <= b.changes[c].Keys)
    && (forall c, s :: c in a.store && !Reported(b.changes, c, s) ==> Get(b.store[c], s) == Get(a.store[c], s))
  }

  lemma EvolvesTransitive(a: Ingest, b: Ingest, c: Ingest)
    requires Evolves(a, b) && Evolves(b, c)
    ensures Evolves(a, c)
  {
    forall x, s | x in a.store && !Reported(c.changes, x, s)
      ensures Get(c.store[x], s) == Get(a.store[x], s)
    {
      assert !Reported(b.changes, x, s);
    }
  }

  lemma ApplyUpdateEvolves(st: Ingest, code: string, u: Update)
    ensures Evolves(st, ApplyUpdate(st, code, u))
    ensures ChangesAreLive(st) ==> ChangesAreLive(ApplyUpdate(st, code, u))
  {
  }

  lemma {:induction false} ApplyCodeUpdatesEvolves(st: Ingest, code: string, us: seq<Update>)
    ensures Evolves(st, ApplyCodeUpdates(st, code, us))
    ensures ChangesAreLive(st) ==> ChangesAreLive(ApplyCodeUpdates(st, code, us))
  {
    if us != [] {
      var mid := ApplyCodeUpdates(st, code, us[..|us| - 1]);
      ApplyCodeUpdatesEvolves(st, code, us[..|us| - 1]);
      ApplyUpdateEvolves(mid, code, us[|us| - 1]);
      EvolvesTransitive(st, mid, ApplyCodeUpdates(st, code, us));
    }
  }

  lemma {:induction false} ApplyDeltaEvolves(st: Ingest, delta: Delta)
    ensures Evolves(st, ApplyDelta(st, delta))
    ensures ChangesAreLive(st) ==> ChangesAreLive(ApplyDelta(st, delta))
  {
    if delta != [] {
      var mid := ApplyDelta(st, delta[..|delta| - 1]);
      var last := delta[|delta| - 1];
      ApplyDeltaEvolves(st, delta[..|delta| - 1]);
      ApplyCodeUpdatesEvolves(mid, last.0, last.1);
      EvolvesTransitive(st, mid, ApplyDelta(st, delta));
    }
  }

  /** What `apply_updates` reports, exactly: no code is added or dropped; every
      reported `(old, new)` has `old != new` and `new` is the status now stored;
      and every slot without a report has kept its status (or its absence). */
  lemma ApplyDeltaReportsExactly(store: map<string, map<string, int>>, delta: Delta)
    ensures var r := ApplyDelta(Ingest(store, map[]), delta);
      && r.store.Keys == store.Keys
      && r.changes.Keys <= store.Keys
      && (forall c, s :: Reported(r.changes, c, s) ==>
            s in r.store[c] && r.changes[c][s].newStatus == r.store[c][s] && r.changes[c][s].oldStatus != Some(r.changes[c][s].newStatus))
      && (forall c, s :: c in store && !Reported(r.changes, c, s) ==> Get(r.store[c], s) == Get(store[c], s))
  {
    ApplyDeltaEvolves(Ingest(store, map[]), delta);
  }

  // The old status of a report

  /** A complete update of slot `s` of code `c`. */
  predicate Touches(code: string, u: Update, c: string, s: string) {
    code == c && u.t == Some(s) && u.s.Some?
  }

  predicate UpdatesAvoid(code: string, us: seq<Update>, c: string, s: string) {
    forall j :: 0 <= j < |us| ==> !Touches(code, us[j], c, s)
  }

  ghost predicate DeltaAvoids(delta: Delta, c: string, s: string) {
    forall i :: 0 <= i < |delta| ==> UpdatesAvoid(delta[i].0, delta[i].1, c, s)
  }

  /** The status of slot `s` of code `c` and its record, if any. */
  function SlotView(st: Ingest, c: string, s: string): (Option<int>, Option<Transition>) {
    (if c in st.store then Get(st.store[c], s) else None,
     if Reported(st.changes, c, s) then Some(st.changes[c][s]) else None)
  }

  lemma ApplyUpdateAvoids(st: Ingest, code: string, u: Update, c: string, s: string)
    requires !Touches(code, u, c, s)
    ensures SlotView(ApplyUpdate(st, code, u), c, s) == SlotView(st, c, s)
  {
    var r := ApplyUpdate(st, code, u);
    if code in st.store && u.t.Some? && u.s.Some? && Get(st.store[code], u.t.value) != u.s {
      if code == c {
        assert u.t.value != s;
        assert Get(r.store[c], s) == Get(st.store[c], s);
      }
    }
  }

  lemma {:induction false} ApplyCodeUpdatesAvoids(st: Ingest, code: string, us: seq<Update>, c: string, s: string)
    requires UpdatesAvoid(code, us, c, s)
    ensures SlotView(ApplyCodeUpdates(st, code, us), c, s) == SlotView(st, c, s)
  {
    if us != [] {
      ApplyCodeUpdatesAvoids(st, code, us[..|us| - 1], c, s);
      ApplyUpdateAvoids(ApplyCodeUpdates(st, code, us[..|us| - 1]), code, us[|us| - 1], c, s);
    }
  }

  lemma {:induction false} ApplyDeltaAvoids(st: Ingest, delta: Delta, c: string, s: string)
    requires DeltaAvoids(delta, c, s)
    ensures SlotView(ApplyDelta(st, delta), c, s) == SlotView(st, c, s)
  {
    if delta != [] {
      var init := delta[..|delta| - 1];
      assert DeltaAvoids(init, c, s) by {
        forall i | 0 <= i < |init| ensures UpdatesAvoid(init[i].0, init[i].1, c, s) {
          assert init[i] == delta[i];
        }
      }
      ApplyDeltaAvoids(st, init, c, s);
      var last := delta[|delta| - 1];
      ApplyCodeUpdatesAvoids(ApplyDelta(st, init), last.0, last.1, c, s);
    }
  }

  lemma {:induction false} ApplyCodeUpdatesAppend(st: Ingest, code: string, a: seq<Update>, b: seq<Update>)
    ensures ApplyCodeUpdates(st, code, a + b) == ApplyCodeUpdates(ApplyCodeUpdates(st, code, a), code, b)
  {
    if b != [] {
      assert (a + b)[..|a + b| - 1] == a + b[..|b| - 1];
      ApplyCodeUpdatesAppend(st, code, a, b[..|b| - 1]);
    } else {
      assert a + b == a;
    }
  }

  lemma {:induction false} ApplyDeltaAppend(st: Ingest, a: Delta, b: Delta)
    ensures ApplyDelta(st, a + b) == ApplyDelta(ApplyDelta(st, a), b)
  {
    if b != [] {
      assert (a + b)[..|a + b| - 1] == a + b[..|b| - 1];
      ApplyDeltaAppend(st, a, b[..|b| - 1]);
    } else {
      assert a + b == a;
    }
  }

  /** The slot a single complete update `(s, v)` reaches: it holds `v`, and a
      record `(old, v)` exists iff `old`, the status before, differs from `v`;
      otherwise any earlier record is kept. */
  lemma SoleTouch(st: Ingest, c: string, s: string, v: int)
    requires c in st.store
    ensures var before := SlotView(st, c, s);
      SlotView(ApplyUpdate(st, c, Update(Some(s), Some(v))), c, s) ==
        (Some(v), if before.0 == Some(v) then before.1 else Some(Transition(before.0, v)))
  {
  }

  /** The old status of a report: when the delta's only complete update of
      slot `s` of a stored code `c` sets it to `v`, the batch reports `(c, s)`
      iff the status before the batch differs from `v`, and the report is
      `(status before the batch, v)`. Other codes, other slots and incomplete
      updates may come before and after it. */
  lemma SoleUpdateReported(store: map<string, map<string, int>>, pre: Delta, us1: seq<Update>, us2: seq<Update>,
                           post: Delta, c: string, s: string, v: int)
    requires c in store
    requires DeltaAvoids(pre, c, s) && DeltaAvoids(post, c, s)
    requires UpdatesAvoid(c, us1, c, s) && UpdatesAvoid(c, us2, c, s)
    ensures var r := ApplyDelta(Ingest(store, map[]), pre + [(c, us1 + [Update(Some(s), Some(v))] + us2)] + post);
      && c in r.store && Get(r.store[c], s) == Some(v)
      && (Reported(r.changes, c, s) <==> Get(store[c], s) != Some(v))
      && (Reported(r.changes, c, s) ==> r.changes[c][s] == Transition(Get(store[c], s), v))
  {
    var st0 := Ingest(store, map[]);
    var u := Update(Some(s), Some(v));
    var us := us1 + [u] + us2;
    ApplyDeltaAppend(st0, pre + [(c, us)], post);
    ApplyDeltaAppend(st0, pre, [(c, us)]);
    var st1 := ApplyDelta(st0, pre);
    ApplyDeltaAvoids(st0, pre, c, s);
    ApplyDeltaEvolves(st0, pre);
    assert ApplyDelta(st1, [(c, us)]) == ApplyCodeUpdates(st1, c, us) by {
      assert [(c, us)][..0] == [];
    }
    ApplyCodeUpdatesAppend(st1, c, us1 + [u], us2);
    ApplyCodeUpdatesAppend(st1, c, us1, [u]);
    var st2 := ApplyCodeUpdates(st1, c, us1);
    ApplyCodeUpdatesAvoids(st1, c, us1, c, s);
    ApplyCodeUpdatesEvolves(st1, c, us1);
    assert ApplyCodeUpdates(st2, c, [u]) == ApplyUpdate(st2, c, u) by {
      assert [u][..0] == [];
    }
    var st3 := ApplyUpdate(st2, c, u);
    SoleTouch(st2, c, s, v);
    var st4 := ApplyCodeUpdates(st3, c, us2);
    ApplyCodeUpdatesAvoids(st3, c, us2, c, s);
    ApplyCodeUpdatesEvolves(st3, c, us2);
    ApplyUpdateEvolves(st2, c, u);
    var r := ApplyDelta(st4, post);
    ApplyDeltaAvoids(st4, post, c, s);
    ApplyDeltaEvolves(st4, post);
  }

  /** Updates for a code the store does not hold change nothing and report
      nothing. */
  lemma {:induction false} UnknownCodeIgnored(st: Ingest, code: string, us: seq<Update>)
    requires code !in st.store
    ensures ApplyCodeUpdates(st, code, us) == st
  {
    if us != [] {
      UnknownCodeIgnored(st, code, us[..|us| - 1]);
    }
  }

  /** Every complete update of `delta` for a stored code repeats the status
      `store` already holds for that slot. */
  ghost predicate Reasserts(store: map<string, map<string, int>>, delta: Delta) {
    forall i, j :: 0 <= i < |delta| && 0 <= j < |delta[i].1| ==>
      var code, u := delta[i].0, delta[i].1[j];
      code in store && u.t.Some? && u.s.Some? ==> Get(store[code], u.t.value) == u.s
  }

  lemma {:induction false} ReassertingCodeUpdatesAreSilent(st: Ingest, code: string, us: seq<Update>)
    requires forall j :: 0 <= j < |us| ==>
      code in st.store && us[j].t.Some? && us[j].s.Some? ==> Get(st.store[code], us[j].t.value) == us[j].s
    ensures ApplyCodeUpdates(st, code, us) == st
  {
    if us != [] {
      ReassertingCodeUpdatesAreSilent(st, code, us[..|us| - 1]);
    }
  }

  /** A delta that only re-asserts the live statuses writes nothing and
      reports nothing: the rule that keeps the one-second poll from sending
      the same notification again. */
  lemma {:induction false} ReassertingDeltaIsSilent(st: Ingest, delta: Delta)
    requires Reasserts(st.store, delta)
    ensures ApplyDelta(st, delta) == st
  {
    if delta != [] {
      var init := delta[..|delta| - 1];
      assert Reasserts(st.store, init) by {
        forall i, j | 0 <= i < |init| && 0 <= j < |init[i].1|
          ensures var code, u := init[i].0, init[i].1[j];
            code in st.store && u.t.Some? && u.s.Some? ==> Get(st.store[code], u.t.value) == u.s
        {
          assert init[i] == delta[i];
        }
      }
      ReassertingDeltaIsSilent(st, init);
      var last := delta[|delta| - 1];
      ReassertingCodeUpdatesAreSilent(st, last.0, last.1);
    }
  }

  /** A delta holding a single update is that update. */
  lemma SingleUpdateDelta(st: Ingest, code: string, u: Update)
    ensures ApplyDelta(st, [(code, [u])]) == ApplyUpdate(st, code, u)
  {
    var d: Delta := [(code, [u])];
    assert d[..0] == [];
    assert [u][..0] == [];
    assert ApplyDelta(st, d[..0]) == st;
    assert ApplyCodeUpdates(st, code, [u]) == ApplyUpdate(ApplyCodeUpdates(st, code, []), code, u);
  }

  /** Two updates of one slot in one batch: the slot ends at the second status
      and its single record is the second transition, whose `old` is the
      first status; the first transition is not reported. */
  lemma LastTransitionWins(store: map<string, map<string, int>>, code: string, slot: string, v1: int, v2: int)
    requires code in store && Get(store[code], slot) != Some(v1) && v1 != v2
    ensures var r := ApplyCodeUpdates(Ingest(store, map[]), code, [Update(Some(slot), Some(v1)), Update(Some(slot), Some(v2))]);
      && r.store == store[code := store[code][slot := v2]]
      && r.changes == map[code := map[slot := Transition(Some(v1), v2)]]
  {
    var u1, u2 := Update(Some(slot), Some(v1)), Update(Some(slot), Some(v2));
    var st0 := Ingest(store, map[]);
    TwoUpdates(st0, code, u1, u2);
    var st1 := ApplyUpdate(st0, code, u1);
    var m1 := store[code][slot := v1];
    var t1 := Transition(Get(store[code], slot), v1);
    assert st1 == Ingest(store[code := m1], map[code := map[slot := t1]]) by {
      ChangedUpdate(st0, code, slot, v1);
    }
    var st2 := ApplyUpdate(st1, code, u2);
    assert st2.store == store[code := store[code][slot := v2]] by {
      ChangedUpdate(st1, code, slot, v2);
      assert m1[slot := v2] == store[code][slot := v2];
    }
    assert st2.changes == map[code := map[slot := Transition(Some(v1), v2)]] by {
      ChangedUpdate(st1, code, slot, v2);
      assert map[slot := t1][slot := Transition(Some(v1), v2)] == map[slot := Transition(Some(v1), v2)];
    }
  }

  lemma TwoUpdates(st: Ingest, code: string, a: Update, b: Update)
    ensures ApplyCodeUpdates(st, code, [a, b]) == ApplyUpdate(ApplyUpdate(st, code, a), code, b)
  {
    var us := [a, b];
    assert us[..1] == [a];
    assert ApplyCodeUpdates(st, code, [a]) == ApplyUpdate(st, code, a) by {
      assert [a][..0] == [];
    }
  }

  /** A complete update of a stored code with a new status writes it and
      records `(previous, new)` for the slot. */
  lemma ChangedUpdate(st: Ingest, code: string, slot: string, v: int)
    requires code in st.store && Get(st.store[code], slot) != Some(v)
    ensures var r := ApplyUpdate(st, code, Update(Some(slot), Some(v)));
      && r.store == st.store[code := st.store[code][slot := v]]
      && r.changes == st.changes[code := Get(st.changes, code).GetOr(map[])[slot := Transition(Get(st.store[code], slot), v)]]
  {
  }

  /** Two batches moving one slot to `v1` and then to `v2` give one record
      each, the second with `old == v1`. */
  lemma SuccessiveTransitions(store: map<string, map<string, int>>, code: string, slot: string, v1: int, v2: int)
    requires code in store && Get(store[code], slot) != Some(v1) && v1 != v2
    ensures var r1 := ApplyDelta(Ingest(store, map[]), [(code, [Update(Some(slot), Some(v1))])]);
      var r2 := ApplyDelta(Ingest(r1.store, map[]), [(code, [Update(Some(slot), Some(v2))])]);
      && r1.changes == map[code := map[slot := Transition(Get(store[code], slot), v1)]]
      && r2.changes == map[code := map[slot := Transition(Some(v1), v2)]]
  {
    var u1, u2 := Update(Some(slot), Some(v1)), Update(Some(slot), Some(v2));
    SingleUpdateDelta(Ingest(store, map[]), code, u1);
    var r1 := ApplyUpdate(Ingest(store, map[]), code, u1);
    assert r1.store[code][slot] == v1;
    SingleUpdateDelta(Ingest(r1.store, map[]), code, u2);
  }

  // ---------------------------------------------------------------------------
  // The store object

  class DataManager {
    /** `{code: {name, url, schedules}}` */
    var currentPavilionData: map<string, Pavilion>
    /** `{code: schedules}`: the source stores the very same dict object here
        and under `"schedules"`; as values, the two are kept equal. */
    var currentStatusOnly: map<string, map<string, int>>

    ghost predicate Valid()
      reads this
    {
      && currentStatusOnly.Keys == currentPavilionData.Keys
      && forall c :: c in currentPavilionData ==> currentStatusOnly[c] == currentPavilionData[c].schedules
    }

    constructor ()
      ensures Valid()
      ensures currentPavilionData == map[] && currentStatusOnly == map[]
    {
      currentPavilionData := map[];
      currentStatusOnly := map[];
    }

    /** Hard reset from a snapshot list; an empty list leaves the store as
        it is. */
    method LoadInitialData(dataJson: seq<SnapshotItem>)
      requires Valid()
      modifies this
      ensures Valid()
      ensures dataJson == [] ==>
        currentPavilionData == old(currentPavilionData) && currentStatusOnly == old(currentStatusOnly)
      ensures dataJson != [] ==> currentPavilionData == Snapshot(dataJson)
    {
      if dataJson == [] {
        return;
      }
      var newPavilionData: map<string, Pavilion> := map[];
      var newStatusOnly: map<string, map<string, int>> := map[];
      for i := 0 to |dataJson|
        invariant newPavilionData == Snapshot(dataJson[..i])
        invariant newStatusOnly.Keys == newPavilionData.Keys
        invariant forall c :: c in newPavilionData ==> newStatusOnly[c] == newPavilionData[c].schedules
      {
        assert dataJson[..i + 1][..i] == dataJson[..i];
        var item := dataJson[i];
        var code := item.c;
        if code.None? || code.value == "" {
          continue;
        }
        var name := item.n.GetOr(UnknownPavilionName);
        var url := item.u.GetOr("");
        var schedulesDict := SchedulesOf(item.s);
        newPavilionData := newPavilionData[code.value := Pavilion(name, url, schedulesDict)];
        newStatusOnly := newStatusOnly[code.value := schedulesDict];
      }
      assert dataJson[..|dataJson|] == dataJson;
      currentPavilionData := newPavilionData;
      currentStatusOnly := newStatusOnly;
    }

    /** Names, urls and the set of codes are those of `before`. */
    ghost predicate KeepsMetadata(before: map<string, Pavilion>)
      reads this
    {
      && currentPavilionData.Keys == before.Keys
      && forall c :: c in before ==>
           currentPavilionData[c].name == before[c].name && currentPavilionData[c].url == before[c].url
    }

    /** `pavilion_schedules[t] = s; pavilion_status_only[t] = s`: one write to
        the shared schedule dict, seen through both fields. */
    method WriteStatus(code: string, timeSlot: string, status: int)
      requires Valid() && code in currentPavilionData
      modifies this
      ensures Valid() && KeepsMetadata(old(currentPavilionData))
      ensures currentStatusOnly == old(currentStatusOnly)[code := old(currentStatusOnly)[code][timeSlot := status]]
    {
      var pavilion := currentPavilionData[code];
      currentPavilionData := currentPavilionData[code := pavilion.(schedules := pavilion.schedules[timeSlot := status])];
      currentStatusOnly := currentStatusOnly[code := currentStatusOnly[code][timeSlot := status]];
    }

    /** The body of the inner loop of `apply_updates`: one update of a
        stored code, compared with the live status. */
    method ApplyOneUpdate(code: string, update: Update, detected: Changes) returns (detectedChanges: Changes)
      requires Valid() && code in currentPavilionData
      modifies this
      ensures Valid() && KeepsMetadata(old(currentPavilionData))
      ensures Ingest(currentStatusOnly, detectedChanges) == ApplyUpdate(Ingest(old(currentStatusOnly), detected), code, update)
    {
      detectedChanges := detected;
      var timeSlot := update.t;
      var newStatus := update.s;
      if timeSlot.Some? && newStatus.Some? {
        var oldStatus := Get(currentStatusOnly[code], timeSlot.value);
        if oldStatus != newStatus {
          WriteStatus(code, timeSlot.value, newStatus.value);
          if code !in detectedChanges {
            detectedChanges := detectedChanges[code := map[]];
          }
          detectedChanges := detectedChanges[code := detectedChanges[code][timeSlot.value := Transition(oldStatus, newStatus.value)]];
        }
      }
    }

    /** The inner loop of `apply_updates`: the updates of one stored code, in
        order. */
    method ApplyPavilionUpdates(code: string, updates: seq<Update>, detected: Changes) returns (detectedChanges: Changes)
      requires Valid() && code in currentPavilionData
      modifies this
      ensures Valid() && KeepsMetadata(old(currentPavilionData))
      ensures Ingest(currentStatusOnly, detectedChanges) == ApplyCodeUpdates(Ingest(old(currentStatusOnly), detected), code, updates)
    {
      detectedChanges := detected;
      ghost var before := Ingest(currentStatusOnly, detected);
      for j := 0 to |updates|
        invariant Valid() && KeepsMetadata(old(currentPavilionData))
        invariant Ingest(currentStatusOnly, detectedChanges) == ApplyCodeUpdates(before, code, updates[..j])
      {
        assert updates[..j + 1][..j] == updates[..j];
        detectedChanges := ApplyOneUpdate(code, updates[j], detectedChanges);
      }
      assert updates[..|updates|] == updates;
    }

    /** Applies a delta batch in order against the live statuses and returns
        the detected transitions; codes the store does not hold are skipped.
        Names, urls and the set of codes are kept. */
    method ApplyUpdates(addJson: Delta) returns (detectedChanges: Changes)
      requires Valid()
      modifies this
      ensures Valid() && KeepsMetadata(old(currentPavilionData))
      ensures var r := ApplyDelta(Ingest(old(currentStatusOnly), map[]), addJson);
        currentStatusOnly == r.store && detectedChanges == r.changes
    {
      if addJson == [] {
        return map[];
      }
      detectedChanges := map[];
      ghost var start := Ingest(currentStatusOnly, map[]);
      for i := 0 to |addJson|
        invariant Valid() && KeepsMetadata(old(currentPavilionData))
        invariant Ingest(currentStatusOnly, detectedChanges) == ApplyDelta(start, addJson[..i])
      {
        assert addJson[..i + 1][..i] == addJson[..i];
        var (code, updates) := addJson[i];
        if code in currentPavilionData {
          detectedChanges := ApplyPavilionUpdates(code, updates, detectedChanges);
        } else {
          UnknownCodeIgnored(Ingest(currentStatusOnly, detectedChanges), code, updates);
        }
      }
      assert addJson[..|addJson|] == addJson;
    }

    /** The stored name, or the code itself for an unknown code. */
    function GetPavilionName(code: string): (name: string)
      reads this
      ensures code in currentPavilionData ==> name == currentPavilionData[code].name
      ensures code !in currentPavilionData ==> name == code
    {
      if code in currentPavilionData then currentPavilionData[code].name else code
    }

    /** The stored url, or `""` for an unknown code. */
    function GetPavilionUrl(code: string): (url: string)
      reads this
      ensures code in currentPavilionData ==> url == currentPavilionData[code].url
      ensures code !in currentPavilionData ==> url == ""
    {
      if code in currentPavilionData then currentPavilionData[code].url else ""
    }

    /** The live statuses of a code, or `{}` for an unknown code. */
    function GetSpecificPavilionStatus(code: string): (schedules: map<string, int>)
      reads this
      requires Valid()
      ensures code in currentPavilionData ==> schedules == currentStatusOnly[code]
      ensures code !in currentPavilionData ==> schedules == map[]
    {
      if code in currentPavilionData then currentPavilionData[code].schedules else map[]
    }

    /** One `{code, name}` per stored code (in no particular order). */
    method GetAllPavilionsInfo() returns (infos: seq<(string, string)>)
      ensures |infos| == |currentPavilionData|
      ensures CodesOf(infos) == currentPavilionData.Keys
      ensures forall i :: 0 <= i < |infos| ==>
        infos[i].0 in currentPavilionData && infos[i].1 == currentPavilionData[infos[i].0].name
      ensures forall i, j :: 0 <= i < j < |infos| ==> infos[i].0 != infos[j].0
    {
      infos := [];
      var rest := currentPavilionData.Keys;
      while rest != {}
        invariant rest <= currentPavilionData.Keys
        invariant |infos| + |rest| == |currentPavilionData|
        invariant CodesOf(infos) == currentPavilionData.Keys - rest
        invariant forall i :: 0 <= i < |infos| ==>
          infos[i].0 in currentPavilionData && infos[i].1 == currentPavilionData[infos[i].0].name
        invariant forall i, j :: 0 <= i < j < |infos| ==> infos[i].0 != infos[j].0
      {
        var code :| code in rest;
        var info := (code, currentPavilionData[code].name);
        AppendNewCode(infos, info);
        infos := infos + [info];
        rest := rest - {code};
      }
    }
  }

  /** The codes listed in a `{code, name}` list. */
  function CodesOf(infos: seq<(string, string)>): set<string> {
    set i | 0 <= i < |infos| :: infos[i].0
  }

  /** Appending an entry with a code not yet listed keeps codes distinct. */
  lemma AppendNewCode(infos: seq<(string, string)>, info: (string, string))
    requires info.0 !in CodesOf(infos)
    requires forall i, j :: 0 <= i < j < |infos| ==> infos[i].0 != infos[j].0
    ensures CodesOf(infos + [info]) == CodesOf(infos) + {info.0}
    ensures var r := infos + [info];
      forall i, j :: 0 <= i < j < |r| ==> r[i].0 != r[j].0
  {
    CodesOfAppend(infos, info);
    var r := infos + [info];
    forall i, j | 0 <= i < j < |r| ensures r[i].0 != r[j].0 {
      if j == |infos| {
        assert r[i].0 in CodesOf(infos);
      } else {
        assert r[i] == infos[i] && r[j] == infos[j];
      }
    }
  }

  lemma CodesOfAppend(infos: seq<(string, string)>, info: (string, string))
    ensures CodesOf(infos + [info]) == CodesOf(infos) + {info.0}
  {
    var r := infos + [info];
    assert r[|infos|] == info;
    forall c | c in CodesOf(infos) ensures c in CodesOf(r) {
      var i :| 0 <= i < |infos| && infos[i].0 == c;
      assert r[i] == infos[i];
    }
  }

  /** The snapshot list of the module's own demonstration. */
  function DemoItems(): seq<SnapshotItem> {
    [ SnapshotItem(Some("HOH0"), Some("Blue Ocean Dome"), Some("url_hoh0"), [ScheduleEntry(Some("1040"), Some(2))]),
      SnapshotItem(Some("CFR0"), Some("Red Cross Pavilion"), Some("url_cfr0"), [ScheduleEntry(Some("1824"), Some(0))]) ]
  }

  lemma DemoSnapshot()
    ensures Snapshot(DemoItems()) == map[
      "HOH0" := Pavilion("Blue Ocean Dome", "url_hoh0", map["1040" := 2]),
      "CFR0" := Pavilion("Red Cross Pavilion", "url_cfr0", map["1824" := 0])]
  {
    var items := DemoItems();
    assert items[..1][..0] == [];
    assert items[0].s[..0] == [] && items[1].s[..0] == [];
  }

  /** The store's schedule views after loading `DemoItems()`. */
  function DemoStatuses(): map<string, map<string, int>> {
    map["HOH0" := map["1040" := 2], "CFR0" := map["1824" := 0]]
  }

  /** The behaviour the module's own demonstration expects after loading
      `DemoItems()`: the delta `1040: 2 -> 1` is reported as `(2, 1)`, the same
      delta again as nothing, then `1 -> 2` as `(1, 2)`. */
  lemma DemoScenario()
    ensures var toLimited: Delta := [("HOH0", [Update(Some("1040"), Some(1))])];
      var toUnavailable: Delta := [("HOH0", [Update(Some("1040"), Some(2))])];
      var r1 := ApplyDelta(Ingest(DemoStatuses(), map[]), toLimited);
      var r2 := ApplyDelta(Ingest(r1.store, map[]), toLimited);
      var r3 := ApplyDelta(Ingest(r2.store, map[]), toUnavailable);
      && r1.changes == map["HOH0" := map["1040" := Transition(Some(2), 1)]]
      && r2.changes == map[]
      && r3.changes == map["HOH0" := map["1040" := Transition(Some(1), 2)]]
      && r3.store == DemoStatuses()
  {
    var toLimited, toUnavailable := Update(Some("1040"), Some(1)), Update(Some("1040"), Some(2));
    var s0 := DemoStatuses();
    SingleUpdateDelta(Ingest(s0, map[]), "HOH0", toLimited);
    var s1 := ApplyUpdate(Ingest(s0, map[]), "HOH0", toLimited).store;
    assert s0["HOH0"]["1040" := 1] == map["1040" := 1];
    assert s1 == s0["HOH0" := map["1040" := 1]];
    SingleUpdateDelta(Ingest(s1, map[]), "HOH0", toLimited);
    SingleUpdateDelta(Ingest(s1, map[]), "HOH0", toUnavailable);
    assert s1["HOH0"]["1040" := 2] == map["1040" := 2];
    assert s1["HOH0" := map["1040" := 2]] == s0;
  }
}
