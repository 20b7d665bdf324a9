/** Saving the loaded problems to the checkpoint file, and recovering them after a crash (checkpt.cpp). */
module Checkpoint {
  import opened Machine
  import opened Records
  import opened SlotFile
  import opened Disk
  import opened Routing
  import opened Buffers
  import opened Import

  /** An entry of the problem table; `retrieved` is whether ProblemRetrieveState succeeds on it. */
  datatype Problem =
    | Absent
    | Uninitialised
    | Loaded(retrieved: bool, contest: u32, work: Work, cpu: u32, core: u32)

  /** What every packet this client writes is stamped with; the id is padded with zeros. */
  datatype Stamp = Stamp(id: Id, os: u32, build: u32)

  datatype Action = Open | Refresh | Close

  predicate Savable(p: Problem) {
    p.Loaded? && p.retrieved && p.contest < CONTEST_COUNT
  }

  function CheckpointRecord(p: Problem, s: Stamp): WorkRecord
    requires Savable(p)
  {
    Terminated(WorkRecord(p.work, RESULT_WORKING, s.id, p.contest, p.cpu, s.os, s.build, p.core))
  }

  /** One packet for each problem that can be saved, in table order. */
  function Snapshot(h: Host, problems: seq<Problem>, s: Stamp): seq<WorkRecord> {
    if problems == [] then [] else
      var last := problems[|problems| - 1];
      Snapshot(h, problems[..|problems| - 1], s)
      + (if Savable(last) then [Stored(h, CheckpointRecord(last, s))] else [])
  }

  function SavableCount(problems: seq<Problem>): nat {
    if problems == [] then 0 else
      SavableCount(problems[..|problems| - 1]) + (if Savable(problems[|problems| - 1]) then 1 else 0)
  }

  /** The problems that can be saved are of contests this build handles. */
  predicate AllHandled(problems: seq<Problem>) {
    forall i | 0 <= i < |problems| :: Savable(problems[i]) ==> Handled(problems[i].contest)
  }

  lemma SavedRecord(h: Host, p: Problem, s: Stamp)
    requires Savable(p) && Handled(p.contest)
    ensures Stored(h, CheckpointRecord(p, s)) == CheckpointRecord(p, s)
    ensures Matches(CheckpointRecord(p, s), p.contest, false)
  {
    var r := CheckpointRecord(p, s);
    SwitchRoundTrip(h, r);
    assert r.id[ID_SIZE - 1 := 0] == r.id;
  }

  /** The snapshot has one recognised, unfinished packet for each problem that can be saved. */
  lemma {:induction false} SnapshotIsRecognised(h: Host, problems: seq<Problem>, s: Stamp)
    ensures |Snapshot(h, problems, s)| == SavableCount(problems)
    ensures AllHandled(problems) ==> forall d | d in Snapshot(h, problems, s) :: Recognised(d) && !GoesOut(d)
  {
    hide Recognised, GoesOut, Stored, CheckpointRecord;
    if problems != [] {
      var last := problems[|problems| - 1];
      SnapshotIsRecognised(h, problems[..|problems| - 1], s);
      if Savable(last) && Handled(last.contest) {
        SavedRecord(h, last, s);
        MatchesContest(CheckpointRecord(last, s), last.contest, false);
      }
    }
  }

  /** The checkpoint file holds exactly these packets and no free slot. */
  ghost predicate Holds(h: Host, s: Slots, packets: seq<WorkRecord>) {
    Packets(h, s) == packets && |s| == |packets|
  }

  lemma HoldsNext(h: Host, s: Slots, packets: seq<WorkRecord>, data: WorkRecord)
    requires Holds(h, s, packets)
    ensures Holds(h, PutSlots(h, s, data, false), packets + [Stored(h, data)])
  {
    PutOnFull(h, s, data, false);
  }

  lemma HoldsNothing(h: Host)
    ensures Holds(h, [], []) && Bag(h, []) == multiset{}
  {
  }

  // ---- Refresh ----

  /** The state after the packets of these problems have been put into the checkpoint file, one by one. */
  function SavedIn(e: Setup, ckpt: nat, problems: seq<Problem>, s: Stamp, m: Moment): (r: Moment)
    requires ckpt < |m.files|
    ensures |r.files| == |m.files| && r.ops >= m.ops
  {
    if problems == [] then m else
      var before, last := SavedIn(e, ckpt, problems[..|problems| - 1], s, m), problems[|problems| - 1];
      if Savable(last) then AfterPut(e, before, ckpt, CheckpointRecord(last, s), false) else before
  }

  /** A packet that was saved for a problem, field by field. */
  predicate SavedFields(d: WorkRecord, p: Problem, s: Stamp)
    requires p.Loaded?
  {
    && d.work == p.work && d.contest == p.contest && d.cpu == p.cpu && d.core == p.core
    && d.os == s.os && d.build == s.build && d.resultcode == 0
    && d.id[..63] == s.id[..63] && d.id[63] == 0
  }

  predicate IsSaved(problems: seq<Problem>, i: int)
    requires 0 <= i < |problems|
  {
    problems[i].Loaded? && problems[i].retrieved && problems[i].contest <= 6
  }

  /** The places in the table of the problems that are loaded, could be retrieved and are of a known contest. */
  function Places(problems: seq<Problem>): (places: seq<int>)
    ensures forall k | 0 <= k < |places| :: 0 <= places[k] < |problems| && IsSaved(problems, places[k])
    ensures forall k, l | 0 <= k < l < |places| :: places[k] < places[l]
    ensures forall i | 0 <= i < |problems| && IsSaved(problems, i) :: i in places
  {
    if problems == [] then [] else
      var n := |problems| - 1;
      var before := Places(problems[..n]);
      assert forall i | 0 <= i < n :: IsSaved(problems[..n], i) == IsSaved(problems, i);
      if IsSaved(problems, n) then before + [n] else before
  }

  /** The packets are those of these problems, in table order, with all their fields if the contest is handled. */
  ghost predicate SavedInOrder(packets: seq<WorkRecord>, problems: seq<Problem>, s: Stamp) {
    var places := Places(problems);
    && |packets| == |places|
    && forall k | 0 <= k < |packets| ::
         4 <= problems[places[k]].contest <= 6 ==> SavedFields(packets[k], problems[places[k]], s)
  }

  lemma RecordFields(h: Host, p: Problem, s: Stamp)
    requires Savable(p) && 4 <= p.contest <= 6
    ensures SavedFields(Stored(h, CheckpointRecord(p, s)), p, s)
  {
    StoredKeepsFields(h, CheckpointRecord(p, s));
  }

  lemma {:induction false} SnapshotInOrder(h: Host, problems: seq<Problem>, s: Stamp)
    ensures SavedInOrder(Snapshot(h, problems, s), problems, s)
  {
    hide SavedInOrder, Stored, CheckpointRecord, IsSaved;
    if problems != [] {
      var n := |problems| - 1;
      var last := problems[n];
      SnapshotInOrder(h, problems[..n], s);
      assert IsSaved(problems, n) == Savable(last) by {
        SavedIsSavable(problems, n);
      }
      if Savable(last) {
        if 4 <= last.contest <= 6 {
          RecordFields(h, last, s);
        }
        OneMoreInOrder(Snapshot(h, problems[..n], s), problems, s, Stored(h, CheckpointRecord(last, s)));
      } else {
        NoneMoreInOrder(Snapshot(h, problems[..n], s), problems, s);
        assert Snapshot(h, problems[..n], s) + [] == Snapshot(h, problems[..n], s);
      }
    } else {
      NoneInOrder(s);
    }
  }

  lemma SavedIsSavable(problems: seq<Problem>, i: int)
    requires 0 <= i < |problems|
    ensures IsSaved(problems, i) == Savable(problems[i])
  {
  }

  lemma NoneInOrder(s: Stamp)
    ensures SavedInOrder([], [], s)
  {
  }

  lemma NoneMoreInOrder(packets: seq<WorkRecord>, problems: seq<Problem>, s: Stamp)
    requires problems != [] && !IsSaved(problems, |problems| - 1)
    requires SavedInOrder(packets, problems[..|problems| - 1], s)
    ensures SavedInOrder(packets, problems, s)
  {
    hide SavedFields, IsSaved;
    var places := Places(problems[..|problems| - 1]);
    assert Places(problems) == places;
    assert forall k | 0 <= k < |places| :: problems[places[k]] == problems[..|problems| - 1][places[k]];
  }

  lemma OneMoreInOrder(packets: seq<WorkRecord>, problems: seq<Problem>, s: Stamp, d: WorkRecord)
    requires problems != [] && IsSaved(problems, |problems| - 1)
    requires SavedInOrder(packets, problems[..|problems| - 1], s)
    requires var last := problems[|problems| - 1]; last.Loaded? && (4 <= last.contest <= 6 ==> SavedFields(d, last, s))
    ensures SavedInOrder(packets + [d], problems, s)
  {
    hide SavedFields, IsSaved;
    var places := Places(problems[..|problems| - 1]);
    assert Places(problems) == places + [|problems| - 1];
    assert forall k | 0 <= k < |places| :: problems[places[k]] == problems[..|problems| - 1][places[k]];
  }

  /** Those of the snapshot's packets whose put succeeds. */
  function Survivors(e: Setup, ckpt: nat, problems: seq<Problem>, s: Stamp, m: Moment): seq<WorkRecord>
    requires ckpt < |m.files|
  {
    if problems == [] then [] else
      var init, last := problems[..|problems| - 1], problems[|problems| - 1];
      var kept := Savable(last) && Puts(e, SavedIn(e, ckpt, init, s, m), ckpt, false);
      Survivors(e, ckpt, init, s, m) + (if kept then [Stored(e.host, CheckpointRecord(last, s))] else [])
  }

  /** Whatever errors there are, the file then holds the survivors, and no other file has changed. */
  lemma {:induction false} RefreshHolds(e: Setup, ckpt: nat, problems: seq<Problem>, s: Stamp, m: Moment)
    requires ckpt < |m.files|
    ensures var r := SavedIn(e, ckpt, problems, s, Emptied(m, ckpt));
      && Holds(e.host, r.files[ckpt], Survivors(e, ckpt, problems, s, Emptied(m, ckpt)))
      && SameExcept(m.files, r.files, {ckpt})
  {
    hide Holds, Puts, Stored, CheckpointRecord, PutSlots;
    HoldsNothing(e.host);
    if problems != [] {
      var init, last := problems[..|problems| - 1], problems[|problems| - 1];
      RefreshHolds(e, ckpt, init, s, m);
      if Savable(last) {
        var before := SavedIn(e, ckpt, init, s, Emptied(m, ckpt));
        HoldsNext(e.host, before.files[ckpt], Survivors(e, ckpt, init, s, Emptied(m, ckpt)), CheckpointRecord(last, s));
      }
      assert Survivors(e, ckpt, init, s, Emptied(m, ckpt)) + [] == Survivors(e, ckpt, init, s, Emptied(m, ckpt));
    }
  }

  /** Without errors all survive. */
  lemma {:induction false} RefreshIsSnapshot(e: Setup, ckpt: nat, problems: seq<Problem>, s: Stamp, m: Moment)
    requires ckpt < |m.files| && Clean(e, m.ops, SavedIn(e, ckpt, problems, s, m).ops)
    ensures Survivors(e, ckpt, problems, s, m) == Snapshot(e.host, problems, s)
  {
    hide Stored, CheckpointRecord, PutSlots, FirstBlank;
    if problems != [] {
      var init := problems[..|problems| - 1];
      RefreshIsSnapshot(e, ckpt, init, s, m);
      assert Savable(problems[|problems| - 1]) ==> e.faults(SavedIn(e, ckpt, init, s, m).ops) == NO_FAULT;
    }
  }

  /** Without errors the file then holds the saved problems, in order, field by field, and nothing else. */
  lemma RefreshSavesFields(e: Setup, ckpt: nat, problems: seq<Problem>, s: Stamp, m: Moment)
    requires ckpt < |m.files| && Clean(e, m.ops, SavedIn(e, ckpt, problems, s, Emptied(m, ckpt)).ops)
    ensures var r := SavedIn(e, ckpt, problems, s, Emptied(m, ckpt));
      && SavedInOrder(Packets(e.host, r.files[ckpt]), problems, s)
      && SameExcept(m.files, r.files, {ckpt})
  {
    hide Packets, SavedIn, Survivors, SavedInOrder;
    RefreshHolds(e, ckpt, problems, s, m);
    RefreshIsSnapshot(e, ckpt, problems, s, Emptied(m, ckpt));
    SnapshotInOrder(e.host, problems, s);
  }

  /** The refresh part of CheckpointAction: the file is emptied, then each loaded problem is written to it. */
  method SaveProblems(c: Client, ckpt: nat, problems: seq<Problem>, s: Stamp)
    requires ckpt < |c.disk.files|
    modifies c.disk`files, c.disk`ops
    ensures c.Now() == SavedIn(c.Env(), ckpt, problems, s, Emptied(old(c.Now()), ckpt))
  {
    hide AfterPut, Puts, CheckpointRecord;
    c.disk.ZapFileRecords(ckpt);
    ghost var e, start := c.Env(), c.Now();
    var i := 0;
    while i < |problems|
      invariant 0 <= i <= |problems| && |c.disk.files| == |start.files|
      invariant c.Now() == SavedIn(e, ckpt, problems[..i], s, start)
    {
      assert problems[..i + 1][..i] == problems[..i];
      if Savable(problems[i]) {
        var _, _ := c.Store(ckpt, CheckpointRecord(problems[i], s), false);
      }
      i := i + 1;
    }
    assert problems[..i] == problems;
  }

  // ---- The actions ----

  /**
   * CheckpointAction. `enabled` says that checkpointing is configured, `present` that the file is there. Opening
   * recovers the packets, in n passes or fewer, then empties the file whatever happened to them.
   */
  method CheckpointAction(c: Client, action: Action, ckpt: nat, enabled: bool, present: bool, problems: seq<Problem>,
                          s: Stamp, init: WorkRecord, ghost n: nat)
    returns (disabled: bool, recovered: int)
    requires ImportReady(c.Env(), ckpt, c.Now())
    requires enabled && action == Open && present ==> ImportAfter(c.Env(), ckpt, c.Now(), n).Done?
    modifies c.disk`files, c.disk`ops
    ensures disabled == !enabled
    ensures !enabled ==> c.Now() == old(c.Now())
    ensures enabled && action == Close ==> c.Now() == Emptied(old(c.Now()), ckpt)
    ensures enabled && action == Refresh ==> c.Now() == SavedIn(c.Env(), ckpt, problems, s, Emptied(old(c.Now()), ckpt))
    ensures enabled && action == Open && !present ==> c.Now() == Emptied(old(c.Now()), ckpt) && recovered == -1
    ensures enabled && action == Open && present ==> var r := ImportResult(c.Env(), ckpt, old(c.Now()), n);
      c.Now() == Emptied(r.next, ckpt) && recovered == r.recovered
  {
    hide ImportAfter, ImportResult, SavedIn, Names;
    var act := action;
    recovered := 0;
    if act == Open && enabled {
      var _, found := ImportFileRecords(c, ckpt, present, init, n);
      recovered := found;
      act := Close;
    }
    if act == Refresh && enabled {
      SaveProblems(c, ckpt, problems, s);
    } else if act == Close && enabled {
      c.disk.ZapFileRecords(ckpt);
    }
    disabled := !enabled;
  }

  // ---- Refresh, crash, and open by a new client ----

  /**
   * Whatever errors there are: what is recovered is a front part of what the refresh saved; each packet of it is in the
   * buffer it belongs in, all other files are as before the refresh, and the checkpoint is empty.
   */
  lemma RecoveryKeeps(e: Setup, ckpt: nat, problems: seq<Problem>, s: Stamp, m: Moment, n: nat)
    requires Names(e.local, |m.files|) && e.limitsOk && ckpt < |m.files| && !IsLocal(e.local, ckpt)
    requires ImportAfter(e, ckpt, SavedIn(e, ckpt, problems, s, Emptied(m, ckpt)), n).Done?
    ensures var a := SavedIn(e, ckpt, problems, s, Emptied(m, ckpt));
      var r := ImportResult(e, ckpt, a, n); var next := Emptied(r.next, ckpt);
      && r.moved <= Survivors(e, ckpt, problems, s, Emptied(m, ckpt)) && r.recovered == |r.moved|
      && (forall c: nat, o | c < CONTEST_COUNT :: Delivered(e.host, m.files, next.files, e.local(c, o), r.moved, c, o))
      && (forall i: nat | i < |m.files| && i != ckpt && !IsLocal(e.local, i) :: next.files[i] == m.files[i])
      && next.files[ckpt] == []
  {
    hide Held, Packets, Names, ImportAfter, ImportResult, Survivors, SavedIn, Recognised, IsLocal, Delivered;
    hide OneContest, Trips, Clean, Holds;
    var a := SavedIn(e, ckpt, problems, s, Emptied(m, ckpt));
    var r := ImportResult(e, ckpt, a, n);
    RefreshHolds(e, ckpt, problems, s, m);
    HoldsPackets(e.host, a.files[ckpt], Survivors(e, ckpt, problems, s, Emptied(m, ckpt)));
    ImportLaw(e, ckpt, a, n);
    forall c: nat, o | c < CONTEST_COUNT
      ensures Delivered(e.host, m.files, Emptied(r.next, ckpt).files, e.local(c, o), r.moved, c, o) {
      NotTheCheckpoint(e, ckpt, m, c, o);
      assert Delivered(e.host, a.files, r.next.files, e.local(c, o), r.moved, c, o);
      var emptied := Emptied(r.next, ckpt).files;
      DeliveredAround(e.host, m.files, a.files, r.next.files, emptied, e.local(c, o), r.moved, c, o);
    }
  }

  lemma NotTheCheckpoint(e: Setup, ckpt: nat, m: Moment, c: nat, o: bool)
    requires Names(e.local, |m.files|) && !IsLocal(e.local, ckpt) && c < CONTEST_COUNT
    ensures e.local(c, o) != ckpt && e.local(c, o) < |m.files|
  {
    assert IsLocal(e.local, e.local(c, o));
  }

  lemma DeliveredAround(h: Host, a: seq<Slots>, b: seq<Slots>, d: seq<Slots>, e: seq<Slots>, id: nat,
                        moved: seq<WorkRecord>, c: nat, o: bool)
    requires Delivered(h, b, d, id, moved, c, o) && id < |a| && id < |e| && a[id] == b[id] && e[id] == d[id]
    ensures Delivered(h, a, e, id, moved, c, o)
  {
  }

  lemma HoldsPackets(h: Host, s: Slots, packets: seq<WorkRecord>)
    requires Holds(h, s, packets)
    ensures Packets(h, s) == packets
  {
  }

  /**
   * The client crashes after a refresh, and a new one opens the checkpoint. Without errors all packets come back, one
   * for each problem that could be saved, exactly when none is of a contest this build does not handle and their order
   * does not trip the shrink test; with one contest it never does.
   */
  lemma CrashAndRecover(e: Setup, ckpt: nat, problems: seq<Problem>, s: Stamp, m: Moment, n: nat)
    requires Names(e.local, |m.files|) && e.limitsOk && ckpt < |m.files| && !IsLocal(e.local, ckpt)
    requires var a := SavedIn(e, ckpt, problems, s, Emptied(m, ckpt));
      ImportAfter(e, ckpt, a, n).Done? && Clean(e, m.ops, ImportResult(e, ckpt, a, n).next.ops)
    ensures var r := ImportResult(e, ckpt, SavedIn(e, ckpt, problems, s, Emptied(m, ckpt)), n);
      var all := Snapshot(e.host, problems, s);
      && (r.moved == all && r.lost == multiset{} <==> (forall d | d in all :: Recognised(d)) && !Trips(all))
      && (r.moved == all ==> r.recovered == SavableCount(problems))
      && (AllHandled(problems) && OneContest(all) ==> r.moved == all)
      && (r.moved == all ==> SavedInOrder(r.moved, problems, s))
  {
    hide Held, Packets, Names, ImportAfter, ImportResult, Survivors, SavedIn, Recognised, IsLocal, Trips;
    hide OneContest, Holds, SavedInOrder;
    SnapshotInOrder(e.host, problems, s);
    var start := Emptied(m, ckpt);
    var a := SavedIn(e, ckpt, problems, s, start);
    var r, all := ImportResult(e, ckpt, a, n), Snapshot(e.host, problems, s);
    CleanParts(e, m.ops, a.ops, r.next.ops);
    RefreshIsSnapshot(e, ckpt, problems, s, start);
    RefreshHolds(e, ckpt, problems, s, m);
    HoldsPackets(e.host, a.files[ckpt], Survivors(e, ckpt, problems, s, start));
    ImportIsWholeIff(e, ckpt, a, n);
    RecoveryKeeps(e, ckpt, problems, s, m, n);
    SnapshotIsRecognised(e.host, problems, s);
    if OneContest(all) {
      OneContestNeverTrips(all);
    }
  }

  lemma CleanParts(e: Setup, a: nat, b: nat, c: nat)
    requires a <= b <= c && Clean(e, a, c)
    ensures Clean(e, a, b) && Clean(e, b, c)
  {
  }
}
