/** The buffer files and the four operations on them, with the I/O errors they can meet (buffpub.cpp). */
module Disk {
  import opened Records
  import opened SlotFile

  /** What goes wrong in one file operation: the open, the read of record `badRead` (-1 for none), or the write. */
  datatype Fault = Fault(openFails: bool, badRead: int, writeFails: bool)

  const NO_FAULT: Fault := Fault(false, -1, false)

  /** The return codes of a get: a record, an I/O error, or no record left. */
  datatype GetCode = Got | IoError | NoRecords

  function PutReads(s: Slots, counting: bool): nat {
    if counting || FirstBlank(s) == |s| then |s| else FirstBlank(s) + 1
  }

  predicate PutSucceeds(s: Slots, counting: bool, f: Fault) {
    !f.openFails && !(0 <= f.badRead < PutReads(s, counting)) && !f.writeFails
  }

  function GetResult(s: Slots, f: Fault): GetCode {
    if f.openFails || (0 <= f.badRead < |s| && f.badRead <= FirstLive(s)) then IoError
    else if FirstLive(s) == |s| then NoRecords
    else if f.writeFails then IoError
    else Got
  }

  predicate CountSucceeds(s: Slots, f: Fault) {
    !f.openFails && !(0 <= f.badRead < |s|)
  }

  /**
   * A put fails if the file cannot be opened or written, or a record it passes cannot be read: any one if it counts,
   * else one with no free slot before it.
   */
  lemma PutFailsIff(s: Slots, counting: bool, f: Fault)
    ensures PutSucceeds(s, counting, f) <==>
            && !f.openFails && !f.writeFails
            && (0 <= f.badRead < |s| ==> !counting && exists j | 0 <= j < f.badRead :: s[j] == BLANK)
  {
    if 0 <= f.badRead < |s| && !counting && FirstBlank(s) < f.badRead {
      assert s[FirstBlank(s)] == BLANK;
    }
  }

  /**
   * A get fails likewise, for a record that cannot be read with only free slots before it, or a file with packets that
   * cannot be written; it finds nothing in a file of free slots only.
   */
  lemma GetFailsIff(s: Slots, f: Fault)
    ensures GetResult(s, f) == IoError <==>
            || f.openFails
            || (0 <= f.badRead < |s| && forall j | 0 <= j < f.badRead :: s[j] == BLANK)
            || (f.writeFails && exists i | 0 <= i < |s| :: s[i] != BLANK)
    ensures GetResult(s, f) != IoError ==> (GetResult(s, f) == NoRecords <==> forall i | 0 <= i < |s| :: s[i] == BLANK)
  {
    if FirstLive(s) < |s| {
      assert s[FirstLive(s)] != BLANK;
    }
  }

  /** A count fails if the file cannot be opened or any record read. */
  lemma CountFailsIff(s: Slots, f: Fault)
    ensures CountSucceeds(s, f) <==> !f.openFails && (f.badRead < 0 || f.badRead >= |s|)
  {
  }

  /**
   * The stats units of the packets of one contest; a packet that cannot be rated has a negative rating and adds none.
   */
  function StatsUnits(swu: WorkRecord -> int, packets: seq<WorkRecord>, contest: int): nat {
    if packets == [] then 0 else
      var first := if packets[0].contest == contest && swu(packets[0]) >= 0 then swu(packets[0]) else 0;
      first + StatsUnits(swu, packets[1..], contest)
  }

  lemma {:induction false} StatsUnitsAppend(swu: WorkRecord -> int, a: seq<WorkRecord>, b: seq<WorkRecord>,
                                            contest: int)
    ensures StatsUnits(swu, a + b, contest) == StatsUnits(swu, a, contest) + StatsUnits(swu, b, contest)
  {
    if a == [] {
      assert a + b == b;
    } else {
      assert (a + b)[1..] == a[1..] + b;
      StatsUnitsAppend(swu, a[1..], b, contest);
    }
  }

  lemma PacketsNext(h: Host, s: Slots, n: nat)
    requires n < |s|
    ensures Packets(h, s[..n + 1]) == Packets(h, s[..n]) + if s[n] == BLANK then [] else [Switched(h, s[n])]
  {
    assert s[..n + 1] == s[..n] + [s[n]];
    PacketsAppend(h, s[..n], [s[n]]);
    assert [s[n]][1..] == [];
  }

  lemma CountOne(swu: WorkRecord -> int, p: WorkRecord, contest: int)
    ensures CountContest([p], contest) == if p.contest == contest then 1 else 0
    ensures StatsUnits(swu, [p], contest) == if p.contest == contest && swu(p) >= 0 then swu(p) else 0
  {
    assert [p][1..] == [];
  }

  lemma {:induction false} StatsSplit(swu: WorkRecord -> int, s: seq<WorkRecord>, i: nat, contest: int)
    requires i < |s|
    ensures StatsUnits(swu, s, contest)
         == StatsUnits(swu, s[..i] + s[i + 1..], contest) + StatsUnits(swu, [s[i]], contest)
    ensures multiset(s) == multiset{s[i]} + multiset(s[..i] + s[i + 1..])
  {
    hide StatsUnits;
    assert s == s[..i] + ([s[i]] + s[i + 1..]);
    StatsUnitsAppend(swu, s[..i], [s[i]] + s[i + 1..], contest);
    StatsUnitsAppend(swu, [s[i]], s[i + 1..], contest);
    StatsUnitsAppend(swu, s[..i], s[i + 1..], contest);
  }

  /** The units of a file depend on its bag of packets only. */
  lemma {:induction false} StatsByBag(swu: WorkRecord -> int, a: seq<WorkRecord>, b: seq<WorkRecord>, contest: int)
    requires multiset(a) == multiset(b)
    ensures StatsUnits(swu, a, contest) == StatsUnits(swu, b, contest)
  {
    if a == [] {
      assert |multiset(b)| == 0;
    } else {
      hide StatsUnits;
      assert a == [a[0]] + a[1..];
      assert a[0] in multiset(b);
      var i :| 0 <= i < |b| && b[i] == a[0];
      StatsSplit(swu, b, i, contest);
      StatsSplit(swu, a, 0, contest);
      assert a[..0] + a[1..] == a[1..];
      SameRest(multiset(a[1..]), multiset(b[..i] + b[i + 1..]), a[0]);
      StatsByBag(swu, a[1..], b[..i] + b[i + 1..], contest);
    }
  }

  /** Packets that are all rated, or all not: what the units of their contest are worth. */
  lemma {:induction false} RatedUnits(swu: WorkRecord -> int, s: seq<WorkRecord>, contest: int)
    ensures (forall p | p in s && p.contest == contest :: swu(p) > 0) ==>
              CountContest(s, contest) <= StatsUnits(swu, s, contest)
              && (CountContest(s, contest) == 0 ==> StatsUnits(swu, s, contest) == 0)
    ensures (forall p | p in s && p.contest == contest :: swu(p) <= 0) ==> StatsUnits(swu, s, contest) == 0
  {
    if s != [] {
      RatedUnits(swu, s[1..], contest);
    }
  }

  /** Equal ratings add up, and packets of other contests do not count. */
  lemma {:induction false} EqualUnits(swu: WorkRecord -> int, s: seq<WorkRecord>, contest: int, rating: nat)
    requires forall p | p in s && p.contest == contest :: swu(p) == rating
    ensures StatsUnits(swu, s, contest) == rating * CountContest(s, contest)
  {
    if s != [] {
      EqualUnits(swu, s[1..], contest, rating);
      assert rating * (1 + CountContest(s[1..], contest)) == rating + rating * CountContest(s[1..], contest);
    }
  }

  lemma CountNext(h: Host, swu: WorkRecord -> int, s: Slots, n: nat, contest: int)
    requires n < |s|
    ensures var scratch := Switched(h, s[n]);
            var counted := s[n] != BLANK && scratch.contest == contest;
      && CountContest(Packets(h, s[..n + 1]), contest)
         == CountContest(Packets(h, s[..n]), contest) + (if counted then 1 else 0)
      && StatsUnits(swu, Packets(h, s[..n + 1]), contest)
         == StatsUnits(swu, Packets(h, s[..n]), contest) + (if counted && swu(scratch) >= 0 then swu(scratch) else 0)
  {
    PacketsNext(h, s, n);
    if s[n] != BLANK {
      var scratch := Switched(h, s[n]);
      CountContestAppend(Packets(h, s[..n]), [scratch], contest);
      StatsUnitsAppend(swu, Packets(h, s[..n]), [scratch], contest);
      CountOne(swu, scratch, contest);
    } else {
      assert Packets(h, s[..n + 1]) == Packets(h, s[..n]);
    }
  }

  /** The scan of a put: where to write, and how many live records were passed. */
  method ScanForSlot(h: Host, slots: Slots, fault: Fault, counting: bool) returns (ok: bool, writerec: nat, count: nat)
    ensures ok == !(0 <= fault.badRead < PutReads(slots, counting))
    ensures ok ==> writerec == TargetSlot(slots, counting)
    ensures ok && counting ==> count == |Packets(h, slots)|
  {
    ok, count := true, 0;
    var recno := 0;
    writerec := |slots|;
    while ok && recno < |slots|
      invariant 0 <= recno <= |slots| && 0 <= writerec <= |slots|
      invariant writerec == |slots| ==> forall i | 0 <= i < recno :: slots[i] != BLANK
      invariant writerec < |slots| ==> counting && writerec < recno && slots[writerec] == BLANK
      invariant forall i | writerec < i < recno :: slots[i] != BLANK
      invariant count == |Packets(h, slots[..recno])|
      invariant if ok then !(0 <= fault.badRead < recno) else 0 <= fault.badRead < PutReads(slots, counting)
      decreases ok, |slots| - recno
    {
      if recno == fault.badRead {
        ok := false;
      } else {
        PacketsNext(h, slots, recno);
        if slots[recno] != BLANK {
          count := count + 1;
        } else {
          writerec := recno;
          if !counting {
            break;
          }
        }
        recno := recno + 1;
      }
    }
    assert ok && counting ==> slots[..recno] == slots;
  }

  /**
   * All buffer files of one machine. Two names of the same file are the same index into `files`;
   * a file that does not exist yet has no slots.
   */
  class BufferFiles {
    const host: Host
    const faults: nat -> Fault // the fault of each file operation, in the order they are made
    const swu: WorkRecord -> int
    var files: seq<Slots>
    var ops: nat

    constructor (host: Host, faults: nat -> Fault, swu: WorkRecord -> int, files: seq<Slots>)
      ensures this.host == host && this.faults == faults && this.swu == swu && this.files == files && ops == 0
    {
      this.host, this.faults, this.swu, this.files, this.ops := host, faults, swu, files, 0;
    }

    method ZapFileRecords(id: nat)
      requires id < |files|
      modifies this`files
      ensures files == old(files)[id := []]
    {
      files := files[id := []];
    }

    /** `counting` says whether the caller passed a place for the count. */
    method PutFileRecord(id: nat, data: WorkRecord, counting: bool) returns (ok: bool, count: nat)
      requires id < |files|
      modifies this`files, this`ops
      ensures ops == old(ops) + 1
      ensures ok == PutSucceeds(old(files)[id], counting, faults(old(ops)))
      ensures files == if ok then old(files)[id := PutSlots(host, old(files)[id], data, counting)] else old(files)
      ensures ok && counting ==> count == |Packets(host, old(files)[id])| + 1
    {
      var fault, slots := faults(ops), files[id];
      ops := ops + 1;
      ok, count := !fault.openFails, 0;
      if ok {
        var writerec: nat;
        ok, writerec, count := ScanForSlot(host, slots, fault, counting);
        if ok && fault.writeFails {
          ok := false;
        } else if ok {
          var scratch := Switched(host, data);
          files := files[id := if writerec == |slots| then slots + [scratch] else slots[writerec := scratch]];
          count := count + 1;
        }
      }
    }

    method CountFileRecords(id: nat, contest: int) returns (ok: bool, packets: nat, units: nat)
      requires id < |files|
      modifies this`ops
      ensures ops == old(ops) + 1
      ensures ok == CountSucceeds(files[id], faults(old(ops)))
      ensures packets == if ok then CountContest(Packets(host, files[id]), contest) else 0
      ensures units == if ok then StatsUnits(swu, Packets(host, files[id]), contest) else 0
    {
      var fault, slots := faults(ops), files[id];
      ops := ops + 1;
      ok, packets, units := !fault.openFails, 0, 0;
      if !ok {
        return;
      }
      var recno := 0;
      while ok && recno < |slots|
        invariant 0 <= recno <= |slots|
        invariant packets == CountContest(Packets(host, slots[..recno]), contest)
        invariant units == StatsUnits(swu, Packets(host, slots[..recno]), contest)
        invariant if ok then !(0 <= fault.badRead < recno) else 0 <= fault.badRead < |slots|
        modifies {}
        decreases ok, |slots| - recno
      {
        if recno == fault.badRead {
          ok := false;
        } else {
          CountNext(host, swu, slots, recno, contest);
          if slots[recno] != BLANK {
            var scratch := Switched(host, slots[recno]);
            if scratch.contest == contest {
              packets := packets + 1;
              if swu(scratch) >= 0 {
                units := units + swu(scratch);
              }
            }
          }
          recno := recno + 1;
        }
      }
      if ok {
        assert slots[..recno] == slots;
      } else {
        packets, units := 0, 0;
      }
    }

    /** The count reported is that of the fetched packet's own contest, and zero when counting fails. */
    method GetFileRecord(id: nat, init: WorkRecord) returns (rc: GetCode, data: WorkRecord, count: nat)
      requires id < |files|
      modifies this`files, this`ops
      ensures rc == GetResult(old(files)[id], faults(old(ops)))
      ensures ops == old(ops) + if rc == Got then 2 else 1
      ensures files == if rc == IoError then old(files) else old(files)[id := GetSlots(old(files)[id])]
      ensures data == if rc == Got then Switched(host, old(files)[id][FirstLive(old(files)[id])]) else init
      ensures count == if rc == Got && CountSucceeds(files[id], faults(old(ops) + 1))
                       then CountContest(Packets(host, files[id]), data.contest) else 0
    {
      var fault, slots := faults(ops), files[id];
      ops := ops + 1;
      data, count, rc := init, 0, IoError;
      if fault.openFails {
        return;
      }
      var recno, blanked := 0, 0;
      rc := NoRecords;
      while rc == NoRecords && recno < |slots|
        invariant 0 <= recno <= |slots| && blanked == recno
        invariant forall i | 0 <= i < recno :: slots[i] == BLANK
        invariant rc == NoRecords || rc == IoError
        invariant ops == old(ops) + 1
        invariant rc == NoRecords ==> !(0 <= fault.badRead < recno) && data == init && files == old(files)
        invariant rc == IoError ==>
          recno < |slots| && GetResult(slots, fault) == IoError && data == init && files == old(files)
        decreases rc == NoRecords, |slots| - recno
      {
        if recno == fault.badRead {
          rc := IoError;
        } else if slots[recno] == BLANK {
          blanked, recno := blanked + 1, recno + 1;
        } else if fault.writeFails {
          rc := IoError;
        } else {
          files := files[id := slots[recno := BLANK]];
          blanked, data, rc := blanked + 1, Switched(host, slots[recno]), Got;
          break;
        }
      }
      if |slots| > 0 && |slots| == blanked {
        ZapFileRecords(id);
      }
      if rc == Got {
        var counted, packets, _ := CountFileRecords(id, data.contest);
        count := packets;
      } else {
        assert rc == NoRecords && slots == [] ==> files[id] == GetSlots(slots);
      }
    }
  }
}
