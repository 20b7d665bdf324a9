/** The buffer file as a sequence of record slots, and the bag of packets it stands for (buffpub.cpp). */
module SlotFile {
  import opened Records

  type Slots = seq<WorkRecord>

  /** The packets in the file, decoded, in slot order; a blank slot holds none. */
  function Packets(h: Host, s: Slots): seq<WorkRecord> {
    if s == [] then []
    else (if s[0] == BLANK then [] else [Switched(h, s[0])]) + Packets(h, s[1..])
  }

  function Bag(h: Host, s: Slots): multiset<WorkRecord> {
    multiset(Packets(h, s))
  }

  /** The packet a reader gets back after `data` was stored. */
  function Stored(h: Host, data: WorkRecord): WorkRecord {
    Switched(h, Switched(h, data))
  }

  predicate AllBlank(s: Slots) {
    forall i | 0 <= i < |s| :: s[i] == BLANK
  }

  function FirstLive(s: Slots): (k: nat)
    ensures k <= |s|
    ensures forall i | 0 <= i < k :: s[i] == BLANK
    ensures k < |s| ==> s[k] != BLANK
  {
    if s == [] || s[0] != BLANK then 0 else 1 + FirstLive(s[1..])
  }

  function FirstBlank(s: Slots): (k: nat)
    ensures k <= |s|
    ensures forall i | 0 <= i < k :: s[i] != BLANK
    ensures k < |s| ==> s[k] == BLANK
  {
    if s == [] || s[0] == BLANK then 0 else 1 + FirstBlank(s[1..])
  }

  function LastBlank(s: Slots): (k: nat)
    ensures k <= |s|
    ensures k < |s| ==> s[k] == BLANK && forall i | k < i < |s| :: s[i] != BLANK
    ensures k == |s| ==> forall i | 0 <= i < |s| :: s[i] != BLANK
  {
    if s == [] then 0
    else if s[|s| - 1] == BLANK then |s| - 1
    else var k := LastBlank(s[..|s| - 1]); if k == |s| - 1 then |s| else k
  }

  /** The slot BufferPutFileRecord writes: when it has to count it scans on, and the last blank slot wins. */
  function TargetSlot(s: Slots, counting: bool): (k: nat)
    ensures k <= |s|
    ensures k < |s| ==> s[k] == BLANK
    ensures k == |s| <==> forall i | 0 <= i < |s| :: s[i] != BLANK
  {
    if counting then LastBlank(s) else FirstBlank(s)
  }

  /** The first free slot if nobody asks for the count, and the last one otherwise. */
  lemma TargetSlotIs(s: Slots)
    ensures forall i | 0 <= i < TargetSlot(s, false) :: s[i] != BLANK
    ensures forall i | TargetSlot(s, true) < i < |s| :: s[i] != BLANK
    ensures BLANK in s ==> TargetSlot(s, false) < |s| && TargetSlot(s, true) < |s|
  {
  }

  /** The file after a successful put of `data`. */
  function PutSlots(h: Host, s: Slots, data: WorkRecord, counting: bool): Slots {
    var k := TargetSlot(s, counting);
    if k == |s| then s + [Switched(h, data)] else s[k := Switched(h, data)]
  }

  /** The file after a successful get; the record fetched is the one in slot FirstLive(s). */
  function GetSlots(s: Slots): Slots {
    var k := FirstLive(s);
    if k == |s| then []
    else if k == |s| - 1 then []
    else s[k := BLANK]
  }

  function CountContest(packets: seq<WorkRecord>, contest: int): nat {
    if packets == [] then 0
    else (if packets[0].contest == contest then 1 else 0) + CountContest(packets[1..], contest)
  }

  lemma {:induction false} PacketsAppend(h: Host, a: Slots, b: Slots)
    ensures Packets(h, a + b) == Packets(h, a) + Packets(h, b)
  {
    if a == [] {
      assert a + b == b;
    } else {
      assert (a + b)[1..] == a[1..] + b;
      PacketsAppend(h, a[1..], b);
    }
  }

  lemma {:induction false} PacketsOfBlanks(h: Host, s: Slots)
    requires AllBlank(s)
    ensures Packets(h, s) == []
  {
    if s != [] {
      PacketsOfBlanks(h, s[1..]);
    }
  }

  /** Splitting a file at slot k. */
  lemma {:induction false} PacketsAt(h: Host, s: Slots, k: nat)
    requires k < |s|
    ensures Packets(h, s) == Packets(h, s[..k])
                           + (if s[k] == BLANK then [] else [Switched(h, s[k])]) + Packets(h, s[k + 1..])
  {
    assert s == s[..k] + s[k..];
    PacketsAppend(h, s[..k], s[k..]);
  }

  /** Overwriting slot k replaces exactly the packet that was there. */
  lemma {:induction false} PacketsUpdate(h: Host, s: Slots, k: nat, r: WorkRecord)
    requires k < |s|
    ensures Packets(h, s[k := r]) == Packets(h, s[..k])
                                   + (if r == BLANK then [] else [Switched(h, r)]) + Packets(h, s[k + 1..])
  {
    var t := s[k := r];
    assert t[..k] == s[..k] && t[k + 1..] == s[k + 1..];
    PacketsAt(h, t, k);
  }

  lemma {:induction false} PacketCount(h: Host, s: Slots)
    ensures |Packets(h, s)| <= |s|
    ensures |Packets(h, s)| == |s| <==> forall i | 0 <= i < |s| :: s[i] != BLANK
    ensures Packets(h, s) == [] <==> AllBlank(s)
  {
    if s != [] {
      PacketCount(h, s[1..]);
      assert forall i | 1 <= i < |s| :: s[i] == s[1..][i - 1];
    }
  }

  /** A put adds the packet, once, and nothing else changes. */
  lemma {:induction false} PutAddsOne(h: Host, s: Slots, data: WorkRecord, counting: bool)
    ensures Bag(h, PutSlots(h, s, data, counting)) == Bag(h, s) + multiset{Stored(h, data)}
    ensures |Packets(h, PutSlots(h, s, data, counting))| == |Packets(h, s)| + 1
  {
    hide Switched;
    SwitchedIsNotBlank(h, data);
    var k, r := TargetSlot(s, counting), Switched(h, data);
    if k == |s| {
      PacketsAppend(h, s, [r]);
      assert Packets(h, [r]) == [Switched(h, r)];
    } else {
      PacketsAt(h, s, k);
      PacketsUpdate(h, s, k, r);
    }
  }

  /** The file grows by a put only when every slot is taken. */
  lemma {:induction false} PutGrowsOnlyWhenFull(h: Host, s: Slots, data: WorkRecord, counting: bool)
    ensures |PutSlots(h, s, data, counting)| ==
            if |Packets(h, s)| == |s| then |s| + 1 else |s|
  {
    PacketCount(h, s);
  }

  lemma {:induction false} FirstLiveSplit(h: Host, s: Slots)
    requires FirstLive(s) < |s|
    ensures Packets(h, s) == [Switched(h, s[FirstLive(s)])] + Packets(h, s[FirstLive(s) + 1..])
  {
    var k := FirstLive(s);
    PacketsAt(h, s, k);
    PacketsOfBlanks(h, s[..k]);
  }

  lemma {:induction false} GetLeavesRest(h: Host, s: Slots)
    requires FirstLive(s) < |s|
    ensures Packets(h, GetSlots(s)) == Packets(h, s[FirstLive(s) + 1..])
  {
    var k := FirstLive(s);
    if k == |s| - 1 {
      assert s[k + 1..] == [];
    } else {
      PacketsUpdate(h, s, k, BLANK);
      PacketsOfBlanks(h, s[..k]);
    }
  }

  /**
   * A get finds nothing exactly in a file without packets; otherwise it takes the first and leaves the others in their
   * order.
   */
  lemma {:induction false} GetTakesFirst(h: Host, s: Slots)
    ensures FirstLive(s) == |s| <==> Packets(h, s) == []
    ensures FirstLive(s) == |s| ==> GetSlots(s) == []
    ensures FirstLive(s) < |s| ==> Packets(h, s) == [Switched(h, s[FirstLive(s)])] + Packets(h, GetSlots(s))
  {
    PacketCount(h, s);
    if FirstLive(s) < |s| {
      FirstLiveSplit(h, s);
      GetLeavesRest(h, s);
    }
  }

  /** A get empties the file only when no packet would be left in it, and never changes its length otherwise. */
  lemma {:induction false} GetZapsOnlyBlanks(h: Host, s: Slots)
    ensures GetSlots(s) == [] ==> |Packets(h, s)| <= 1
    ensures GetSlots(s) == [] || |GetSlots(s)| == |s|
  {
    GetTakesFirst(h, s);
  }

  lemma {:induction false} CountContestBound(packets: seq<WorkRecord>, contest: int)
    ensures CountContest(packets, contest) <= |packets|
    ensures CountContest(packets, contest) == |packets| <==> forall p | p in packets :: p.contest == contest
  {
    if packets != [] {
      CountContestBound(packets[1..], contest);
      assert forall p :: p in packets <==> p == packets[0] || p in packets[1..];
    }
  }

  lemma {:induction false} CountContestAppend(a: seq<WorkRecord>, b: seq<WorkRecord>, contest: int)
    ensures CountContest(a + b, contest) == CountContest(a, contest) + CountContest(b, contest)
  {
    if a == [] {
      assert a + b == b;
    } else {
      assert (a + b)[1..] == a[1..] + b;
      CountContestAppend(a[1..], b, contest);
    }
  }

  /** The count of a contest depends on the packets and not on their order. */
  lemma {:induction false} CountByBag(a: seq<WorkRecord>, b: seq<WorkRecord>, contest: int)
    requires multiset(a) == multiset(b)
    ensures CountContest(a, contest) == CountContest(b, contest)
  {
    if a == [] {
      assert |multiset(b)| == 0;
    } else {
      hide CountContest;
      var rest := Without(b, a[0], contest);
      FirstOf(a, contest);
      SameRest(multiset(a[1..]), multiset(rest), a[0]);
      CountByBag(a[1..], rest, contest);
    }
  }

  lemma {:induction false} FirstOf(s: seq<WorkRecord>, contest: int)
    requires s != []
    ensures multiset(s) == multiset{s[0]} + multiset(s[1..])
    ensures CountContest(s, contest) == CountContest(s[1..], contest) + if s[0].contest == contest then 1 else 0
  {
    assert s == [s[0]] + s[1..];
  }

  lemma {:induction false} Without(s: seq<WorkRecord>, x: WorkRecord, contest: int) returns (rest: seq<WorkRecord>)
    requires x in multiset(s)
    ensures multiset(s) == multiset{x} + multiset(rest)
    ensures CountContest(s, contest) == CountContest(rest, contest) + if x.contest == contest then 1 else 0
  {
    var i :| 0 <= i < |s| && s[i] == x;
    rest := s[..i] + s[i + 1..];
    hide CountContest;
    CountSplit(s, i, contest);
  }

  lemma {:induction false} SameRest(a: multiset<WorkRecord>, b: multiset<WorkRecord>, x: WorkRecord)
    requires multiset{x} + a == multiset{x} + b
    ensures a == b
  {
    forall y ensures a[y] == b[y] {
      assert (multiset{x} + a)[y] == (multiset{x} + b)[y];
    }
  }

  lemma {:induction false} CountSplit(s: seq<WorkRecord>, i: nat, contest: int)
    requires i < |s|
    ensures CountContest(s, contest)
         == CountContest(s[..i] + s[i + 1..], contest) + if s[i].contest == contest then 1 else 0
    ensures multiset(s) == multiset{s[i]} + multiset(s[..i] + s[i + 1..])
  {
    assert s == s[..i] + ([s[i]] + s[i + 1..]);
    CountContestAppend(s[..i], [s[i]] + s[i + 1..], contest);
    CountContestAppend(s[..i], s[i + 1..], contest);
    assert ([s[i]] + s[i + 1..])[1..] == s[i + 1..];
    assert multiset(s[..i] + ([s[i]] + s[i + 1..])) == multiset(s[..i]) + (multiset{s[i]} + multiset(s[i + 1..]));
  }

  // ---- Runs of the file operations against a bag of packets ----

  datatype Op = Put(data: WorkRecord, counting: bool) | Get

  /** What a run has done so far; `peak` is the largest number of live packets since the file was last emptied. */
  datatype Run = Run(slots: Slots, put: multiset<WorkRecord>, got: multiset<WorkRecord>, peak: nat)

  function Step(h: Host, r: Run, op: Op): Run {
    match op
    case Put(data, counting) =>
      var s := PutSlots(h, r.slots, data, counting);
      var live := |Packets(h, s)|;
      Run(s, r.put + multiset{Stored(h, data)}, r.got, if live > r.peak then live else r.peak)
    case Get =>
      var k := FirstLive(r.slots);
      var s := GetSlots(r.slots);
      Run(s, r.put,
        if k < |r.slots| then r.got + multiset{Switched(h, r.slots[k])} else r.got,
        if s == [] then 0 else r.peak)
  }

  function RunOf(h: Host, ops: seq<Op>): Run {
    if ops == [] then Run([], multiset{}, multiset{}, 0)
    else Step(h, RunOf(h, ops[..|ops| - 1]), ops[|ops| - 1])
  }

  predicate Conserved(h: Host, r: Run) {
    && r.put == r.got + Bag(h, r.slots)
    && |r.slots| <= r.peak
    && |Packets(h, r.slots)| <= r.peak
  }

  lemma {:induction false} StepConserves(h: Host, r: Run, op: Op)
    requires Conserved(h, r)
    ensures Conserved(h, Step(h, r, op))
  {
    match op
    case Put(data, counting) =>
      PutAddsOne(h, r.slots, data, counting);
      PutGrowsOnlyWhenFull(h, r.slots, data, counting);
    case Get =>
      GetTakesFirst(h, r.slots);
      GetZapsOnlyBlanks(h, r.slots);
  }

  /** Over every run: nothing is lost or invented, and the file is never longer than the peak it had to hold. */
  lemma {:induction false} RunConservesPackets(h: Host, ops: seq<Op>)
    ensures Conserved(h, RunOf(h, ops))
  {
    if ops != [] {
      RunConservesPackets(h, ops[..|ops| - 1]);
      StepConserves(h, RunOf(h, ops[..|ops| - 1]), ops[|ops| - 1]);
    }
  }

  /** A get after any run succeeds exactly when more packets were put than taken, and yields one of the difference. */
  lemma {:induction false} GetAfterRun(h: Host, ops: seq<Op>)
    ensures var r := RunOf(h, ops);
      && (FirstLive(r.slots) < |r.slots| <==> r.put != r.got)
      && (FirstLive(r.slots) < |r.slots| ==> Switched(h, r.slots[FirstLive(r.slots)]) in r.put - r.got)
  {
    var r := RunOf(h, ops);
    RunConservesPackets(h, ops);
    GetTakesFirst(h, r.slots);
    if FirstLive(r.slots) < |r.slots| {
      assert Packets(h, r.slots)[0] in Bag(h, r.slots);
      assert r.put - r.got == Bag(h, r.slots);
    }
  }
}
