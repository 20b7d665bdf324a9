/** Fetching packets from a remote buffer file into this client's buffers (buffbase.cpp). */
module Fetch {
  import opened Records
  import opened SlotFile
  import opened Disk
  import opened Routing
  import opened Buffers

  // ---- How much to fetch ----

  function StatsOrPackets(packets: nat, units: nat): nat {
    if units == 0 then packets * 100 else units
  }

  /** How many stats units an in-buffer still lacks: BufferReComputeUnitsToFetch once its inputs are known. */
  function UnitsToFetch(packets: nat, units: nat, threshold: nat, crunchers: nat): (need: nat)
    ensures need == 0 <==> StatsOrPackets(packets, units) >= threshold && packets >= crunchers
    ensures StatsOrPackets(packets, units) < threshold ==> need + StatsOrPackets(packets, units) == threshold
    ensures StatsOrPackets(packets, units) >= threshold && packets < crunchers ==>
      need + 100 * packets == 100 * crunchers
  {
    var have := StatsOrPackets(packets, units);
    if have < threshold then threshold - have
    else if packets < crunchers then 100 * (crunchers - packets)
    else 0
  }

  /** What the fetch threshold of one contest depends on. */
  datatype Demand = Demand(threshold: nat, limit: nat, crunchers: nat)

  /** The threshold actually used: no more than a full buffer of one-unit packets. */
  function EffectiveThreshold(d: Demand): nat {
    if d.threshold > d.limit * 100 then d.limit * 100 else d.threshold
  }

  predicate Countable(e: Setup, m: Moment, id: nat)
    requires id < |m.files|
  {
    CountSucceeds(m.files[id], e.faults(m.ops))
  }

  predicate Full(e: Setup, m: Moment, contest: nat, d: Demand)
    requires e.local(contest, false) < |m.files|
  {
    CountContest(Packets(e.host, m.files[e.local(contest, false)]), contest) >= d.limit
  }

  /** A buffer that cannot be counted is taken to be full, and so is one the second count fails on. */
  function Need(e: Setup, m: Moment, contest: nat, d: Demand): nat
    requires e.local(contest, false) < |m.files|
  {
    var id := e.local(contest, false);
    var p := Packets(e.host, m.files[id]);
    if !Countable(e, m, id) || Full(e, m, contest, d) || !e.limitsOk || !Countable(e, m.(ops := m.ops + 1), id) then 0
    else UnitsToFetch(CountContest(p, contest), StatsUnits(e.swu, p, contest), EffectiveThreshold(d), d.crunchers)
  }

  function AfterNeed(e: Setup, m: Moment, contest: nat, d: Demand): (r: Moment)
    requires e.local(contest, false) < |m.files|
    ensures r.files == m.files && m.ops < r.ops <= m.ops + 2
  {
    var second := Countable(e, m, e.local(contest, false)) && !Full(e, m, contest, d) && e.limitsOk;
    m.(ops := m.ops + if second then 2 else 1)
  }

  /** The in-buffer is full, or has what the threshold and the crunchers ask for. */
  predicate Met(e: Setup, m: Moment, contest: nat, d: Demand)
    requires e.local(contest, false) < |m.files|
  {
    var p := Packets(e.host, m.files[e.local(contest, false)]);
    var packets, units := CountContest(p, contest), StatsUnits(e.swu, p, contest);
    packets >= d.limit || (StatsOrPackets(packets, units) >= EffectiveThreshold(d) && packets >= d.crunchers)
  }

  /** Without errors nothing is needed exactly when the buffer has enough. */
  lemma NothingNeededIffMet(e: Setup, m: Moment, contest: nat, d: Demand)
    requires e.local(contest, false) < |m.files| && e.limitsOk && Clean(e, m.ops, AfterNeed(e, m, contest, d).ops)
    ensures Need(e, m, contest, d) == 0 <==> Met(e, m, contest, d)
  {
    hide Packets, CountContest, StatsUnits;
    assert e.faults(m.ops) == NO_FAULT;
    if !Full(e, m, contest, d) {
      assert e.faults(m.ops + 1) == NO_FAULT;
    }
  }

  /** A buffer that cannot be counted, at the first or the second time, needs nothing, and nor does a full one. */
  lemma UncountedNeedsNothing(e: Setup, m: Moment, contest: nat, d: Demand)
    requires e.local(contest, false) < |m.files|
    ensures e.faults(m.ops).openFails || e.faults(m.ops + 1).openFails ==> Need(e, m, contest, d) == 0
    ensures CountContest(Packets(e.host, m.files[e.local(contest, false)]), contest) >= d.limit ==>
      Need(e, m, contest, d) == 0 && (e.faults(m.ops) == NO_FAULT ==> AfterNeed(e, m, contest, d).ops == m.ops + 1)
  {
    hide Packets, CountContest, StatsUnits;
  }

  /** BufferReComputeUnitsToFetch on files. */
  method ReComputeUnitsToFetch(c: Client, contest: nat, d: Demand) returns (need: nat)
    requires c.local(contest, false) < |c.disk.files|
    modifies c.disk`ops
    ensures need == Need(c.Env(), old(c.Now()), contest, d)
    ensures c.Now() == AfterNeed(c.Env(), old(c.Now()), contest, d)
  {
    hide Packets, CountContest, StatsUnits, CountSucceeds;
    need := 0;
    var src := c.local(contest, false);
    var ok, packets, units := c.disk.CountFileRecords(src, contest);
    var full := !ok || packets >= d.limit;
    if !full && c.limitsOk {
      ok, packets, units := c.disk.CountFileRecords(src, contest);
      if ok {
        need := UnitsToFetch(packets, units, EffectiveThreshold(d), d.crunchers);
      }
    }
  }

  // ---- Fetch ----

  /** The files a fetch of one contest works on. */
  datatype Route = Route(contest: nat, remote: nat, inFile: nat, outFile: nat) {
    ghost predicate InRange(count: nat) {
      contest < CONTEST_COUNT && remote < count && inFile < count && outFile < count && inFile != outFile
    }
    /** The remote file is not one of the contest's own buffers. */
    predicate Apart() {
      remote != inFile && remote != outFile
    }
  }

  /**
   * What a fetch may do to the files: `moved` went from the remote file to the buffers of the contest, each to the one
   * it belongs in, `lost` is gone, and everything else is where it was. The remote file may be one of these buffers.
   */
  ghost predicate Fetched(h: Host, r: Route, a: seq<Slots>, b: seq<Slots>, moved: seq<WorkRecord>,
                          lost: multiset<WorkRecord>) {
    && r.InRange(|a|) && SameExcept(a, b, {r.remote, r.inFile, r.outFile})
    && Held(h, a) == Held(h, b) + lost
    && Flow(h, r, a, b, moved, lost, r.remote) && Flow(h, r, a, b, moved, lost, r.inFile)
    && Flow(h, r, a, b, moved, lost, r.outFile)
  }

  /** Those of the packets moved that went into one file. */
  function Into(r: Route, moved: seq<WorkRecord>, id: nat): multiset<WorkRecord> {
    (if id == r.inFile then multiset(Routed(moved, r.contest, false)) else multiset{})
    + (if id == r.outFile then multiset(Routed(moved, r.contest, true)) else multiset{})
  }

  function OutOf(r: Route, moved: seq<WorkRecord>, lost: multiset<WorkRecord>, id: nat): multiset<WorkRecord> {
    if id == r.remote then multiset(moved) + lost else multiset{}
  }

  /** What was moved into one file and out of it, which may be the same packets. */
  ghost predicate Flow(h: Host, r: Route, a: seq<Slots>, b: seq<Slots>, moved: seq<WorkRecord>,
                       lost: multiset<WorkRecord>, id: nat)
    requires id < |a| == |b|
  {
    Bag(h, a[id]) + Into(r, moved, id) == Bag(h, b[id]) + OutOf(r, moved, lost, id)
  }

  lemma FetchedNothing(h: Host, r: Route, a: seq<Slots>)
    requires r.InRange(|a|)
    ensures Fetched(h, r, a, a, [], multiset{})
  {
  }

  /** What a get does to one file. */
  lemma FlowTaken(h: Host, r: Route, a: seq<Slots>, b: seq<Slots>, got: seq<WorkRecord>, id: nat)
    requires TakeEffect(h, a, b, r.remote, got) && id < |a|
    ensures |b| == |a| && Flow(h, r, a, b, [], multiset(got), id)
  {
    hide Held, Packets;
    assert multiset(got + Packets(h, b[r.remote])) == multiset(got) + multiset(Packets(h, b[r.remote]));
  }

  lemma SomethingGone(h: Host, r: Route, a: seq<Slots>, b: seq<Slots>, data: WorkRecord)
    requires r.InRange(|a|) && TakeEffect(h, a, b, r.remote, [data])
    ensures Fetched(h, r, a, b, [], multiset{data})
  {
    hide Held, Packets, Flow;
    FlowTaken(h, r, a, b, [data], r.remote);
    FlowTaken(h, r, a, b, [data], r.inFile);
    FlowTaken(h, r, a, b, [data], r.outFile);
    assert multiset([data]) == multiset{data};
  }

  function OnlyAt(id: nat, at: nat, data: WorkRecord): multiset<WorkRecord> {
    if id == at then multiset{data} else multiset{}
  }

  lemma BagTaken(h: Host, a: seq<Slots>, b: seq<Slots>, remote: nat, data: WorkRecord, id: nat)
    requires TakeEffect(h, a, b, remote, [data]) && id < |a|
    ensures |b| == |a| && Bag(h, a[id]) == Bag(h, b[id]) + OnlyAt(id, remote, data)
  {
    hide Held, Packets;
    MultisetOfBoth([data], Packets(h, b[remote]));
  }

  lemma BagStored(h: Host, b: seq<Slots>, c: seq<Slots>, target: nat, data: WorkRecord, id: nat)
    requires StoreEffect(h, b, c, target, [data]) && id < |b|
    ensures |c| == |b| && Bag(h, c[id]) == Bag(h, b[id]) + OnlyAt(id, target, data)
  {
    hide Held, Packets;
  }

  lemma PutBack(h: Host, r: Route, a: seq<Slots>, b: seq<Slots>, c: seq<Slots>, data: WorkRecord)
    requires r.InRange(|a|) && TakeEffect(h, a, b, r.remote, [data]) && StoreEffect(h, b, c, r.remote, [data])
    ensures Fetched(h, r, a, c, [], multiset{})
  {
    hide Held, Packets, Bag;
    assert SameExcept(a, c, {r.remote, r.inFile, r.outFile});
    hide SameExcept;
    forall id: nat | id < |a| ensures Bag(h, c[id]) == Bag(h, a[id]) {
      BagTaken(h, a, b, r.remote, data, id);
      BagStored(h, b, c, r.remote, data, id);
    }
  }

  /** What a move of one packet does to one file. */
  lemma FlowMoved(h: Host, r: Route, a: seq<Slots>, b: seq<Slots>, c: seq<Slots>, data: WorkRecord, id: nat)
    requires r.InRange(|a|) && TakeEffect(h, a, b, r.remote, [data]) && Recognised(data) && data.contest == r.contest
    requires StoreEffect(h, b, c, if GoesOut(data) then r.outFile else r.inFile, [data]) && id < |a|
    ensures |c| == |a| && Flow(h, r, a, c, [data], multiset{}, id)
  {
    hide Held, Packets, Bag, Recognised, GoesOut, Into, SameExcept;
    var target := if GoesOut(data) then r.outFile else r.inFile;
    IntoOne(r, data, id);
    BagTaken(h, a, b, r.remote, data, id);
    BagStored(h, b, c, target, data, id);
    MovedSum(Bag(h, a[id]), Bag(h, b[id]), Bag(h, c[id]), OnlyAt(id, r.remote, data), OnlyAt(id, target, data));
    assert multiset([data]) == multiset{data};
  }

  lemma MovedSum(a: multiset<WorkRecord>, b: multiset<WorkRecord>, c: multiset<WorkRecord>, o: multiset<WorkRecord>,
                 i: multiset<WorkRecord>)
    requires a == b + o && c == b + i
    ensures a + i == c + o
  {
  }

  lemma IntoOne(r: Route, data: WorkRecord, id: nat)
    requires r.inFile != r.outFile && Recognised(data) && data.contest == r.contest
    ensures Into(r, [data], id) == OnlyAt(id, if GoesOut(data) then r.outFile else r.inFile, data)
  {
    hide Recognised, GoesOut, Routed;
    RoutedSingle(data, r.contest);
    assert multiset([data]) == multiset{data};
  }

  lemma MovedOne(h: Host, r: Route, a: seq<Slots>, b: seq<Slots>, c: seq<Slots>, data: WorkRecord)
    requires r.InRange(|a|) && TakeEffect(h, a, b, r.remote, [data]) && Recognised(data) && data.contest == r.contest
    requires StoreEffect(h, b, c, if GoesOut(data) then r.outFile else r.inFile, [data])
    ensures Fetched(h, r, a, c, [data], multiset{})
  {
    hide Held, Packets, Recognised, GoesOut, SameExcept, Routed, Flow;
    var target, touched := if GoesOut(data) then r.outFile else r.inFile, {r.remote, r.inFile, r.outFile};
    SameExceptThen(a, b, c, {r.remote}, {target}, touched);
    FlowMoved(h, r, a, b, c, data, r.remote);
    FlowMoved(h, r, a, b, c, data, r.inFile);
    FlowMoved(h, r, a, b, c, data, r.outFile);
  }

  lemma RoutedSingle(p: WorkRecord, contest: nat)
    requires Recognised(p) && p.contest == contest
    ensures Routed([p], contest, GoesOut(p)) == [p] && Routed([p], contest, !GoesOut(p)) == []
  {
    hide Recognised, GoesOut;
    RoutedNext([], p, contest, true);
    RoutedNext([], p, contest, false);
    assert [] + [p] == [p];
  }

  lemma {:induction false} FlowThen(h: Host, r: Route, a: seq<Slots>, b: seq<Slots>, c: seq<Slots>,
                                    first: seq<WorkRecord>, rest: seq<WorkRecord>, lost: multiset<WorkRecord>, id: nat)
    requires id < |a| == |b| == |c| && Flow(h, r, a, b, first, multiset{}, id) && Flow(h, r, b, c, rest, lost, id)
    ensures Flow(h, r, a, c, first + rest, lost, id)
  {
    hide Bag, Into;
    IntoThen(r, first, rest, id);
    assert multiset(first + rest) == multiset(first) + multiset(rest);
    FlowSum(Bag(h, a[id]), Bag(h, b[id]), Bag(h, c[id]), Into(r, first, id), Into(r, rest, id),
            OutOf(r, first, multiset{}, id), OutOf(r, rest, lost, id));
  }

  lemma FlowSum(a: multiset<WorkRecord>, b: multiset<WorkRecord>, c: multiset<WorkRecord>, i1: multiset<WorkRecord>,
                i2: multiset<WorkRecord>, o1: multiset<WorkRecord>, o2: multiset<WorkRecord>)
    requires a + i1 == b + o1 && b + i2 == c + o2
    ensures a + (i1 + i2) == c + (o1 + o2)
  {
    assert a + (i1 + i2) == (a + i1) + i2 == (b + i2) + o1;
  }

  lemma IntoThen(r: Route, first: seq<WorkRecord>, rest: seq<WorkRecord>, id: nat)
    ensures Into(r, first + rest, id) == Into(r, first, id) + Into(r, rest, id)
  {
    hide Routed;
    RoutedAppend(first, rest, r.contest, false);
    RoutedAppend(first, rest, r.contest, true);
    MultisetOfBoth(Routed(first, r.contest, false), Routed(rest, r.contest, false));
    MultisetOfBoth(Routed(first, r.contest, true), Routed(rest, r.contest, true));
  }

  lemma MultisetOfBoth(a: seq<WorkRecord>, b: seq<WorkRecord>)
    ensures multiset(a + b) == multiset(a) + multiset(b)
  {
  }

  lemma {:induction false} FetchedThen(h: Host, r: Route, a: seq<Slots>, b: seq<Slots>, c: seq<Slots>,
                                       first: seq<WorkRecord>, rest: seq<WorkRecord>, lost: multiset<WorkRecord>)
    requires Fetched(h, r, a, b, first, multiset{}) && Fetched(h, r, b, c, rest, lost)
    ensures Fetched(h, r, a, c, first + rest, lost)
  {
    var touched := {r.remote, r.inFile, r.outFile};
    assert |a| == |b| == |c|;
    hide Held, Bag, Routed, SameExcept, Flow;
    SameExceptThen(a, b, c, touched, touched, touched);
    FlowThen(h, r, a, b, c, first, rest, lost, r.remote);
    FlowThen(h, r, a, b, c, first, rest, lost, r.inFile);
    FlowThen(h, r, a, b, c, first, rest, lost, r.outFile);
  }

  lemma RemoteShrinks(h: Host, r: Route, a: seq<Slots>, b: seq<Slots>, c: seq<Slots>, data: WorkRecord)
    requires r.InRange(|a|) && TakeEffect(h, a, b, r.remote, [data])
    requires StoreEffect(h, b, c, if GoesOut(data) then r.outFile else r.inFile, [data])
    ensures var target := if GoesOut(data) then r.outFile else r.inFile;
      |c| == |a| && |Packets(h, c[r.remote])| == |Packets(h, a[r.remote])| - (if target == r.remote then 0 else 1)
  {
    hide Held, Packets, GoesOut;
    var target := if GoesOut(data) then r.outFile else r.inFile;
    assert target != r.remote ==> c[r.remote] == b[r.remote];
  }

  lemma TookNothing(h: Host, r: Route, a: seq<Slots>, b: seq<Slots>)
    requires r.InRange(|a|) && TakeEffect(h, a, b, r.remote, [])
    ensures Fetched(h, r, a, b, [], multiset{})
  {
    hide Held, Packets, Flow;
    FlowTaken(h, r, a, b, [], r.remote);
    FlowTaken(h, r, a, b, [], r.inFile);
    FlowTaken(h, r, a, b, [], r.outFile);
  }

  /**
   * The misconfiguration the loop detection is for: the remote file is the in-buffer itself, full of work of its
   * contest.
   */
  ghost predicate OwnInBuffer(h: Host, r: Route, files: seq<Slots>)
    requires r.remote < |files|
  {
    r.remote == r.inFile && forall p | p in Bag(h, files[r.remote]) :: Matches(p, r.contest, false)
  }

  lemma OwnInBufferKept(h: Host, r: Route, a: seq<Slots>, b: seq<Slots>, c: seq<Slots>, data: WorkRecord)
    requires r.InRange(|a|) && TakeEffect(h, a, b, r.remote, [data])
    requires StoreEffect(h, b, c, if GoesOut(data) then r.outFile else r.inFile, [data])
    requires OwnInBuffer(h, r, a)
    ensures |c| == |a| && OwnInBuffer(h, r, c) && |Packets(h, c[r.remote])| == |Packets(h, a[r.remote])|
    ensures !GoesOut(data)
  {
    hide Held, Packets, Recognised, GoesOut;
    assert data in [data] + Packets(h, b[r.remote]);
    assert data in Bag(h, a[r.remote]);
    assert multiset([data] + Packets(h, b[r.remote])) == multiset{data} + multiset(Packets(h, b[r.remote]));
    assert Bag(h, c[r.remote]) == Bag(h, a[r.remote]);
  }

  // ---- Fetch, one packet at a time ----

  function RouteOf(e: Setup, contest: nat, remote: nat): Route {
    Route(contest, remote, e.local(contest, false), e.local(contest, true))
  }

  ghost predicate FetchReady(e: Setup, m: Moment, contest: nat, remote: nat) {
    Named(e, m) && contest < CONTEST_COUNT && e.local(contest, false) < |m.files| && remote < |m.files|
  }

  lemma RouteInRange(e: Setup, contest: nat, remote: nat, count: nat)
    requires Names(e.local, count) && contest < CONTEST_COUNT && remote < count
    ensures RouteOf(e, contest, remote).InRange(count)
  {
    NamesDiffer(e.local, count, contest, false, contest, true);
  }

  /** The packet at the front of the remote file is of the contest and can be saved here. */
  predicate Fetches(e: Setup, m: Moment, contest: nat, remote: nat)
    requires Named(e, m) && remote < |m.files|
  {
    && Gets(e, m, remote)
    && Front(e, m, remote).contest == contest
    && Saves(e, AfterGet(e, m, remote), Front(e, m, remote))
  }

  /** The state in which a packet that cannot be used here is put back into the remote file. */
  function BeforePutBack(e: Setup, m: Moment, contest: nat, remote: nat): (r: Moment)
    requires Named(e, m) && remote < |m.files| && Gets(e, m, remote)
    ensures |r.files| == |m.files| && m.ops + 2 <= r.ops <= m.ops + 3
  {
    var data := Front(e, m, remote);
    if data.contest == contest then AfterSave(e, AfterGet(e, m, remote), data) else AfterGet(e, m, remote)
  }

  predicate PutsBack(e: Setup, m: Moment, contest: nat, remote: nat)
    requires Named(e, m) && remote < |m.files| && Gets(e, m, remote)
  {
    Puts(e, BeforePutBack(e, m, contest, remote), remote, false)
  }

  function AfterFetch(e: Setup, m: Moment, contest: nat, remote: nat): (r: Moment)
    requires Named(e, m) && remote < |m.files|
    ensures |r.files| == |m.files| && m.ops < r.ops <= m.ops + 4
  {
    if !Gets(e, m, remote) then AfterGet(e, m, remote)
    else if Fetches(e, m, contest, remote) then BeforePutBack(e, m, contest, remote)
    else AfterPut(e, BeforePutBack(e, m, contest, remote), remote, Front(e, m, remote), false)
  }

  datatype FetchEnd = Satisfied | Interrupted | RemoteError | RemoteEmpty | WrongContest | LocalFailed | LoopDetected

  /** Why a fetch stops at a packet it cannot use. */
  function Refusal(e: Setup, m: Moment, contest: nat, remote: nat): FetchEnd
    requires remote < |m.files|
  {
    if !Gets(e, m, remote) then
      if GetResult(m.files[remote], e.faults(m.ops)) == IoError then RemoteError else RemoteEmpty
    else if Front(e, m, remote).contest != contest then WrongContest
    else LocalFailed
  }

  /** How many packets the local buffer of the fetched packet then holds. */
  function InBuffer(e: Setup, m: Moment, contest: nat, remote: nat): nat
    requires Named(e, m) && remote < |m.files| && Fetches(e, m, contest, remote)
  {
    HomeCount(e, AfterGet(e, m, remote), Front(e, m, remote)) + 1
  }

  /** The stats units by which a packet lowers the need. */
  function UnitsOf(e: Setup, d: WorkRecord): nat {
    if e.swu(d) > 0 then e.swu(d) else 100
  }

  lemma FetchMoves(e: Setup, m: Moment, contest: nat, remote: nat)
    requires FetchReady(e, m, contest, remote) && Fetches(e, m, contest, remote)
    ensures var data := Front(e, m, remote); var next := AfterFetch(e, m, contest, remote).files;
      && Recognised(data) && data.contest == contest && Names(e.local, |m.files|) && Stored(e.host, data) == data
      && TakeEffect(e.host, m.files, AfterGet(e, m, remote).files, remote, [data])
      && StoreEffect(e.host, AfterGet(e, m, remote).files, next, Home(e, data), [data])
      && InBuffer(e, m, contest, remote) == |Packets(e.host, next[Home(e, data)])|
      && Home(e, data) == (if GoesOut(data) then e.local(contest, true) else e.local(contest, false)) < |m.files|
  {
    hide Gets, Front, Stored, Packets, Held, TakeEffect, Puts, AfterPut, AfterGet, GoesOut;
    var data, m1 := Front(e, m, remote), AfterGet(e, m, remote);
    GetTakes(e, m, remote);
    HomeInRange(e, m1, data);
    PutStores(e, m1, Home(e, data), data, true);
  }

  lemma FetchedOne(e: Setup, m: Moment, contest: nat, remote: nat)
    requires FetchReady(e, m, contest, remote) && e.limitsOk
    ensures var moves := Fetches(e, m, contest, remote);
      var gone := Gets(e, m, remote) && !moves && !PutsBack(e, m, contest, remote);
      var lost := if gone then multiset{Front(e, m, remote)} else multiset{};
      Fetched(e.host, RouteOf(e, contest, remote), m.files, AfterFetch(e, m, contest, remote).files,
              if moves then [Front(e, m, remote)] else [], lost)
  {
    hide Gets, Front, Stored, Packets, Held, TakeEffect, StoreEffect, Puts, AfterGet, GoesOut, Fetched, Recognised;
    hide Names;
    var r, m1 := RouteOf(e, contest, remote), AfterGet(e, m, remote);
    RouteInRange(e, contest, remote, |m.files|);
    GetTakes(e, m, remote);
    if !Gets(e, m, remote) {
      TookNothing(e.host, r, m.files, m1.files);
    } else if Fetches(e, m, contest, remote) {
      FetchMoves(e, m, contest, remote);
      MovedOne(e.host, r, m.files, m1.files, AfterFetch(e, m, contest, remote).files, Front(e, m, remote));
    } else {
      var data, m2 := Front(e, m, remote), BeforePutBack(e, m, contest, remote);
      assert m2.files == m1.files;
      PutStores(e, m2, remote, data, false);
      if PutsBack(e, m, contest, remote) {
        PutBack(e.host, r, m.files, m1.files, AfterFetch(e, m, contest, remote).files, data);
      } else {
        SomethingGone(e.host, r, m.files, m1.files, data);
      }
    }
  }

  /** A packet that is fetched leaves fewer in the remote file, or went back into that very file. */
  lemma FetchProgress(e: Setup, m: Moment, contest: nat, remote: nat)
    requires FetchReady(e, m, contest, remote) && e.limitsOk && Fetches(e, m, contest, remote)
    ensures var before := |Packets(e.host, m.files[remote])|;
      var left := |Packets(e.host, AfterFetch(e, m, contest, remote).files[remote])|;
      left < before || left == before == InBuffer(e, m, contest, remote)
  {
    assert Gets(e, m, remote);
    hide Gets, Front, Stored, Packets, Held, TakeEffect, StoreEffect, Puts, AfterGet, GoesOut, Fetches, Recognised;
    hide Names;
    hide AfterFetch, InBuffer;
    var data := Front(e, m, remote);
    FetchMoves(e, m, contest, remote);
    RouteInRange(e, contest, remote, |m.files|);
    RemoteShrinks(e.host, RouteOf(e, contest, remote), m.files, AfterGet(e, m, remote).files,
                  AfterFetch(e, m, contest, remote).files, data);
  }

  // ---- The fetch loop ----

  /**
   * How a fetch ended: why, in which state, the packets moved in order, one that was lost if any, and the last need
   * computed.
   */
  datatype Fetching = Fetching(end: FetchEnd, next: Moment, moved: seq<WorkRecord>, lost: seq<WorkRecord>, need: nat)

  /**
   * The loop of BufferFetchFile for one contest, after `packets` packets, with the in-buffer's last count and the
   * warnings so far. `exit(k)` answers poll k of the exit trigger, unless a break was pending.
   */
  function Fetch(e: Setup, contest: nat, remote: nat, d: Demand, exit: nat -> bool, pending: bool, polls: nat,
                 packets: nat, last: int, warnings: nat, m: Moment): (r: Fetching)
    requires FetchReady(e, m, contest, remote) && warnings <= MAX_REMOTE_BUFFER_WARNINGS
    ensures |r.next.files| == |m.files| && r.next.ops >= m.ops
    decreases |Packets(e.host, m.files[remote])|, MAX_REMOTE_BUFFER_WARNINGS - warnings,
              if packets > 0 && last >= |Packets(e.host, m.files[remote])| then 0 else 1
  {
    if !pending && exit(polls) then Fetching(Interrupted, m, [], [], 0)
    else
      var need, m1 := Need(e, m, contest, d), AfterNeed(e, m, contest, d);
      if need == 0 then Fetching(Satisfied, m1, [], [], 0)
      else
        var m2 := AfterFetch(e, m1, contest, remote);
        if !Fetches(e, m1, contest, remote) then
          var lost := if Gets(e, m1, remote) && !PutsBack(e, m1, contest, remote) then [Front(e, m1, remote)] else [];
          Fetching(Refusal(e, m1, contest, remote), m2, [], lost, need)
        else
          FetchProgress(e, m1, contest, remote);
          var data, count := Front(e, m1, remote), InBuffer(e, m1, contest, remote);
          var stuck := packets > 0 && last >= count;
          if stuck && warnings == MAX_REMOTE_BUFFER_WARNINGS then Fetching(LoopDetected, m2, [data], [], need)
          else if Counted(e, m1, remote) == 0 || UnitsOf(e, data) >= need then Fetching(Satisfied, m2, [data], [], need)
          else
            Moving(data, Fetch(e, contest, remote, d, exit, pending, if pending then polls else polls + 1,
                               packets + 1, count, if stuck then warnings + 1 else warnings, m2))
  }

  function Moving(data: WorkRecord, r: Fetching): Fetching {
    r.(moved := [data] + r.moved)
  }

  /** A fetch that ends before it has moved anything. */
  lemma FetchStops(e: Setup, contest: nat, remote: nat, d: Demand, exit: nat -> bool, pending: bool, polls: nat,
                   packets: nat, last: int, warnings: nat, m: Moment)
    requires FetchReady(e, m, contest, remote) && warnings <= MAX_REMOTE_BUFFER_WARNINGS
    ensures var r := Fetch(e, contest, remote, d, exit, pending, polls, packets, last, warnings, m);
      var need, m1 := Need(e, m, contest, d), AfterNeed(e, m, contest, d);
      if !pending && exit(polls) then r == Fetching(Interrupted, m, [], [], 0)
      else if need == 0 then r == Fetching(Satisfied, m1, [], [], 0)
      else !Fetches(e, m1, contest, remote) ==>
        var lost := if Gets(e, m1, remote) && !PutsBack(e, m1, contest, remote) then [Front(e, m1, remote)] else [];
        r == Fetching(Refusal(e, m1, contest, remote), AfterFetch(e, m1, contest, remote), [], lost, need)
  {
    hide Need, AfterNeed, Fetches, Gets, PutsBack, Front, Refusal, AfterFetch, Packets;
  }

  /** A fetch that moves a packet, and what it comes to. */
  lemma FetchGoesOn(e: Setup, contest: nat, remote: nat, d: Demand, exit: nat -> bool, pending: bool, polls: nat,
                    packets: nat, last: int, warnings: nat, m: Moment)
    requires FetchReady(e, m, contest, remote) && warnings <= MAX_REMOTE_BUFFER_WARNINGS && (pending || !exit(polls))
    requires Need(e, m, contest, d) > 0 && Fetches(e, AfterNeed(e, m, contest, d), contest, remote)
    ensures Gets(e, AfterNeed(e, m, contest, d), remote)
    ensures var r := Fetch(e, contest, remote, d, exit, pending, polls, packets, last, warnings, m);
      var need, m1 := Need(e, m, contest, d), AfterNeed(e, m, contest, d);
      var data, count, m2 := Front(e, m1, remote), InBuffer(e, m1, contest, remote), AfterFetch(e, m1, contest, remote);
      var stuck := packets > 0 && last >= count;
      if stuck && warnings == MAX_REMOTE_BUFFER_WARNINGS then r == Fetching(LoopDetected, m2, [data], [], need)
      else if Counted(e, m1, remote) == 0 || UnitsOf(e, data) >= need then
        r == Fetching(Satisfied, m2, [data], [], need)
      else
        r == Moving(data, Fetch(e, contest, remote, d, exit, pending, if pending then polls else polls + 1,
                                   packets + 1, count, if stuck then warnings + 1 else warnings, m2))
  {
    FetchOps(e, AfterNeed(e, m, contest, d), contest, remote);
    hide Need, AfterNeed, Fetches, Gets, PutsBack, Front, Refusal, AfterFetch, Packets, Counted, InBuffer;
  }

  lemma FetchOps(e: Setup, m: Moment, contest: nat, remote: nat)
    requires FetchReady(e, m, contest, remote) && Fetches(e, m, contest, remote)
    ensures Gets(e, m, remote) && AfterFetch(e, m, contest, remote).ops >= m.ops + 2
  {
    hide Names, Front, Gets;
  }

  /**
   * What left the remote file is, in order, in the contest's buffers. At most one packet is lost, and only when the
   * last operation, putting it back, met an I/O error.
   */
  ghost predicate Kept(e: Setup, contest: nat, remote: nat, a: Moment, r: Fetching) {
    && (if e.limitsOk then
          Fetched(e.host, RouteOf(e, contest, remote), a.files, r.next.files, r.moved, multiset(r.lost))
        else r.next.files == a.files && r.moved == r.lost == [])
    && |r.lost| <= 1
    && (r.lost != [] ==> r.end in {WrongContest, LocalFailed} && r.next.ops > 0 && PutFault(e.faults(r.next.ops - 1)))
  }

  lemma KeptIdle(e: Setup, m: Moment, contest: nat, remote: nat, r: Fetching)
    requires FetchReady(e, m, contest, remote) && r.next.files == m.files && r.moved == r.lost == []
    ensures Kept(e, contest, remote, m, r)
  {
    hide Fetched, PutFault;
    if e.limitsOk {
      RouteInRange(e, contest, remote, |m.files|);
      FetchedNothing(e.host, RouteOf(e, contest, remote), m.files);
    }
  }

  lemma KeptRefusal(e: Setup, a: Moment, m: Moment, contest: nat, remote: nat, r: Fetching)
    requires FetchReady(e, m, contest, remote) && e.limitsOk && !Fetches(e, m, contest, remote) && a.files == m.files
    requires r.end == Refusal(e, m, contest, remote) && r.next == AfterFetch(e, m, contest, remote) && r.moved == []
    requires r.lost == if Gets(e, m, remote) && !PutsBack(e, m, contest, remote) then [Front(e, m, remote)] else []
    ensures Kept(e, contest, remote, a, r)
  {
    hide Fetched, PutFault, Front, Gets, AfterFetch, Fetches, PutsBack, Refusal, Names, Packets;
    FetchedOne(e, m, contest, remote);
    RefusalMeaning(e, m, contest, remote);
  }

  lemma KeptMove(e: Setup, a: Moment, m: Moment, contest: nat, remote: nat, r: Fetching)
    requires FetchReady(e, m, contest, remote) && e.limitsOk && Fetches(e, m, contest, remote) && a.files == m.files
    requires Kept(e, contest, remote, AfterFetch(e, m, contest, remote), r)
    ensures Gets(e, m, remote) && Kept(e, contest, remote, a, Moving(Front(e, m, remote), r))
  {
    FetchOps(e, m, contest, remote);
    hide Fetched, PutFault, Front, Gets, AfterFetch, Fetches, PutsBack, Refusal, Names;
    FetchedOne(e, m, contest, remote);
    FetchedThen(e.host, RouteOf(e, contest, remote), m.files, AfterFetch(e, m, contest, remote).files, r.next.files,
                [Front(e, m, remote)], r.moved, multiset(r.lost));
  }

  /** Every fetch, over every exit, keeps the packets. */
  lemma {:induction false} FetchConserves(e: Setup, contest: nat, remote: nat, d: Demand, exit: nat -> bool,
                                          pending: bool, polls: nat, packets: nat, last: int, warnings: nat, m: Moment)
    requires FetchReady(e, m, contest, remote) && warnings <= MAX_REMOTE_BUFFER_WARNINGS
    ensures Kept(e, contest, remote, m, Fetch(e, contest, remote, d, exit, pending, polls, packets, last, warnings, m))
    decreases |Packets(e.host, m.files[remote])|, MAX_REMOTE_BUFFER_WARNINGS - warnings,
              if packets > 0 && last >= |Packets(e.host, m.files[remote])| then 0 else 1
  {
    hide Kept, Packets, Front, Gets, Counted, AfterFetch, Fetches, PutsBack, InBuffer, Need, Refusal, Names;
    var r := Fetch(e, contest, remote, d, exit, pending, polls, packets, last, warnings, m);
    var need, m1 := Need(e, m, contest, d), AfterNeed(e, m, contest, d);
    NeedHasLimits(e, m, contest, d);
    if (!pending && exit(polls)) || need == 0 {
      KeptIdle(e, m, contest, remote, r);
    } else if !Fetches(e, m1, contest, remote) {
      KeptRefusal(e, m, m1, contest, remote, r);
    } else {
      FetchOps(e, m1, contest, remote);
      FetchProgress(e, m1, contest, remote);
      var m2, data, count := AfterFetch(e, m1, contest, remote), Front(e, m1, remote), InBuffer(e, m1, contest, remote);
      var stuck := packets > 0 && last >= count;
      var rest := r.(moved := []);
      if !(stuck && warnings == MAX_REMOTE_BUFFER_WARNINGS) && Counted(e, m1, remote) > 0 && UnitsOf(e, data) < need {
        var on, more := if pending then polls else polls + 1, if stuck then warnings + 1 else warnings;
        FetchConserves(e, contest, remote, d, exit, pending, on, packets + 1, count, more, m2);
        rest := Fetch(e, contest, remote, d, exit, pending, on, packets + 1, count, more, m2);
      } else {
        KeptIdle(e, m2, contest, remote, rest);
      }
      KeptMove(e, m, m1, contest, remote, rest);
      assert r == Moving(data, rest);
    }
  }

  lemma NeedHasLimits(e: Setup, m: Moment, contest: nat, d: Demand)
    requires e.local(contest, false) < |m.files|
    ensures Need(e, m, contest, d) > 0 ==> e.limitsOk
  {
  }

  /** What each refusal means for the remote file and the operations just made. */
  lemma RefusalMeaning(e: Setup, m: Moment, contest: nat, remote: nat)
    requires FetchReady(e, m, contest, remote) && e.limitsOk && !Fetches(e, m, contest, remote)
    ensures var end := Refusal(e, m, contest, remote); var next := AfterFetch(e, m, contest, remote);
      && next.ops > 0
      && (end == RemoteEmpty ==> next.files[remote] == [])
      && (end == RemoteError ==> e.faults(next.ops - 1) != NO_FAULT)
      && (end in {WrongContest, LocalFailed} <==> Gets(e, m, remote))
      && (Gets(e, m, remote) ==> if PutsBack(e, m, contest, remote)
                                 then Front(e, m, remote) in Packets(e.host, next.files[remote])
                                 else PutFault(e.faults(next.ops - 1)))
      && (end == WrongContest ==> Front(e, m, remote).contest != contest)
      && (end == LocalFailed ==> Front(e, m, remote).contest == contest)
      && (end == LocalFailed && Recognised(Front(e, m, remote)) ==> next.ops > 1 && PutFault(e.faults(next.ops - 2)))
      && end in {RemoteError, RemoteEmpty, WrongContest, LocalFailed}
  {
    hide Stored, Packets, TakeEffect, StoreEffect, Front, PutSlots, GetSlots, FirstLive, Recognised, Names, Home;
    GetTakes(e, m, remote);
    if Gets(e, m, remote) {
      var data, before := Front(e, m, remote), BeforePutBack(e, m, contest, remote);
      PutStores(e, before, remote, data, false);
      if data.contest == contest && Recognised(data) {
        HomeInRange(e, AfterGet(e, m, remote), data);
      }
      if PutsBack(e, m, contest, remote) {
        StoredIsThere(e.host, before.files, AfterFetch(e, m, contest, remote).files, remote, data);
      }
    }
  }

  lemma StoredIsThere(h: Host, a: seq<Slots>, b: seq<Slots>, id: nat, d: WorkRecord)
    requires StoreEffect(h, a, b, id, [d])
    ensures id < |b| && d in Packets(h, b[id])
  {
    hide Packets, Held;
    assert d in multiset(Packets(h, b[id]));
  }

  /**
   * What each end of a fetch means if no operation met an I/O error: satisfied, when the in-buffer has enough, or the
   * last packet was worth what was still needed, or the remote file has no more of the contest (but for a packet that
   * went straight back into it); interrupted, when the trigger was pulled; otherwise what is in the remote file.
   */
  ghost predicate EndsFor(e: Setup, contest: nat, remote: nat, d: Demand, exit: nat -> bool, pending: bool, polls: nat,
                          r: Fetching)
    requires e.local(contest, false) < |r.next.files| && remote < |r.next.files|
  {
    var left := Packets(e.host, r.next.files[remote]);
    match r.end
    case Satisfied =>
      || Met(e, r.next, contest, d)
      || (r.moved != [] && (
            || r.need <= UnitsOf(e, r.moved[|r.moved| - 1])
            || CountContest(left, contest) <= if remote == Home(e, r.moved[|r.moved| - 1]) then 1 else 0))
    case Interrupted => !pending && exists k :: k >= polls && exit(k)
    case RemoteError => false
    case RemoteEmpty => left == []
    case WrongContest => exists p | p in left :: p.contest != contest
    case LocalFailed => exists p | p in left :: p.contest == contest && !Recognised(p)
    case LoopDetected => r.moved != []
  }

  lemma {:induction false} FetchEnds(e: Setup, contest: nat, remote: nat, d: Demand, exit: nat -> bool, pending: bool,
                                     polls: nat, packets: nat, last: int, warnings: nat, m: Moment)
    requires FetchReady(e, m, contest, remote) && warnings <= MAX_REMOTE_BUFFER_WARNINGS && e.limitsOk
    requires Clean(e, m.ops, Fetch(e, contest, remote, d, exit, pending, polls, packets, last, warnings, m).next.ops)
    ensures EndsFor(e, contest, remote, d, exit, pending, polls,
                    Fetch(e, contest, remote, d, exit, pending, polls, packets, last, warnings, m))
    decreases |Packets(e.host, m.files[remote])|, MAX_REMOTE_BUFFER_WARNINGS - warnings,
              if packets > 0 && last >= |Packets(e.host, m.files[remote])| then 0 else 1
  {
    hide Packets, Front, Gets, Counted, AfterFetch, Fetches, PutsBack, InBuffer, Need, AfterNeed, Refusal, Names;
    hide Met, Home, Fetch;
    hide EndsFor, CountContest, Clean;
    var r := Fetch(e, contest, remote, d, exit, pending, polls, packets, last, warnings, m);
    var need, m1 := Need(e, m, contest, d), AfterNeed(e, m, contest, d);
    FetchStops(e, contest, remote, d, exit, pending, polls, packets, last, warnings, m);
    if !pending && exit(polls) {
      EndsInterrupted(e, contest, remote, d, exit, polls, m);
    } else if need == 0 {
      EndsMet(e, contest, remote, d, exit, pending, polls, m);
    } else if Fetches(e, m1, contest, remote) {
      FetchGoesOn(e, contest, remote, d, exit, pending, polls, packets, last, warnings, m);
      FetchProgress(e, m1, contest, remote);
      var m2, data, count := AfterFetch(e, m1, contest, remote), Front(e, m1, remote), InBuffer(e, m1, contest, remote);
      CleanWithin(e, m.ops, m1.ops, m2.ops, r.next.ops);
      var stuck := packets > 0 && last >= count;
      if !(stuck && warnings == MAX_REMOTE_BUFFER_WARNINGS) && Counted(e, m1, remote) > 0 && UnitsOf(e, data) < need {
        var on, more := if pending then polls else polls + 1, if stuck then warnings + 1 else warnings;
        FetchEnds(e, contest, remote, d, exit, pending, on, packets + 1, count, more, m2);
        EndsLater(e, contest, remote, d, exit, pending, polls, on, data,
                  Fetch(e, contest, remote, d, exit, pending, on, packets + 1, count, more, m2));
      } else {
        EndsMoved(e, contest, remote, d, exit, pending, polls, m1, r);
      }
    } else {
      CleanWithin(e, m.ops, m1.ops, r.next.ops, r.next.ops);
      EndsRefused(e, contest, remote, d, exit, pending, polls, m1, r);
    }
  }

  lemma CleanWithin(e: Setup, a: nat, b: nat, c: nat, d: nat)
    requires a <= b && c <= d && Clean(e, a, d)
    ensures Clean(e, b, c) && Clean(e, b, d) && (b <= c ==> Clean(e, c, d))
  {
  }

  lemma EndsInterrupted(e: Setup, contest: nat, remote: nat, d: Demand, exit: nat -> bool, polls: nat, m: Moment)
    requires e.local(contest, false) < |m.files| && remote < |m.files| && exit(polls)
    ensures EndsFor(e, contest, remote, d, exit, false, polls, Fetching(Interrupted, m, [], [], 0))
  {
  }

  lemma EndsMet(e: Setup, contest: nat, remote: nat, d: Demand, exit: nat -> bool, pending: bool, polls: nat, m: Moment)
    requires e.local(contest, false) < |m.files| && remote < |m.files| && e.limitsOk
    requires Need(e, m, contest, d) == 0 && Clean(e, m.ops, AfterNeed(e, m, contest, d).ops)
    ensures EndsFor(e, contest, remote, d, exit, pending, polls,
                    Fetching(Satisfied, AfterNeed(e, m, contest, d), [], [], 0))
  {
    hide Need, Packets, CountContest, StatsUnits;
    NothingNeededIffMet(e, m, contest, d);
    MetByFiles(e, m, AfterNeed(e, m, contest, d), contest, d);
  }

  /** The ends of a fetch at the packet it has just moved. */
  lemma EndsMoved(e: Setup, contest: nat, remote: nat, d: Demand, exit: nat -> bool, pending: bool, polls: nat,
                  m: Moment, r: Fetching)
    requires FetchReady(e, m, contest, remote) && e.limitsOk && Fetches(e, m, contest, remote)
    requires Gets(e, m, remote) && Clean(e, m.ops, AfterFetch(e, m, contest, remote).ops)
    requires r.next == AfterFetch(e, m, contest, remote)
    requires r.moved == [Front(e, m, remote)] && r.end in {Satisfied, LoopDetected}
    requires r.end == Satisfied ==> Counted(e, m, remote) == 0 || UnitsOf(e, Front(e, m, remote)) >= r.need
    ensures EndsFor(e, contest, remote, d, exit, pending, polls, r)
  {
    hide Packets, Front, Gets, Counted, AfterFetch, Fetches, Names, Met, CountContest, Home;
    FetchLeaves(e, m, contest, remote, r.next.ops);
  }

  lemma EndsLater(e: Setup, contest: nat, remote: nat, d: Demand, exit: nat -> bool, pending: bool, polls: nat, on: nat,
                  data: WorkRecord, r: Fetching)
    requires e.local(contest, false) < |r.next.files| && remote < |r.next.files| && polls <= on
    requires EndsFor(e, contest, remote, d, exit, pending, on, r)
    ensures EndsFor(e, contest, remote, d, exit, pending, polls, Moving(data, r))
  {
    hide Packets, Met, CountContest, Home, Recognised;
  }

  lemma EndsRefused(e: Setup, contest: nat, remote: nat, d: Demand, exit: nat -> bool, pending: bool, polls: nat,
                    m: Moment, r: Fetching)
    requires FetchReady(e, m, contest, remote) && e.limitsOk && !Fetches(e, m, contest, remote)
    requires Clean(e, m.ops, AfterFetch(e, m, contest, remote).ops)
    requires r.end == Refusal(e, m, contest, remote) && r.next == AfterFetch(e, m, contest, remote)
    ensures EndsFor(e, contest, remote, d, exit, pending, polls, r)
  {
    hide Packets, Met, CountContest, Home, Recognised, Refusal, AfterFetch, Fetches;
    CleanRefusal(e, m, contest, remote);
  }

  lemma MetByFiles(e: Setup, a: Moment, b: Moment, contest: nat, d: Demand)
    requires e.local(contest, false) < |a.files| && a.files == b.files
    ensures Met(e, a, contest, d) == Met(e, b, contest, d)
  {
  }

  lemma CleanRefusal(e: Setup, m: Moment, contest: nat, remote: nat)
    requires FetchReady(e, m, contest, remote) && e.limitsOk && !Fetches(e, m, contest, remote)
    requires Clean(e, m.ops, AfterFetch(e, m, contest, remote).ops)
    ensures var end, next := Refusal(e, m, contest, remote), AfterFetch(e, m, contest, remote);
      var left := Packets(e.host, next.files[remote]);
      && (end == RemoteEmpty || end == WrongContest || end == LocalFailed)
      && (end == RemoteEmpty ==> left == [])
      && (end == WrongContest ==> exists p | p in left :: p.contest != contest)
      && (end == LocalFailed ==> exists p | p in left :: p.contest == contest && !Recognised(p))
  {
    hide Packets, Front, Gets, PutsBack, Names, Refusal, Fetches, Recognised;
    var next := AfterFetch(e, m, contest, remote);
    RefusalMeaning(e, m, contest, remote);
    NoPackets(e.host);
    assert e.faults(next.ops - 1) == NO_FAULT;
    if Gets(e, m, remote) {
      assert e.faults(next.ops - 2) == NO_FAULT;
      assert Front(e, m, remote) in Packets(e.host, next.files[remote]);
    }
  }

  /** What is left in the remote file after a packet of the contest has been fetched from it. */
  lemma FetchLeaves(e: Setup, m: Moment, contest: nat, remote: nat, to: nat)
    requires FetchReady(e, m, contest, remote) && e.limitsOk && Fetches(e, m, contest, remote)
    requires Clean(e, m.ops, to) && AfterFetch(e, m, contest, remote).ops <= to
    ensures var data, next := Front(e, m, remote), AfterFetch(e, m, contest, remote);
      var left := Packets(e.host, next.files[remote]);
      CountContest(left, contest) == Counted(e, m, remote) + if remote == Home(e, data) then 1 else 0
  {
    FetchMoves(e, m, contest, remote);
    FetchOps(e, m, contest, remote);
    CleanCount(e, m, remote, to);
    hide Packets, Front, Gets, Fetches, Names, Recognised, Stored, AfterFetch, AfterGet, Home, GoesOut, Counted;
    var data, m1, m2 := Front(e, m, remote), AfterGet(e, m, remote), AfterFetch(e, m, contest, remote);
    CountAfterStore(e.host, m1.files, m2.files, Home(e, data), remote, data, contest);
  }

  lemma CountAfterStore(h: Host, a: seq<Slots>, b: seq<Slots>, id: nat, remote: nat, d: WorkRecord, contest: nat)
    requires StoreEffect(h, a, b, id, [d]) && remote < |a| && d.contest == contest
    ensures |b| == |a|
    ensures CountContest(Packets(h, b[remote]), contest)
         == CountContest(Packets(h, a[remote]), contest) + if remote == id then 1 else 0
  {
    hide Packets, Held;
    if remote == id {
      CountByBag(Packets(h, b[id]), Packets(h, a[id]) + [d], contest);
      CountContestAppend(Packets(h, a[id]), [d], contest);
      CountOne(_ => 0, d, contest);
      assert multiset(Packets(h, a[id]) + [d]) == multiset(Packets(h, a[id])) + multiset{d};
    }
  }

  /** The misconfiguration is found out: fetching from the in-buffer itself ends after a bounded number of moves. */
  lemma {:induction false} FetchOfOwnBufferEnds(e: Setup, contest: nat, remote: nat, d: Demand, exit: nat -> bool,
                                                pending: bool, polls: nat, packets: nat, last: int, warnings: nat,
                                                m: Moment)
    requires FetchReady(e, m, contest, remote) && warnings <= MAX_REMOTE_BUFFER_WARNINGS
    requires OwnInBuffer(e.host, RouteOf(e, contest, remote), m.files)
    requires packets > 0 ==> last == |Packets(e.host, m.files[remote])|
    ensures |Fetch(e, contest, remote, d, exit, pending, polls, packets, last, warnings, m).moved| + warnings
            <= if packets > 0 then 4 else 5
    decreases |Packets(e.host, m.files[remote])|, MAX_REMOTE_BUFFER_WARNINGS - warnings,
              if packets > 0 && last >= |Packets(e.host, m.files[remote])| then 0 else 1
  {
    hide OwnInBuffer, Packets, Front, Gets, Counted, AfterFetch, Fetches, PutsBack, InBuffer, Need, Refusal, Names;
    var need, m1 := Need(e, m, contest, d), AfterNeed(e, m, contest, d);
    NeedHasLimits(e, m, contest, d);
    if (pending || !exit(polls)) && need > 0 && Fetches(e, m1, contest, remote) {
      FetchOps(e, m1, contest, remote);
      FetchProgress(e, m1, contest, remote);
      OwnBufferStays(e, m, m1, contest, remote);
      var m2, data, count := AfterFetch(e, m1, contest, remote), Front(e, m1, remote), InBuffer(e, m1, contest, remote);
      var stuck := packets > 0 && last >= count;
      if !(stuck && warnings == MAX_REMOTE_BUFFER_WARNINGS) && Counted(e, m1, remote) > 0 && UnitsOf(e, data) < need {
        FetchOfOwnBufferEnds(e, contest, remote, d, exit, pending, if pending then polls else polls + 1,
                             packets + 1, count, if stuck then warnings + 1 else warnings, m2);
      }
    }
  }

  /** It is found out no sooner than at the fourth packet that did not make the in-buffer grow. */
  lemma {:induction false} LoopFoundLate(e: Setup, contest: nat, remote: nat, d: Demand, exit: nat -> bool,
                                         pending: bool, polls: nat, packets: nat, last: int, warnings: nat, m: Moment)
    requires FetchReady(e, m, contest, remote) && warnings <= MAX_REMOTE_BUFFER_WARNINGS
    ensures var r := Fetch(e, contest, remote, d, exit, pending, polls, packets, last, warnings, m);
      r.end == LoopDetected ==> |r.moved| + warnings >= if packets == 0 then 5 else 4
    decreases |Packets(e.host, m.files[remote])|, MAX_REMOTE_BUFFER_WARNINGS - warnings,
              if packets > 0 && last >= |Packets(e.host, m.files[remote])| then 0 else 1
  {
    hide Packets, Front, Gets, Counted, AfterFetch, Fetches, PutsBack, InBuffer, Need, AfterNeed, Refusal, Names, Fetch;
    var need, m1 := Need(e, m, contest, d), AfterNeed(e, m, contest, d);
    FetchStops(e, contest, remote, d, exit, pending, polls, packets, last, warnings, m);
    RefusalIsNone(e, m1, contest, remote);
    NeedHasLimits(e, m, contest, d);
    if (pending || !exit(polls)) && need > 0 && Fetches(e, m1, contest, remote) {
      FetchGoesOn(e, contest, remote, d, exit, pending, polls, packets, last, warnings, m);
      FetchProgress(e, m1, contest, remote);
      var m2, data, count := AfterFetch(e, m1, contest, remote), Front(e, m1, remote), InBuffer(e, m1, contest, remote);
      var stuck := packets > 0 && last >= count;
      if !(stuck && warnings == MAX_REMOTE_BUFFER_WARNINGS) && Counted(e, m1, remote) > 0 && UnitsOf(e, data) < need {
        LoopFoundLate(e, contest, remote, d, exit, pending, if pending then polls else polls + 1,
                      packets + 1, count, if stuck then warnings + 1 else warnings, m2);
      }
    }
  }

  lemma OwnBufferStays(e: Setup, a: Moment, m: Moment, contest: nat, remote: nat)
    requires FetchReady(e, m, contest, remote) && e.limitsOk && Fetches(e, m, contest, remote) && a.files == m.files
    requires OwnInBuffer(e.host, RouteOf(e, contest, remote), a.files)
    ensures var next := AfterFetch(e, m, contest, remote).files;
      && OwnInBuffer(e.host, RouteOf(e, contest, remote), next)
      && |Packets(e.host, next[remote])| == |Packets(e.host, a.files[remote])| == InBuffer(e, m, contest, remote)
  {
    FetchOps(e, m, contest, remote);
    FetchMoves(e, m, contest, remote);
    RouteInRange(e, contest, remote, |m.files|);
    hide OwnInBuffer, Packets, Front, Gets, AfterFetch, AfterGet, Fetches, InBuffer, Names, Recognised, GoesOut;
    hide TakeEffect;
    hide StoreEffect, Stored;
    OwnInBufferKept(e.host, RouteOf(e, contest, remote), m.files, AfterGet(e, m, remote).files,
                    AfterFetch(e, m, contest, remote).files, Front(e, m, remote));
    OwnIsIn(e.host, RouteOf(e, contest, remote), m.files);
  }

  lemma OwnIsIn(h: Host, r: Route, files: seq<Slots>)
    requires r.remote < |files| && OwnInBuffer(h, r, files)
    ensures r.remote == r.inFile
  {
  }

  /** All packets of a file are work still to do, of one contest. */
  ghost predicate AllToDo(h: Host, s: Slots, contest: nat) {
    forall p | p in Packets(h, s) :: Matches(p, contest, false)
  }

  /**
   * The packets moved are those from the front of the remote file, in order, unless a put into a local buffer failed.
   */
  ghost predicate FrontMoved(e: Setup, remote: nat, a: Moment, r: Fetching) {
    && r.end != LoopDetected && r.end != WrongContest && remote < |a.files| == |r.next.files|
    && (r.end != LocalFailed ==> Packets(e.host, a.files[remote]) == r.moved + Packets(e.host, r.next.files[remote]))
    && (r.end == LocalFailed ==> r.next.ops > 1 && PutFault(e.faults(r.next.ops - 2)))
  }

  lemma FrontMovedNow(e: Setup, remote: nat, a: Moment, r: Fetching)
    requires remote < |a.files| && r.next.files == a.files && r.moved == [] && r.end in {Satisfied, Interrupted}
    ensures FrontMoved(e, remote, a, r)
  {
    assert [] + Packets(e.host, a.files[remote]) == Packets(e.host, a.files[remote]);
  }

  lemma FrontMovedMore(e: Setup, a: Moment, m: Moment, contest: nat, remote: nat, r: Fetching)
    requires FetchReady(e, m, contest, remote) && e.limitsOk && Fetches(e, m, contest, remote) && a.files == m.files
    requires RouteOf(e, contest, remote).Apart() && AllToDo(e.host, m.files[remote], contest)
    requires FrontMoved(e, remote, AfterFetch(e, m, contest, remote), r)
    ensures Gets(e, m, remote) && FrontMoved(e, remote, a, Moving(Front(e, m, remote), r))
  {
    hide Packets, Front, Gets, AfterFetch, Fetches, Names, AllToDo, PutFault, InBuffer, FetchReady;
    RemoteFront(e, m, contest, remote);
    var data, left := Front(e, m, remote), Packets(e.host, r.next.files[remote]);
    assert [data] + (r.moved + left) == ([data] + r.moved) + left;
  }

  /**
   * From a file that is none of the contest's buffers and holds only work to do of that contest, the loop detection
   * never fires, and unless a put fails the packets moved are those from the front of the file, in order.
   */
  lemma {:induction false} FetchFromRemote(e: Setup, contest: nat, remote: nat, d: Demand, exit: nat -> bool,
                                           pending: bool, polls: nat, packets: nat, last: int, warnings: nat, m: Moment)
    requires FetchReady(e, m, contest, remote) && warnings <= MAX_REMOTE_BUFFER_WARNINGS
    requires e.limitsOk && RouteOf(e, contest, remote).Apart() && AllToDo(e.host, m.files[remote], contest)
    requires packets > 0 ==> last == |Packets(e.host, m.files[e.local(contest, false)])|
    ensures FrontMoved(e, remote, m, Fetch(e, contest, remote, d, exit, pending, polls, packets, last, warnings, m))
    decreases |Packets(e.host, m.files[remote])|, MAX_REMOTE_BUFFER_WARNINGS - warnings,
              if packets > 0 && last >= |Packets(e.host, m.files[remote])| then 0 else 1
  {
    hide AllToDo, Packets, Front, Gets, Counted, AfterFetch, Fetches, PutsBack, InBuffer, Need, Refusal, Names, UnitsOf;
    hide AfterNeed, FrontMoved;
    var r := Fetch(e, contest, remote, d, exit, pending, polls, packets, last, warnings, m);
    var need, m1 := Need(e, m, contest, d), AfterNeed(e, m, contest, d);
    FetchStops(e, contest, remote, d, exit, pending, polls, packets, last, warnings, m);
    if (!pending && exit(polls)) || need == 0 {
      hide Fetch;
      FrontMovedNow(e, remote, m, r);
    } else {
      NeedHasLimits(e, m, contest, d);
      AllToDoSame(e.host, m, m1, remote, contest);
      if Fetches(e, m1, contest, remote) {
        FetchGoesOn(e, contest, remote, d, exit, pending, polls, packets, last, warnings, m);
        hide Fetch;
        FetchProgress(e, m1, contest, remote);
        RemoteFront(e, m1, contest, remote);
        var m2, data := AfterFetch(e, m1, contest, remote), Front(e, m1, remote);
        var count := InBuffer(e, m1, contest, remote);
        var rest := Fetching(Satisfied, m2, [], [], need);
        if Counted(e, m1, remote) > 0 && UnitsOf(e, data) < need {
          var on := if pending then polls else polls + 1;
          FetchFromRemote(e, contest, remote, d, exit, pending, on, packets + 1, count, warnings, m2);
          rest := Fetch(e, contest, remote, d, exit, pending, on, packets + 1, count, warnings, m2);
        } else {
          FrontMovedNow(e, remote, m2, rest);
        }
        FrontMovedMore(e, m, m1, contest, remote, rest);
        assert r == Moving(data, rest);
      } else {
        hide Fetch;
        RemoteRefusal(e, m, m1, contest, remote, r);
      }
    }
  }

  lemma AllToDoSame(h: Host, a: Moment, b: Moment, remote: nat, contest: nat)
    requires a.files == b.files && remote < |a.files| && AllToDo(h, a.files[remote], contest)
    ensures AllToDo(h, b.files[remote], contest)
  {
  }

  lemma RemoteFront(e: Setup, m: Moment, contest: nat, remote: nat)
    requires FetchReady(e, m, contest, remote) && e.limitsOk && Fetches(e, m, contest, remote)
    requires RouteOf(e, contest, remote).Apart() && AllToDo(e.host, m.files[remote], contest)
    ensures Gets(e, m, remote)
    ensures var next := AfterFetch(e, m, contest, remote).files; var inFile := e.local(contest, false);
      && Packets(e.host, m.files[remote]) == [Front(e, m, remote)] + Packets(e.host, next[remote])
      && AllToDo(e.host, next[remote], contest)
      && InBuffer(e, m, contest, remote) == |Packets(e.host, next[inFile])| == |Packets(e.host, m.files[inFile])| + 1
  {
    FetchOps(e, m, contest, remote);
    FetchMoves(e, m, contest, remote);
    hide Packets, Front, Gets, AfterFetch, AfterGet, Fetches, InBuffer, Names, Stored, Held, Recognised;
    var data, next := Front(e, m, remote), AfterFetch(e, m, contest, remote).files;
    assert data in [data] + Packets(e.host, AfterGet(e, m, remote).files[remote]);
    MatchesContest(data, contest, false);
    assert next[remote] == AfterGet(e, m, remote).files[remote];
    assert forall p | p in Packets(e.host, next[remote]) :: p in Packets(e.host, m.files[remote]);
  }

  lemma RemoteRefusal(e: Setup, a: Moment, m: Moment, contest: nat, remote: nat, r: Fetching)
    requires FetchReady(e, m, contest, remote) && e.limitsOk && !Fetches(e, m, contest, remote) && a.files == m.files
    requires AllToDo(e.host, m.files[remote], contest)
    requires r.end == Refusal(e, m, contest, remote) && r.next == AfterFetch(e, m, contest, remote) && r.moved == []
    ensures FrontMoved(e, remote, a, r)
  {
    hide Packets, Front, Gets, PutFault, Names, Recognised, Stored, Held;
    RefusalMeaning(e, m, contest, remote);
    GetTakes(e, m, remote);
    if Gets(e, m, remote) {
      var data := Front(e, m, remote);
      assert data in [data] + Packets(e.host, AfterGet(e, m, remote).files[remote]);
      MatchesContest(data, contest, false);
    }
  }

  // ---- What was fetched meets the demand, and no more ----

  /** The packets of one contest are all rated, or none is. */
  ghost predicate RatedAlike(e: Setup, contest: nat, s: multiset<WorkRecord>) {
    || (forall p | p in s && p.contest == contest :: e.swu(p) > 0)
    || (forall p | p in s && p.contest == contest :: e.swu(p) <= 0)
  }

  /** The packets of the in-buffer and of the remote file. */
  ghost function InAndRemote(e: Setup, m: Moment, contest: nat, remote: nat): multiset<WorkRecord>
    requires e.local(contest, false) < |m.files| && remote < |m.files|
  {
    Bag(e.host, m.files[e.local(contest, false)]) + Bag(e.host, m.files[remote])
  }

  /** A satisfied fetch leaves the in-buffer full, or with units enough, or the remote file without such packets. */
  ghost predicate Enough(e: Setup, contest: nat, remote: nat, d: Demand, r: Fetching)
    requires e.local(contest, false) < |r.next.files| && remote < |r.next.files|
  {
    var p, left := Packets(e.host, r.next.files[e.local(contest, false)]), Packets(e.host, r.next.files[remote]);
    var count, units := CountContest(p, contest), StatsUnits(e.swu, p, contest);
    var have := if units == 0 then 100 * count else units;
    r.end == Satisfied ==> count >= d.limit || have >= d.threshold || have >= 100 * d.limit
                           || CountContest(left, contest) == 0
  }

  /** Before the last packet it moved, the in-buffer was not full and lacked units, or a packet for some cruncher. */
  ghost predicate NoMore(e: Setup, contest: nat, d: Demand, r: Fetching)
    requires e.local(contest, false) < |r.next.files|
  {
    var p := Packets(e.host, r.next.files[e.local(contest, false)]);
    r.moved != [] ==>
      var last := r.moved[|r.moved| - 1];
      var count := CountContest(p, contest) - 1;
      var units := StatsUnits(e.swu, p, contest) - if e.swu(last) > 0 then e.swu(last) else 0;
      var have := if units == 0 then 100 * count else units;
      && count < d.limit
      && ((have < d.threshold && have < 100 * d.limit) || count < d.crunchers)
  }

  ghost predicate Fits(e: Setup, contest: nat, remote: nat, d: Demand, r: Fetching) {
    && e.local(contest, false) < |r.next.files| && remote < |r.next.files|
    && Enough(e, contest, remote, d, r) && NoMore(e, contest, d, r)
  }

  /**
   * A packet that counts for what is still needed makes the in-buffer reach its threshold, if and only if it is rated
   * as the packets before it are, or the units of the rated ones reach it alone: one rated packet among others that are
   * not makes these count no more.
   */
  lemma LastCoversIff(count: nat, units: nat, rate: nat, eff: nat, crunchers: nat)
    requires (if rate > 0 then rate else 100) >= UnitsToFetch(count, units, eff, crunchers)
    requires count == 0 ==> units == 0
    ensures (if units + rate == 0 then 100 * (count + 1) else units + rate) >= eff <==>
            units + rate >= eff || (rate > 0 && (units > 0 || count == 0)) || (rate == 0 && units == 0)
  {
  }

  /** The in-buffer after a move: one packet more, and its units. */
  lemma MovedIntoIn(e: Setup, m: Moment, contest: nat, remote: nat)
    requires FetchReady(e, m, contest, remote) && e.limitsOk && Fetches(e, m, contest, remote)
    requires RouteOf(e, contest, remote).Apart() && AllToDo(e.host, m.files[remote], contest)
    ensures Gets(e, m, remote)
    ensures var data, next := Front(e, m, remote), AfterFetch(e, m, contest, remote);
      var inFile := e.local(contest, false);
      var p, q := Packets(e.host, m.files[inFile]), Packets(e.host, next.files[inFile]);
      && CountContest(q, contest) == CountContest(p, contest) + 1
      && StatsUnits(e.swu, q, contest) == StatsUnits(e.swu, p, contest) + (if e.swu(data) > 0 then e.swu(data) else 0)
      && InAndRemote(e, next, contest, remote) == InAndRemote(e, m, contest, remote)
      && data in InAndRemote(e, m, contest, remote) && data.contest == contest
  {
    FetchOps(e, m, contest, remote);
    FetchMoves(e, m, contest, remote);
    RemoteFront(e, m, contest, remote);
    hide Packets, Front, Gets, AfterFetch, AfterGet, Fetches, InBuffer, Names, Stored, Held, Recognised, StatsUnits;
    hide CountContest;
    var data, next := Front(e, m, remote), AfterFetch(e, m, contest, remote);
    assert data in Packets(e.host, m.files[remote]);
    MatchesContest(data, contest, false);
    var inFile := e.local(contest, false);
    var between := AfterGet(e, m, remote);
    assert between.files[inFile] == m.files[inFile];
    var p, q, left := Packets(e.host, m.files[inFile]), Packets(e.host, next.files[inFile]),
                      Packets(e.host, next.files[remote]);
    AddedUnits(e, p, q, data, contest);
    MultisetOfBoth([data], left);
    InAndRemoteSum(multiset(p), multiset(q), multiset(left), multiset(Packets(e.host, m.files[remote])), data);
  }

  lemma InAndRemoteSum(p: multiset<WorkRecord>, q: multiset<WorkRecord>, left: multiset<WorkRecord>,
                       before: multiset<WorkRecord>, data: WorkRecord)
    requires q == p + multiset{data} && before == multiset{data} + left
    ensures q + left == p + before && data in p + before
  {
  }

  lemma {:induction false} AddedUnits(e: Setup, p: seq<WorkRecord>, q: seq<WorkRecord>, data: WorkRecord, contest: nat)
    requires multiset(q) == multiset(p) + multiset{data} && data.contest == contest
    ensures CountContest(q, contest) == CountContest(p, contest) + 1
    ensures StatsUnits(e.swu, q, contest) == StatsUnits(e.swu, p, contest) + if e.swu(data) > 0 then e.swu(data) else 0
  {
    hide CountContest, StatsUnits;
    assert multiset(p + [data]) == multiset(q);
    CountByBag(q, p + [data], contest);
    StatsByBag(e.swu, q, p + [data], contest);
    CountContestAppend(p, [data], contest);
    StatsUnitsAppend(e.swu, p, [data], contest);
    CountOne(e.swu, data, contest);
  }

  /** A move, by the counts and units of the in-buffer before and after it. */
  lemma MoveFacts(e: Setup, m: Moment, contest: nat, remote: nat, d: Demand)
    requires FetchReady(e, m, contest, remote) && e.limitsOk && RouteOf(e, contest, remote).Apart()
    requires AllToDo(e.host, m.files[remote], contest) && RatedAlike(e, contest, InAndRemote(e, m, contest, remote))
    requires var m1 := AfterNeed(e, m, contest, d);
      && Need(e, m, contest, d) > 0 && Fetches(e, m1, contest, remote) && Gets(e, m1, remote)
      && Clean(e, m.ops, AfterFetch(e, m1, contest, remote).ops)
    ensures var m1, inFile := AfterNeed(e, m, contest, d), e.local(contest, false);
      var m2, data := AfterFetch(e, m1, contest, remote), Front(e, m1, remote);
      var p, q := Packets(e.host, m.files[inFile]), Packets(e.host, m2.files[inFile]);
      var count, units := CountContest(p, contest), StatsUnits(e.swu, p, contest);
      && CountContest(q, contest) == count + 1
      && StatsUnits(e.swu, q, contest) == units + (if e.swu(data) > 0 then e.swu(data) else 0)
      && Counted(e, m1, remote) == CountContest(Packets(e.host, m2.files[remote]), contest)
      && (if e.swu(data) > 0 then count <= units && (count == 0 ==> units == 0) else units == 0)
  {
    var m1, inFile := AfterNeed(e, m, contest, d), e.local(contest, false);
    var m2, data := AfterFetch(e, m1, contest, remote), Front(e, m1, remote);
    FetchOps(e, m1, contest, remote);
    CleanWithin(e, m.ops, m1.ops, m2.ops, m2.ops);
    MovedIntoIn(e, m1, contest, remote);
    FetchLeaves(e, m1, contest, remote, m2.ops);
    FetchGoesIn(e, m1, contest, remote);
    hide Packets, Front, Gets, AfterFetch, AfterGet, Fetches, InBuffer, Names, Stored, Held, Recognised, StatsUnits;
    hide CountContest, Need, AfterNeed, AllToDo, Counted, GoesOut, Clean;
    RatedAs(e, m1, contest, remote, data);
  }

  lemma FetchGoesIn(e: Setup, m: Moment, contest: nat, remote: nat)
    requires FetchReady(e, m, contest, remote) && e.limitsOk && Fetches(e, m, contest, remote)
    requires RouteOf(e, contest, remote).Apart() && AllToDo(e.host, m.files[remote], contest)
    ensures Gets(e, m, remote) && Home(e, Front(e, m, remote)) == e.local(contest, false)
  {
    FetchOps(e, m, contest, remote);
    RemoteFront(e, m, contest, remote);
    hide Packets, Front, Gets, AfterFetch, Fetches, InBuffer, Names, Recognised, GoesOut;
    assert Front(e, m, remote) in Packets(e.host, m.files[remote]);
    MatchesContest(Front(e, m, remote), contest, false);
  }

  lemma RatedAs(e: Setup, m: Moment, contest: nat, remote: nat, data: WorkRecord)
    requires e.local(contest, false) < |m.files| && remote < |m.files| && data.contest == contest
    requires RatedAlike(e, contest, InAndRemote(e, m, contest, remote)) && data in InAndRemote(e, m, contest, remote)
    ensures var p := Packets(e.host, m.files[e.local(contest, false)]);
      var count, units := CountContest(p, contest), StatsUnits(e.swu, p, contest);
      if e.swu(data) > 0 then count <= units && (count == 0 ==> units == 0) else units == 0
  {
    hide Packets, CountContest, StatsUnits;
    var p := Packets(e.host, m.files[e.local(contest, false)]);
    RatedUnits(e.swu, p, contest);
    assert forall x | x in p :: x in InAndRemote(e, m, contest, remote);
  }

  /** What was still needed before a packet was moved, and whether it covered that. */
  lemma MoveFits(e: Setup, m: Moment, contest: nat, remote: nat, d: Demand, r: Fetching)
    requires FetchReady(e, m, contest, remote) && e.limitsOk && RouteOf(e, contest, remote).Apart()
    requires AllToDo(e.host, m.files[remote], contest) && RatedAlike(e, contest, InAndRemote(e, m, contest, remote))
    requires var m1 := AfterNeed(e, m, contest, d);
      && Need(e, m, contest, d) > 0 && Fetches(e, m1, contest, remote) && Gets(e, m1, remote)
      && Clean(e, m.ops, AfterFetch(e, m1, contest, remote).ops)
      && r.moved != [] && r.moved[|r.moved| - 1] == Front(e, m1, remote)
      && e.local(contest, false) < |r.next.files| && remote < |r.next.files|
      && Bag(e.host, r.next.files[e.local(contest, false)])
         == Bag(e.host, AfterFetch(e, m1, contest, remote).files[e.local(contest, false)])
      && (r.end == Satisfied ==>
            || Enough(e, contest, remote, d, r)
            || (r.next == AfterFetch(e, m1, contest, remote)
                && (Counted(e, m1, remote) == 0 || UnitsOf(e, Front(e, m1, remote)) >= Need(e, m, contest, d))))
    ensures Fits(e, contest, remote, d, r)
  {
    var m1, inFile := AfterNeed(e, m, contest, d), e.local(contest, false);
    var m2, data := AfterFetch(e, m1, contest, remote), Front(e, m1, remote);
    MoveFacts(e, m, contest, remote, d);
    NeededUnits(e, m, contest, d);
    hide *;
    hide UnitsToFetch;
    SameUnits(e, r.next.files[inFile], m2.files[inFile], contest);
    var p := Packets(e.host, m.files[inFile]);
    var count, units := CountContest(p, contest), StatsUnits(e.swu, p, contest);
    var rate := if e.swu(data) > 0 then e.swu(data) else 0;
    UnitsOfRate(e, data);
    if UnitsOf(e, data) >= Need(e, m, contest, d) {
      LastCoversIff(count, units, rate, EffectiveThreshold(d), d.crunchers);
    }
    FitsByNumbers(e, contest, remote, d, r, count, units, rate);
  }

  lemma UnitsOfRate(e: Setup, data: WorkRecord)
    ensures UnitsOf(e, data) == if e.swu(data) > 0 then e.swu(data) else 100
  {
  }

  lemma SameUnits(e: Setup, a: Slots, b: Slots, contest: nat)
    requires Bag(e.host, a) == Bag(e.host, b)
    ensures CountContest(Packets(e.host, a), contest) == CountContest(Packets(e.host, b), contest)
    ensures StatsUnits(e.swu, Packets(e.host, a), contest) == StatsUnits(e.swu, Packets(e.host, b), contest)
  {
    hide Packets, CountContest, StatsUnits;
    CountByBag(Packets(e.host, a), Packets(e.host, b), contest);
    StatsByBag(e.swu, Packets(e.host, a), Packets(e.host, b), contest);
  }

  lemma FitsByNumbers(e: Setup, contest: nat, remote: nat, d: Demand, r: Fetching, count: nat, units: nat, rate: nat)
    requires e.local(contest, false) < |r.next.files| && remote < |r.next.files| && r.moved != []
    requires var last, q := r.moved[|r.moved| - 1], Packets(e.host, r.next.files[e.local(contest, false)]);
      && CountContest(q, contest) == count + 1 && StatsUnits(e.swu, q, contest) == units + rate
      && rate == (if e.swu(last) > 0 then e.swu(last) else 0)
    requires count < d.limit
    requires (StatsOrPackets(count, units) < d.threshold && StatsOrPackets(count, units) < 100 * d.limit)
             || count < d.crunchers
    requires r.end == Satisfied ==>
      || Enough(e, contest, remote, d, r)
      || CountContest(Packets(e.host, r.next.files[remote]), contest) == 0
      || (if units + rate == 0 then 100 * (count + 1) else units + rate) >= EffectiveThreshold(d)
    ensures Fits(e, contest, remote, d, r)
  {
    hide Packets, CountContest, StatsUnits;
  }

  lemma NeededUnits(e: Setup, m: Moment, contest: nat, d: Demand)
    requires e.local(contest, false) < |m.files| && Need(e, m, contest, d) > 0
    ensures var p := Packets(e.host, m.files[e.local(contest, false)]);
      var count, units := CountContest(p, contest), StatsUnits(e.swu, p, contest);
      && count < d.limit
      && Need(e, m, contest, d) == UnitsToFetch(count, units, EffectiveThreshold(d), d.crunchers)
      && ((StatsOrPackets(count, units) < d.threshold && StatsOrPackets(count, units) < 100 * d.limit)
          || count < d.crunchers)
  {
    hide Packets, CountContest, StatsUnits, CountSucceeds;
  }

  lemma MetIsEnough(e: Setup, contest: nat, remote: nat, d: Demand, r: Fetching)
    requires e.local(contest, false) < |r.next.files| && remote < |r.next.files| && Met(e, r.next, contest, d)
    ensures Enough(e, contest, remote, d, r)
  {
    hide Packets, CountContest, StatsUnits;
  }

  lemma IdleFits(e: Setup, m: Moment, contest: nat, remote: nat, d: Demand, r: Fetching)
    requires e.local(contest, false) < |m.files| && remote < |m.files| && e.limitsOk && r.moved == []
    requires |r.next.files| == |m.files|
    requires r.end == Satisfied ==>
      Need(e, m, contest, d) == 0 && r.next.files == m.files && Clean(e, m.ops, AfterNeed(e, m, contest, d).ops)
    ensures Fits(e, contest, remote, d, r)
  {
    hide Packets, CountContest, StatsUnits, Need, AfterNeed;
    if r.end == Satisfied {
      NothingNeededIffMet(e, m, contest, d);
      MetByFiles(e, m, r.next, contest, d);
      MetIsEnough(e, contest, remote, d, r);
    }
  }

  /** From a file that is none of the contest's buffers, with work of the contest only, and packets rated alike. */
  ghost predicate Fitting(e: Setup, contest: nat, remote: nat, m: Moment, packets: nat, last: int) {
    && FetchReady(e, m, contest, remote) && e.limitsOk
    && RouteOf(e, contest, remote).Apart() && AllToDo(e.host, m.files[remote], contest)
    && RatedAlike(e, contest, InAndRemote(e, m, contest, remote))
    && (packets > 0 ==> last == |Packets(e.host, m.files[e.local(contest, false)])|)
  }

  lemma FittingIsReady(e: Setup, contest: nat, remote: nat, m: Moment, packets: nat, last: int)
    requires Fitting(e, contest, remote, m, packets, last)
    ensures FetchReady(e, m, contest, remote) && e.limitsOk && RouteOf(e, contest, remote).Apart()
  {
  }

  /** So it is after a packet has been moved, which makes the in-buffer grow. */
  lemma FittingNext(e: Setup, contest: nat, remote: nat, d: Demand, m: Moment, packets: nat, last: int)
    requires Fitting(e, contest, remote, m, packets, last)
    requires Need(e, m, contest, d) > 0 && Fetches(e, AfterNeed(e, m, contest, d), contest, remote)
    ensures var m1 := AfterNeed(e, m, contest, d);
      var m2, count := AfterFetch(e, m1, contest, remote), InBuffer(e, m1, contest, remote);
      && Gets(e, m1, remote) && !(packets > 0 && last >= count) && m1.ops + 2 <= m2.ops && m.ops <= m1.ops
      && Fitting(e, contest, remote, m2, packets + 1, count)
  {
    hide AllToDo, Packets, Front, Gets, Counted, AfterFetch, Fetches, PutsBack, InBuffer, Need, Refusal, Names;
    hide AfterNeed, RatedAlike, InAndRemote;
    var m1 := AfterNeed(e, m, contest, d);
    FetchOps(e, m1, contest, remote);
    FetchProgress(e, m1, contest, remote);
    AllToDoSame(e.host, m, m1, remote, contest);
    RemoteFront(e, m1, contest, remote);
    MovedIntoIn(e, m1, contest, remote);
    SameUnion(e, m, m1, contest, remote);
  }

  /**
   * What a clean fetch comes to: satisfied it has fetched enough, and nothing it fetched was more than was lacking when
   * it was fetched.
   */
  lemma {:induction false} FetchFitsDemand(e: Setup, contest: nat, remote: nat, d: Demand, exit: nat -> bool,
                                           pending: bool, polls: nat, packets: nat, last: int, warnings: nat, m: Moment)
    requires Fitting(e, contest, remote, m, packets, last) && FetchReady(e, m, contest, remote)
    requires warnings <= MAX_REMOTE_BUFFER_WARNINGS
    requires Clean(e, m.ops, Fetch(e, contest, remote, d, exit, pending, polls, packets, last, warnings, m).next.ops)
    ensures Fits(e, contest, remote, d,
                 Fetch(e, contest, remote, d, exit, pending, polls, packets, last, warnings, m))
    decreases |Packets(e.host, m.files[remote])|, MAX_REMOTE_BUFFER_WARNINGS - warnings,
              if packets > 0 && last >= |Packets(e.host, m.files[remote])| then 0 else 1
  {
    FittingIsReady(e, contest, remote, m, packets, last);
    hide Fitting, Packets, Front, Gets, Counted, AfterFetch, Fetches, PutsBack, InBuffer, Need, Refusal, Names, UnitsOf;
    hide AfterNeed, Fits, Enough, Fetch, Clean, Route.Apart;
    var r := Fetch(e, contest, remote, d, exit, pending, polls, packets, last, warnings, m);
    var need, m1 := Need(e, m, contest, d), AfterNeed(e, m, contest, d);
    FetchStops(e, contest, remote, d, exit, pending, polls, packets, last, warnings, m);
    if (!pending && exit(polls)) || need == 0 || !Fetches(e, m1, contest, remote) {
      RefusalIsNone(e, m1, contest, remote);
      IdleFits(e, m, contest, remote, d, r);
      return;
    }
    FetchGoesOn(e, contest, remote, d, exit, pending, polls, packets, last, warnings, m);
    FetchProgress(e, m1, contest, remote);
    FittingNext(e, contest, remote, d, m, packets, last);
    var m2, data, count := AfterFetch(e, m1, contest, remote), Front(e, m1, remote), InBuffer(e, m1, contest, remote);
    CleanWithin(e, m.ops, m.ops, m2.ops, r.next.ops);
    if Counted(e, m1, remote) > 0 && UnitsOf(e, data) < need {
      var on := if pending then polls else polls + 1;
      FetchFitsDemand(e, contest, remote, d, exit, pending, on, packets + 1, count, warnings, m2);
      FetchConserves(e, contest, remote, d, exit, pending, on, packets + 1, count, warnings, m2);
      FitsOn(e, m, contest, remote, d, packets, last,
             Fetch(e, contest, remote, d, exit, pending, on, packets + 1, count, warnings, m2));
    } else {
      LastFits(e, m, contest, remote, d, packets, last, r);
    }
  }

  /** What a fetch comes to that first moves a packet and then goes on as `rest`. */
  lemma FitsOn(e: Setup, m: Moment, contest: nat, remote: nat, d: Demand, packets: nat, last: int, rest: Fetching)
    requires Fitting(e, contest, remote, m, packets, last) && Named(e, m) && remote < |m.files|
    requires e.local(contest, false) < |m.files|
    requires var m1 := AfterNeed(e, m, contest, d); var m2 := AfterFetch(e, m1, contest, remote);
      && Need(e, m, contest, d) > 0 && Fetches(e, m1, contest, remote) && Gets(e, m1, remote)
      && Clean(e, m.ops, m2.ops) && Fits(e, contest, remote, d, rest) && Kept(e, contest, remote, m2, rest)
    ensures Gets(e, AfterNeed(e, m, contest, d), remote)
    ensures Fits(e, contest, remote, d, Moving(Front(e, AfterNeed(e, m, contest, d), remote), rest))
  {
    FittingIsReady(e, contest, remote, m, packets, last);
    hide Fitting, Packets, Front, Gets, Counted, AfterFetch, Fetches, InBuffer, Need, Names, UnitsOf, AfterNeed, Fits;
    hide Enough, Clean, Route.Apart, Kept;
    var m1 := AfterNeed(e, m, contest, d);
    var data := Front(e, m1, remote);
    FitsLater(e, AfterFetch(e, m1, contest, remote), contest, remote, d, data, rest);
    if rest.moved == [] {
      LastFits(e, m, contest, remote, d, packets, last, Moving(data, rest));
    }
  }

  lemma LastFits(e: Setup, m: Moment, contest: nat, remote: nat, d: Demand, packets: nat, last: int, r: Fetching)
    requires Fitting(e, contest, remote, m, packets, last) && Named(e, m) && remote < |m.files|
    requires e.local(contest, false) < |m.files|
    requires var m1 := AfterNeed(e, m, contest, d);
      && Need(e, m, contest, d) > 0 && Fetches(e, m1, contest, remote) && Gets(e, m1, remote)
      && Clean(e, m.ops, AfterFetch(e, m1, contest, remote).ops)
      && r.moved != [] && r.moved[|r.moved| - 1] == Front(e, m1, remote)
      && e.local(contest, false) < |r.next.files| && remote < |r.next.files|
      && Bag(e.host, r.next.files[e.local(contest, false)])
         == Bag(e.host, AfterFetch(e, m1, contest, remote).files[e.local(contest, false)])
      && (r.end == Satisfied ==>
            || Enough(e, contest, remote, d, r)
            || (r.next == AfterFetch(e, m1, contest, remote)
                && (Counted(e, m1, remote) == 0 || UnitsOf(e, Front(e, m1, remote)) >= Need(e, m, contest, d))))
    ensures Fits(e, contest, remote, d, r)
  {
    FittingIsReady(e, contest, remote, m, packets, last);
    assert AllToDo(e.host, m.files[remote], contest) && RatedAlike(e, contest, InAndRemote(e, m, contest, remote));
    hide *;
    MoveFits(e, m, contest, remote, d, r);
  }

  lemma SameUnion(e: Setup, a: Moment, b: Moment, contest: nat, remote: nat)
    requires a.files == b.files && e.local(contest, false) < |a.files| && remote < |a.files|
    ensures InAndRemote(e, a, contest, remote) == InAndRemote(e, b, contest, remote)
  {
  }

  lemma RefusalIsNone(e: Setup, m: Moment, contest: nat, remote: nat)
    requires remote < |m.files|
    ensures Refusal(e, m, contest, remote) !in {Satisfied, LoopDetected}
  {
    hide Gets, Front, GetResult;
  }

  lemma FitsLater(e: Setup, m: Moment, contest: nat, remote: nat, d: Demand, data: WorkRecord, r: Fetching)
    requires Fits(e, contest, remote, d, r) && Kept(e, contest, remote, m, r) && e.limitsOk
    requires RouteOf(e, contest, remote).Apart()
    ensures r.moved != [] ==> Fits(e, contest, remote, d, Moving(data, r))
    ensures Enough(e, contest, remote, d, Moving(data, r))
    ensures r.moved == [] ==>
      && e.local(contest, false) < |m.files|
      && Bag(e.host, r.next.files[e.local(contest, false)]) == Bag(e.host, m.files[e.local(contest, false)])
  {
    hide Packets, CountContest, StatsUnits, Held, Bag;
    if r.moved == [] {
      KeptInFile(e, m, contest, remote, r);
    } else {
      hide Kept;
      FitsMoving(e, contest, remote, d, data, r);
    }
  }

  lemma FitsMoving(e: Setup, contest: nat, remote: nat, d: Demand, data: WorkRecord, r: Fetching)
    requires Fits(e, contest, remote, d, r) && r.moved != []
    ensures Fits(e, contest, remote, d, Moving(data, r))
  {
    hide Packets, CountContest, StatsUnits;
    var s := Moving(data, r);
    assert s.moved[|s.moved| - 1] == r.moved[|r.moved| - 1];
  }

  lemma KeptInFile(e: Setup, m: Moment, contest: nat, remote: nat, r: Fetching)
    requires Kept(e, contest, remote, m, r) && e.limitsOk && RouteOf(e, contest, remote).Apart() && r.moved == []
    ensures var id := e.local(contest, false);
      id < |m.files| == |r.next.files| && Bag(e.host, r.next.files[id]) == Bag(e.host, m.files[id])
  {
    hide Held, Bag, Into;
    var route, id := RouteOf(e, contest, remote), e.local(contest, false);
    NothingInto(route, id);
    assert Flow(e.host, route, m.files, r.next.files, [], multiset(r.lost), id);
    assert Bag(e.host, m.files[id]) + multiset{} == Bag(e.host, m.files[id]);
    assert Bag(e.host, r.next.files[id]) + multiset{} == Bag(e.host, r.next.files[id]);
  }

  lemma NothingInto(r: Route, id: nat)
    ensures Into(r, [], id) == multiset{}
  {
  }

  // ---- The fetch, as the code is written ----

  datatype Pass = Moved(inBuffer: nat) | Ended(end: FetchEnd)

  /** One packet from the remote file to the local buffer it belongs in, or back where it came from. */
  method FetchOne(c: Client, contest: nat, remote: nat, init: WorkRecord)
    returns (pass: Pass, data: WorkRecord, remaining: nat)
    requires FetchReady(c.Env(), c.Now(), contest, remote)
    modifies c.disk`files, c.disk`ops
    ensures c.Now() == AfterFetch(c.Env(), old(c.Now()), contest, remote)
    ensures pass == if Fetches(c.Env(), old(c.Now()), contest, remote)
                    then Moved(InBuffer(c.Env(), old(c.Now()), contest, remote))
                    else Ended(Refusal(c.Env(), old(c.Now()), contest, remote))
    ensures Gets(c.Env(), old(c.Now()), remote) ==>
      data == Front(c.Env(), old(c.Now()), remote) && remaining == Counted(c.Env(), old(c.Now()), remote)
  {
    hide Gets, Front, Counted, AfterGet, Saves, AfterSave, Puts, AfterPut, Names, GetResult, HomeCount;
    var rc;
    rc, data, remaining := c.Take(remote, init);
    if rc != Got {
      return Ended(if rc == IoError then RemoteError else RemoteEmpty), data, remaining;
    }
    var inBuffer := -1;
    if data.contest == contest {
      inBuffer := c.PutBufferRecord(data);
    }
    if inBuffer < 0 {
      var _, _ := c.Store(remote, data, false);
      return Ended(if data.contest != contest then WrongContest else LocalFailed), data, remaining;
    }
    return Moved(inBuffer), data, remaining;
  }

  /** BufferFetchFile for one contest. `remote` may be any file, one of the client's own buffers included. */
  method FetchContest(c: Client, contest: nat, remote: nat, d: Demand, init: WorkRecord, pending: bool,
                      exit: nat -> bool)
    returns (end: FetchEnd, packets: nat)
    requires FetchReady(c.Env(), c.Now(), contest, remote)
    modifies c.disk`files, c.disk`ops
    ensures var r := Fetch(c.Env(), contest, remote, d, exit, pending, 0, 0, -1, 0, old(c.Now()));
      c.Now() == r.next && end == r.end && |r.moved| == packets + if end == LoopDetected then 1 else 0
  {
    hide Gets, Front, Counted, AfterFetch, Fetches, PutsBack, InBuffer, Need, AfterNeed, Refusal, Names, Packets, Fetch;
    end, packets := Satisfied, 0;
    var left, last, warnings, polls, data := 1, -1, 0, 0, init;
    ghost var e, start := c.Env(), c.Now();
    ghost var r := Fetch(e, contest, remote, d, exit, pending, 0, 0, -1, 0, start);
    while left > 0
      invariant left >= 0 && |c.disk.files| == |start.files| && warnings <= MAX_REMOTE_BUFFER_WARNINGS
      invariant end == Satisfied
      invariant left > 0 ==>
        SameFetch(Fetch(e, contest, remote, d, exit, pending, polls, packets, last, warnings, c.Now()), packets, r)
      invariant left == 0 ==> c.Now() == r.next && r.end == Satisfied && packets == |r.moved|
      decreases |Packets(e.host, c.disk.files[remote])|, MAX_REMOTE_BUFFER_WARNINGS - warnings,
                if packets > 0 && last >= |Packets(e.host, c.disk.files[remote])| then 0 else 1, left
    {
      ghost var m := c.Now();
      FetchStops(e, contest, remote, d, exit, pending, polls, packets, last, warnings, m);
      if !pending {
        if exit(polls) {
          end := Interrupted;
          break;
        }
        polls := polls + 1;
      }
      left := ReComputeUnitsToFetch(c, contest, d);
      if left > 0 {
        NeedHasLimits(e, m, contest, d);
        ghost var m1 := c.Now();
        var pass, remaining;
        pass, data, remaining := FetchOne(c, contest, remote, data);
        if pass.Ended? {
          end := pass.end;
          RefusalMeaning(e, m1, contest, remote);
          break;
        }
        FetchGoesOn(e, contest, remote, d, exit, pending, if pending then polls else polls - 1,
                    packets, last, warnings, m);
        FetchProgress(e, m1, contest, remote);
        if packets > 0 && last >= pass.inBuffer {
          if warnings < MAX_REMOTE_BUFFER_WARNINGS {
            warnings := warnings + 1;
          } else {
            end := LoopDetected;
            break;
          }
        }
        last := pass.inBuffer;
        packets := packets + 1;
        var units := if c.disk.swu(data) > 0 then c.disk.swu(data) else 100;
        left := if remaining == 0 || units > left then 0 else left - units;
      }
    }
  }

  /** Two fetches that end alike, the first of them `packets` moves later. */
  predicate SameFetch(s: Fetching, packets: nat, r: Fetching) {
    s.end == r.end && s.next == r.next && |r.moved| == packets + |s.moved|
  }
}
