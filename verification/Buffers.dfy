/** PutBufferRecord and GetBufferRecord over buffer files (buffbase.cpp). */
module Buffers {
  import opened Records
  import opened SlotFile
  import opened Disk
  import opened Routing

  const MAX_REMOTE_BUFFER_WARNINGS: nat := 3

  // ---- One step at a time ----

  /** What the buffer code depends on: the machine, the names of the buffer files, and whether their prefixes differ. */
  datatype Setup = Setup(host: Host, faults: nat -> Fault, swu: WorkRecord -> int, local: (nat, bool) -> nat,
                         limitsOk: bool)

  /** The files, and how many operations have been made on them. */
  datatype Moment = Moment(files: seq<Slots>, ops: nat)

  /** The buffers are different files, if the prefixes differ. */
  ghost predicate Named(e: Setup, m: Moment) {
    e.limitsOk ==> Names(e.local, |m.files|)
  }

  /** None of the operations from number `from` up to number `to` meets an I/O error. */
  ghost predicate Clean(e: Setup, from: nat, to: nat) {
    forall n | from <= n < to :: e.faults(n) == NO_FAULT
  }

  /** A get from file id succeeds. */
  predicate Gets(e: Setup, m: Moment, id: nat)
    requires id < |m.files|
  {
    GetResult(m.files[id], e.faults(m.ops)) == Got
  }

  lemma GotIsLive(e: Setup, m: Moment, id: nat)
    requires id < |m.files| && Gets(e, m, id)
    ensures FirstLive(m.files[id]) < |m.files[id]|
  {
  }

  /** The packet a get from file id yields. */
  function Front(e: Setup, m: Moment, id: nat): WorkRecord
    requires id < |m.files| && Gets(e, m, id)
  {
    GotIsLive(e, m, id);
    Switched(e.host, m.files[id][FirstLive(m.files[id])])
  }

  /** A get counts as two operations if it succeeds: the get itself, and the count of what is left. */
  function AfterGet(e: Setup, m: Moment, id: nat): (r: Moment)
    requires id < |m.files|
    ensures |r.files| == |m.files| && r.ops > m.ops
  {
    match GetResult(m.files[id], e.faults(m.ops))
    case IoError => Moment(m.files, m.ops + 1)
    case NoRecords => Moment(m.files[id := GetSlots(m.files[id])], m.ops + 1)
    case Got => Moment(m.files[id := GetSlots(m.files[id])], m.ops + 2)
  }

  /** How many packets of the same contest a successful get reports to be left; none if counting fails. */
  function Counted(e: Setup, m: Moment, id: nat): nat
    requires id < |m.files| && Gets(e, m, id)
  {
    var left := GetSlots(m.files[id]);
    if CountSucceeds(left, e.faults(m.ops + 1)) then CountContest(Packets(e.host, left), Front(e, m, id).contest) else 0
  }

  /** A put into file id succeeds. */
  predicate Puts(e: Setup, m: Moment, id: nat, counting: bool)
    requires id < |m.files|
  {
    PutSucceeds(m.files[id], counting, e.faults(m.ops))
  }

  function AfterPut(e: Setup, m: Moment, id: nat, data: WorkRecord, counting: bool): (r: Moment)
    requires id < |m.files|
    ensures |r.files| == |m.files| && r.ops == m.ops + 1
  {
    if Puts(e, m, id, counting) then
      Moment(m.files[id := PutSlots(e.host, m.files[id], data, counting)], m.ops + 1)
    else Moment(m.files, m.ops + 1)
  }

  /** The file of the buffer a packet belongs in. */
  function Home(e: Setup, d: WorkRecord): nat {
    e.local(d.contest, GoesOut(d))
  }

  lemma HomeInRange(e: Setup, m: Moment, d: WorkRecord)
    requires Names(e.local, |m.files|) && Recognised(d)
    ensures Home(e, d) < |m.files|
  {
  }

  predicate Accepts(e: Setup, d: WorkRecord) {
    Recognised(d) && e.limitsOk
  }

  /** PutBufferRecord succeeds on the packet. */
  predicate Saves(e: Setup, m: Moment, d: WorkRecord)
    requires Named(e, m)
  {
    Accepts(e, d) && (HomeInRange(e, m, d); Puts(e, m, Home(e, d), true))
  }

  function AfterSave(e: Setup, m: Moment, d: WorkRecord): (r: Moment)
    requires Named(e, m)
    ensures |r.files| == |m.files| && m.ops <= r.ops <= m.ops + 1
  {
    if Accepts(e, d) then (HomeInRange(e, m, d); AfterPut(e, m, Home(e, d), d, true)) else m
  }

  lemma GetTakes(e: Setup, m: Moment, id: nat)
    requires id < |m.files|
    ensures TakeEffect(e.host, m.files, AfterGet(e, m, id).files, id, if Gets(e, m, id) then [Front(e, m, id)] else [])
    ensures Gets(e, m, id) ==> Stored(e.host, Front(e, m, id)) == Front(e, m, id)
    ensures GetResult(m.files[id], e.faults(m.ops)) == NoRecords ==> AfterGet(e, m, id).files[id] == []
    ensures e.faults(m.ops) == NO_FAULT ==> (Gets(e, m, id) <==> Packets(e.host, m.files[id]) != [])
    ensures e.faults(m.ops) == NO_FAULT ==> GetResult(m.files[id], e.faults(m.ops)) != IoError
  {
    hide TakeEffect, Stored, Packets, GetSlots, Switched, FirstLive;
    var s := m.files[id];
    GetIsTake(e.host, m.files, id);
    NothingTaken(e.host, m.files, id);
    GetTakesFirst(e.host, s);
  }

  lemma PutStores(e: Setup, m: Moment, id: nat, d: WorkRecord, counting: bool)
    requires id < |m.files|
    ensures StoreEffect(e.host, m.files, AfterPut(e, m, id, d, counting).files, id,
                        if Puts(e, m, id, counting) then [Stored(e.host, d)] else [])
    ensures e.faults(m.ops) == NO_FAULT ==> Puts(e, m, id, counting)
  {
    hide StoreEffect, Stored, PutSlots;
    PutIsStore(e.host, m.files, id, d, counting);
    NothingTaken(e.host, m.files, id);
  }

  lemma PutOnFull(h: Host, s: Slots, data: WorkRecord, counting: bool)
    requires |Packets(h, s)| == |s|
    ensures Packets(h, PutSlots(h, s, data, counting)) == Packets(h, s) + [Stored(h, data)]
    ensures |PutSlots(h, s, data, counting)| == |s| + 1
  {
    PacketCount(h, s);
    SwitchedIsNotBlank(h, data);
    var r := Switched(h, data);
    PacketsAppend(h, s, [r]);
    assert Packets(h, [r]) == [Switched(h, r)];
  }

  // ---- GetBufferRecord ----

  /** The exit trigger does not stop a loop: it is never pulled, or was pulled before the call already. */
  ghost predicate NoBreak(exit: nat -> bool) {
    exit(0) || forall k: nat :: !exit(k)
  }

  /** The packet at k can be returned and each one before it leaves another of its contest behind. */
  predicate ReachedAt(packets: seq<WorkRecord>, k: int, contest: nat, out: bool)
    requires 0 <= k < |packets|
  {
    Matches(packets[k], contest, out) && forall j | 0 <= j < k :: CountContest(packets[j + 1..], packets[j].contest) > 0
  }

  /**
   * Does the file loop of GetBufferRecord reach a packet it can return? It goes on only while the file
   * holds another packet of the contest of the one just taken.
   */
  predicate Reaches(packets: seq<WorkRecord>, contest: nat, out: bool) {
    packets != [] && (
      || Matches(packets[0], contest, out)
      || (CountContest(packets[1..], packets[0].contest) > 0 && Reaches(packets[1..], contest, out)))
  }

  /**
   * The loop fails to return a packet that is there exactly when some misfiled packet ahead of it is the last of its
   * contest.
   */
  lemma {:induction false} ReachesIff(packets: seq<WorkRecord>, contest: nat, out: bool)
    ensures Reaches(packets, contest, out) <==> exists k | 0 <= k < |packets| :: ReachedAt(packets, k, contest, out)
  {
    if packets != [] {
      var rest := packets[1..];
      ReachesIff(rest, contest, out);
      if Matches(packets[0], contest, out) {
        assert ReachedAt(packets, 0, contest, out);
      } else if Reaches(packets, contest, out) {
        var k :| 0 <= k < |rest| && ReachedAt(rest, k, contest, out);
        ReachedLater(packets, k, contest, out);
        assert ReachedAt(packets, k + 1, contest, out);
      } else if k :| 0 <= k < |packets| && ReachedAt(packets, k, contest, out) {
        if k > 0 {
          ReachedLater(packets, k - 1, contest, out);
        }
      }
    }
  }

  lemma ReachedLater(packets: seq<WorkRecord>, k: int, contest: nat, out: bool)
    requires 0 <= k && k + 1 < |packets|
    ensures ReachedAt(packets, k + 1, contest, out) <==>
            CountContest(packets[1..], packets[0].contest) > 0 && ReachedAt(packets[1..], k, contest, out)
  {
    hide CountContest, Matches;
    var rest := packets[1..];
    assert forall j | 0 <= j < |rest| :: rest[j] == packets[j + 1] && rest[j + 1..] == packets[j + 2..];
    if ReachedAt(packets, k + 1, contest, out) {
      assert CountContest(packets[0 + 1..], packets[0].contest) > 0;
      forall j | 0 <= j < k ensures CountContest(rest[j + 1..], rest[j].contest) > 0 {
        assert CountContest(packets[j + 1 + 1..], packets[j + 1].contest) > 0;
      }
    }
    if CountContest(rest, packets[0].contest) > 0 && ReachedAt(rest, k, contest, out) {
      forall j | 0 <= j < k + 1 ensures CountContest(packets[j + 1..], packets[j].contest) > 0 {
        if j > 0 {
          assert CountContest(rest[j - 1 + 1..], rest[j - 1].contest) > 0;
        }
      }
    }
  }

  /** One misfiled packet, alone of its contest, hides the good packet behind it. */
  lemma GoodPacketHidden(stray: WorkRecord, good: WorkRecord, contest: nat)
    requires stray.contest != contest && Matches(good, contest, false)
    ensures !Reaches([stray, good], contest, false)
  {
    assert [stray, good][1..] == [good];
    CountContestBound([good], stray.contest);
    assert good in [good];
  }

  /** What one packet the loop took but could not return came to: saved in the buffer it belongs in, or dropped. */
  ghost predicate SortEffect(h: Host, local: (nat, bool) -> nat, contest: nat, out: bool, a: seq<Slots>, b: seq<Slots>,
                             data: WorkRecord, saved: bool) {
    && |a| == |b| && local(contest, out) < |a| && SameNonLocal(local, a, b)
    && Packets(h, a[local(contest, out)]) == [data] + Packets(h, b[local(contest, out)])
    && Held(h, a) == Held(h, b) + (if saved then multiset{} else multiset{data})
    && forall c: nat, o | c < CONTEST_COUNT && (c, o) != (contest, out) ::
         Delivered(h, a, b, local(c, o), if saved then [data] else [], c, o)
  }

  lemma DeliveredNothing(h: Host, a: seq<Slots>, b: seq<Slots>, id: nat, c: nat, o: bool)
    requires id < |a| && |b| == |a| && a[id] == b[id]
    ensures Delivered(h, a, b, id, [], c, o)
  {
    hide Packets;
  }

  lemma Dropped(h: Host, local: (nat, bool) -> nat, contest: nat, out: bool, a: seq<Slots>, b: seq<Slots>,
                data: WorkRecord)
    requires Names(local, |a|) && contest < CONTEST_COUNT && TakeEffect(h, a, b, local(contest, out), [data])
    ensures SortEffect(h, local, contest, out, a, b, data, false)
  {
    hide Held, Packets, Delivered;
    TakeTouchesLocal(h, local, a, b, contest, out, [data]);
    hide Names, SameNonLocal;
    forall c: nat, o | c < CONTEST_COUNT && (c, o) != (contest, out) ensures Delivered(h, a, b, local(c, o), [], c, o) {
      NamesAt(local, |a|, c, o);
      NamesDiffer(local, |a|, c, o, contest, out);
      DeliveredNothing(h, a, b, local(c, o), c, o);
    }
  }

  lemma CrossSaved(h: Host, local: (nat, bool) -> nat, contest: nat, out: bool, a: seq<Slots>, b: seq<Slots>,
                   e: seq<Slots>, data: WorkRecord)
    requires Names(local, |a|) && contest < CONTEST_COUNT && Recognised(data) && !Matches(data, contest, out)
    requires TakeEffect(h, a, b, local(contest, out), [data])
    requires StoreEffect(h, b, e, local(data.contest, GoesOut(data)), [data])
    ensures SortEffect(h, local, contest, out, a, e, data, true)
  {
    hide Held, Packets, Delivered, GoesOut;
    var src, target := local(contest, out), local(data.contest, GoesOut(data));
    NamesDiffer(local, |a|, contest, out, data.contest, GoesOut(data));
    TakeTouchesLocal(h, local, a, b, contest, out, [data]);
    StoreTouchesLocal(h, local, b, e, data.contest, GoesOut(data), [data]);
    SameNonLocalThen(local, a, b, e);
    hide Names, SameNonLocal;
    assert e[src] == b[src];
    forall c: nat, o | c < CONTEST_COUNT && (c, o) != (contest, out)
      ensures Delivered(h, a, e, local(c, o), [data], c, o) {
      NamesAt(local, |a|, c, o);
      NamesDiffer(local, |a|, c, o, contest, out);
      if (c, o) != (data.contest, GoesOut(data)) {
        NamesDiffer(local, |a|, c, o, data.contest, GoesOut(data));
      }
      DeliveredNothing(h, a, a, local(c, o), c, o);
      DeliveredNext(h, a, a, b, e, src, target, local(c, o), [], data, c, o);
      assert [] + [data] == [data];
    }
  }

  /**
   * From a to b the packets `taken` went, in this order, from the front of the buffer of contest and direction. Those
   * of `stray` are now in the buffers they belong in, and none of them back in that one; `gone` are the others.
   */
  ghost predicate Sifting(h: Host, local: (nat, bool) -> nat, contest: nat, out: bool, a: seq<Slots>, b: seq<Slots>,
                          taken: seq<WorkRecord>, stray: seq<WorkRecord>, gone: multiset<WorkRecord>) {
    && |a| == |b| && local(contest, out) < |a| && SameNonLocal(local, a, b)
    && Packets(h, a[local(contest, out)]) == taken + Packets(h, b[local(contest, out)])
    && multiset(taken) == multiset(stray) + gone
    && Held(h, a) == Held(h, b) + gone
    && forall c: nat, o | c < CONTEST_COUNT && (c, o) != (contest, out) :: Delivered(h, a, b, local(c, o), stray, c, o)
  }

  lemma SiftingNothing(h: Host, local: (nat, bool) -> nat, contest: nat, out: bool, a: seq<Slots>)
    requires Names(local, |a|) && contest < CONTEST_COUNT
    ensures Sifting(h, local, contest, out, a, a, [], [], multiset{})
  {
    hide Held, Packets, Delivered;
    forall c: nat, o | c < CONTEST_COUNT ensures Delivered(h, a, a, local(c, o), [], c, o) {
      DeliveredNothing(h, a, a, local(c, o), c, o);
    }
  }

  lemma DeliveredThen(h: Host, a: seq<Slots>, b: seq<Slots>, e: seq<Slots>, id: nat, first: seq<WorkRecord>,
                      rest: seq<WorkRecord>, c: nat, o: bool)
    requires Delivered(h, a, b, id, first, c, o) && Delivered(h, b, e, id, rest, c, o)
    ensures Delivered(h, a, e, id, first + rest, c, o)
  {
    hide Packets, Routed;
    RoutedAppend(first, rest, c, o);
    var a, b := Routed(first, c, o), Routed(rest, c, o);
    assert multiset(a + b) == multiset(a) + multiset(b);
  }

  /** The packet at the front of file src is cross-saved, or dropped if it is not recognised or the put fails. */
  predicate CrossSaves(e: Setup, m: Moment, src: nat)
    requires Names(e.local, |m.files|) && src < |m.files| && Gets(e, m, src)
  {
    var data := Front(e, m, src);
    Recognised(data) && (HomeInRange(e, m, data); Puts(e, AfterGet(e, m, src), Home(e, data), false))
  }

  function AfterSort(e: Setup, m: Moment, src: nat): (r: Moment)
    requires Names(e.local, |m.files|) && src < |m.files| && Gets(e, m, src)
    ensures |r.files| == |m.files| && r.ops > m.ops
  {
    var data := Front(e, m, src);
    if Recognised(data) then (HomeInRange(e, m, data); AfterPut(e, AfterGet(e, m, src), Home(e, data), data, false))
    else AfterGet(e, m, src)
  }

  lemma SortStep(e: Setup, contest: nat, out: bool, m: Moment)
    requires Names(e.local, |m.files|) && contest < CONTEST_COUNT && Gets(e, m, e.local(contest, out))
    requires !Matches(Front(e, m, e.local(contest, out)), contest, out)
    ensures var src := e.local(contest, out); var next := AfterSort(e, m, src);
      && SortEffect(e.host, e.local, contest, out, m.files, next.files, Front(e, m, src), CrossSaves(e, m, src))
      && Packets(e.host, m.files[src]) == [Front(e, m, src)] + Packets(e.host, next.files[src])
      && next.files[src] == AfterGet(e, m, src).files[src]
  {
    hide Packets, Held, TakeEffect, StoreEffect, SortEffect, Stored, Recognised, GoesOut, Front, Gets;
    var src := e.local(contest, out);
    var data, m1 := Front(e, m, src), AfterGet(e, m, src);
    GetTakes(e, m, src);
    Dropped(e.host, e.local, contest, out, m.files, m1.files, data);
    SortedFront(e.host, e.local, contest, out, m.files, m1.files, data, false);
    if Recognised(data) {
      HomeInRange(e, m, data);
      Misfiled(data, contest, out);
      NamesDiffer(e.local, |m.files|, contest, out, data.contest, GoesOut(data));
      PutStores(e, m1, Home(e, data), data, false);
      hide AfterGet;
      if CrossSaves(e, m, src) {
        CrossSaved(e.host, e.local, contest, out, m.files, m1.files, AfterSort(e, m, src).files, data);
      }
    }
  }

  lemma SortShrinks(e: Setup, contest: nat, out: bool, m: Moment)
    requires Names(e.local, |m.files|) && contest < CONTEST_COUNT && Gets(e, m, e.local(contest, out))
    requires !Matches(Front(e, m, e.local(contest, out)), contest, out)
    ensures var src := e.local(contest, out);
      |Packets(e.host, AfterSort(e, m, src).files[src])| < |Packets(e.host, m.files[src])|
  {
    hide *;
    NamesAt(e.local, |m.files|, contest, out);
    SortStep(e, contest, out, m);
  }

  lemma SortedFront(h: Host, local: (nat, bool) -> nat, contest: nat, out: bool, a: seq<Slots>, b: seq<Slots>,
                    data: WorkRecord, saved: bool)
    requires SortEffect(h, local, contest, out, a, b, data, saved)
    ensures |a| == |b| && local(contest, out) < |a|
    ensures Packets(h, a[local(contest, out)]) == [data] + Packets(h, b[local(contest, out)])
  {
    hide Held, Delivered;
  }

  /** What a search returns: nothing, or a packet and how many of its contest are left. */
  datatype Answer = Nothing | Packet(count: nat, data: WorkRecord)

  /**
   * A search of a buffer: its answer, the state it leaves, the misfits it passed, in order (all, those saved, those
   * not), and the numbers of the cross-puts that failed.
   */
  datatype Search = Search(answer: Answer, next: Moment, passed: seq<WorkRecord>,
                           strays: seq<WorkRecord>, dropped: seq<WorkRecord>, faulty: seq<nat>)

  /** The loop of GetBufferRecord on files. `exit(k)` answers poll k of the exit trigger unless a break was pending. */
  function SearchFile(e: Setup, contest: nat, out: bool, exit: nat -> bool, pending: bool, polls: nat,
                      m: Moment): (s: Search)
    requires Names(e.local, |m.files|) && contest < CONTEST_COUNT
    ensures |s.next.files| == |m.files| && s.next.ops > m.ops
    decreases |Packets(e.host, m.files[e.local(contest, out)])|
  {
    var src := e.local(contest, out);
    if !Gets(e, m, src) then Search(Nothing, AfterGet(e, m, src), [], [], [], [])
    else
      var data, count := Front(e, m, src), Counted(e, m, src);
      if Matches(data, contest, out) then Search(Packet(count, data), AfterGet(e, m, src), [], [], [], [])
      else
        SortShrinks(e, contest, out, m);
        var next := AfterSort(e, m, src);
        var rest := if (!pending && exit(polls)) || count == 0 then Search(Nothing, next, [], [], [], [])
                    else SearchFile(e, contest, out, exit, pending, if pending then polls else polls + 1, next);
        Passing(rest, data, CrossSaves(e, m, src), m.ops + 2)
  }

  /** A search that first passed a misfit, whose cross-put would have been operation `op`. */
  function Passing(s: Search, data: WorkRecord, saved: bool, op: nat): (r: Search)
    ensures r.answer == s.answer && r.next == s.next
  {
    s.(passed := [data] + s.passed,
       strays := if saved then [data] + s.strays else s.strays,
       dropped := if saved then s.dropped else [data] + s.dropped,
       faulty := if Recognised(data) && !saved then [op] + s.faulty else s.faulty)
  }

  /** GetBufferRecord on files. The exit trigger is polled once before anything else. */
  function GetBuffer(e: Setup, contest: nat, out: bool, exit: nat -> bool, m: Moment): (s: Search)
    requires Named(e, m)
    ensures |s.next.files| == |m.files| && s.next.ops >= m.ops
  {
    if !e.limitsOk || contest >= CONTEST_COUNT then Search(Nothing, m, [], [], [], [])
    else SearchFile(e, contest, out, exit, exit(0), 1, m)
  }

  /** The packets a search took off the buffer, in order. */
  function TakenBy(s: Search): seq<WorkRecord> {
    s.passed + match s.answer case Nothing => [] case Packet(_, data) => [data]
  }

  /** The packets that are in no file after a search. */
  function GoneAfter(s: Search): multiset<WorkRecord> {
    multiset(s.dropped) + match s.answer case Nothing => multiset{} case Packet(_, data) => multiset{data}
  }

  lemma SiftedSums(a: multiset<WorkRecord>, b: multiset<WorkRecord>, e: multiset<WorkRecord>, data: WorkRecord,
                   saved: bool, taken: seq<WorkRecord>, stray: seq<WorkRecord>, gone: multiset<WorkRecord>)
    requires a == b + (if saved then multiset{} else multiset{data}) && b == e + gone
    requires multiset(taken) == multiset(stray) + gone
    ensures var first, out := if saved then [data] else [], if saved then gone else multiset{data} + gone;
      && first + stray == (if saved then [data] + stray else stray)
      && multiset([data] + taken) == multiset(first + stray) + out && a == e + out
  {
    var first := if saved then [data] else [];
    assert multiset(first + stray) == multiset(first) + multiset(stray);
    assert multiset([data] + taken) == multiset{data} + multiset(taken);
  }

  /** One more misfit in front of a search. */
  lemma SiftedFront(h: Host, local: (nat, bool) -> nat, contest: nat, out: bool, a: seq<Slots>, b: seq<Slots>,
                    e: seq<Slots>, data: WorkRecord, saved: bool, taken: seq<WorkRecord>, stray: seq<WorkRecord>,
                    gone: multiset<WorkRecord>)
    requires SortEffect(h, local, contest, out, a, b, data, saved)
    requires Sifting(h, local, contest, out, b, e, taken, stray, gone)
    ensures Sifting(h, local, contest, out, a, e, [data] + taken, if saved then [data] + stray else stray,
                    if saved then gone else multiset{data} + gone)
  {
    hide Held, Packets, Delivered;
    SameNonLocalThen(local, a, b, e);
    hide SameNonLocal;
    var src := local(contest, out);
    assert [data] + (taken + Packets(h, e[src])) == ([data] + taken) + Packets(h, e[src]);
    var first := if saved then [data] else [];
    SiftedSums(Held(h, a), Held(h, b), Held(h, e), data, saved, taken, stray, gone);
    forall c: nat, o | c < CONTEST_COUNT && (c, o) != (contest, out)
      ensures Delivered(h, a, e, local(c, o), first + stray, c, o) {
      assert Delivered(h, a, b, local(c, o), first, c, o) && Delivered(h, b, e, local(c, o), stray, c, o);
      DeliveredThen(h, a, b, e, local(c, o), first, stray, c, o);
    }
  }

  /** A get that found nothing, or found a packet to return. */
  lemma SiftedGet(e: Setup, contest: nat, out: bool, m: Moment)
    requires Names(e.local, |m.files|) && contest < CONTEST_COUNT
    ensures var src := e.local(contest, out); var got := if Gets(e, m, src) then [Front(e, m, src)] else [];
      Sifting(e.host, e.local, contest, out, m.files, AfterGet(e, m, src).files, got, [], multiset(got))
  {
    hide Held, Packets, Delivered, Gets, Front, AfterGet;
    var src := e.local(contest, out);
    var got := if Gets(e, m, src) then [Front(e, m, src)] else [];
    var a, b := m.files, AfterGet(e, m, src).files;
    GetTakes(e, m, src);
    TakeTouchesLocal(e.host, e.local, a, b, contest, out, got);
    hide SameNonLocal;
    forall c: nat, o | c < CONTEST_COUNT && (c, o) != (contest, out)
      ensures Delivered(e.host, a, b, e.local(c, o), [], c, o) {
      NamesDiffer(e.local, |a|, c, o, contest, out);
      DeliveredNothing(e.host, a, b, e.local(c, o), c, o);
    }
  }

  /** The files of `m` were sifted by search s. */
  ghost predicate Sifted(e: Setup, contest: nat, out: bool, m: Moment, s: Search) {
    Sifting(e.host, e.local, contest, out, m.files, s.next.files, TakenBy(s), s.strays, GoneAfter(s))
  }

  lemma SiftedNothing(e: Setup, contest: nat, out: bool, m: Moment)
    requires Names(e.local, |m.files|) && contest < CONTEST_COUNT
    ensures Sifted(e, contest, out, m, Search(Nothing, m, [], [], [], []))
  {
    hide Sifting;
    var s := Search(Nothing, m, [], [], [], []);
    assert TakenBy(s) == [] && GoneAfter(s) == multiset{};
    SiftingNothing(e.host, e.local, contest, out, m.files);
  }

  lemma SiftedMisfit(e: Setup, contest: nat, out: bool, m: Moment, rest: Search)
    requires Names(e.local, |m.files|) && contest < CONTEST_COUNT && Gets(e, m, e.local(contest, out))
    requires !Matches(Front(e, m, e.local(contest, out)), contest, out)
    requires Sifted(e, contest, out, AfterSort(e, m, e.local(contest, out)), rest)
    ensures var src := e.local(contest, out);
      Sifted(e, contest, out, m, Passing(rest, Front(e, m, src), CrossSaves(e, m, src), m.ops + 2))
  {
    hide Sifting, SortEffect, Packets, Front, Gets, AfterSort, CrossSaves, Matches, TakenBy, GoneAfter;
    var src := e.local(contest, out);
    var data, saved := Front(e, m, src), CrossSaves(e, m, src);
    SortStep(e, contest, out, m);
    SiftedFront(e.host, e.local, contest, out, m.files, AfterSort(e, m, src).files, rest.next.files, data, saved,
                TakenBy(rest), rest.strays, GoneAfter(rest));
    FrontOf(rest, data, saved, m.ops + 2);
  }

  lemma SiftedEnd(e: Setup, contest: nat, out: bool, m: Moment, s: Search)
    requires Names(e.local, |m.files|) && contest < CONTEST_COUNT
    requires var src := e.local(contest, out);
      var answer := if Gets(e, m, src) then Packet(Counted(e, m, src), Front(e, m, src)) else Nothing;
      s == Search(answer, AfterGet(e, m, src), [], [], [], [])
    ensures Sifted(e, contest, out, m, s)
  {
    hide Sifting, Gets, Front, AfterGet, Counted;
    var src := e.local(contest, out);
    NamesAt(e.local, |m.files|, contest, out);
    SiftedGet(e, contest, out, m);
    assert TakenBy(s) == if Gets(e, m, src) then [Front(e, m, src)] else [];
    assert GoneAfter(s) == multiset(TakenBy(s));
  }

  /**
   * What a search does to the files: the packets it took came off the front of the buffer; each of the strays is in the
   * buffer it belongs in, and none back in this one; what it returned or dropped is in no file; all else is as before.
   */
  lemma {:induction false} SearchSifts(e: Setup, contest: nat, out: bool, exit: nat -> bool, pending: bool, polls: nat,
                                       m: Moment)
    requires Names(e.local, |m.files|) && contest < CONTEST_COUNT
    ensures Sifted(e, contest, out, m, SearchFile(e, contest, out, exit, pending, polls, m))
    decreases |Packets(e.host, m.files[e.local(contest, out)])|
  {
    hide Sifted, Packets, Front, Gets, Counted, AfterGet, AfterSort, CrossSaves, Matches, Names, Passing;
    var src := e.local(contest, out);
    NamesAt(e.local, |m.files|, contest, out);
    if Gets(e, m, src) && !Matches(Front(e, m, src), contest, out) {
      SortShrinks(e, contest, out, m);
      var next := AfterSort(e, m, src);
      if (!pending && exit(polls)) || Counted(e, m, src) == 0 {
        SiftedNothing(e, contest, out, next);
        SiftedMisfit(e, contest, out, m, Search(Nothing, next, [], [], [], []));
      } else {
        var on := if pending then polls else polls + 1;
        SearchSifts(e, contest, out, exit, pending, on, next);
        SiftedMisfit(e, contest, out, m, SearchFile(e, contest, out, exit, pending, on, next));
      }
    } else {
      SiftedEnd(e, contest, out, m, SearchFile(e, contest, out, exit, pending, polls, m));
    }
  }

  lemma FrontOf(s: Search, data: WorkRecord, saved: bool, op: nat)
    ensures TakenBy(Passing(s, data, saved, op)) == [data] + TakenBy(s)
    ensures GoneAfter(Passing(s, data, saved, op)) == if saved then GoneAfter(s) else multiset{data} + GoneAfter(s)
  {
  }

  /** A search passes misfits only, and returns a packet it was asked for, as it would be stored. */
  lemma {:induction false} SearchPassesMisfits(e: Setup, contest: nat, out: bool, exit: nat -> bool, pending: bool,
                                               polls: nat, m: Moment)
    requires Names(e.local, |m.files|) && contest < CONTEST_COUNT
    ensures var s := SearchFile(e, contest, out, exit, pending, polls, m);
      && (forall i | 0 <= i < |s.passed| :: !Matches(s.passed[i], contest, out))
      && (s.answer.Packet? ==> Matches(s.answer.data, contest, out) && Stored(e.host, s.answer.data) == s.answer.data)
    decreases |Packets(e.host, m.files[e.local(contest, out)])|
  {
    hide Packets, Front, Gets, Counted, AfterGet, AfterSort, CrossSaves, Matches, Names, Stored;
    var src := e.local(contest, out);
    NamesAt(e.local, |m.files|, contest, out);
    GetTakes(e, m, src);
    if Gets(e, m, src) && !Matches(Front(e, m, src), contest, out) {
      SortStep(e, contest, out, m);
      if !((!pending && exit(polls)) || Counted(e, m, src) == 0) {
        SearchPassesMisfits(e, contest, out, exit, pending, if pending then polls else polls + 1, AfterSort(e, m, src));
      }
    }
  }

  /** An error a put can fail of. */
  predicate PutFault(f: Fault) {
    f.openFails || f.badRead >= 0 || f.writeFails
  }

  function RecognisedIn(packets: seq<WorkRecord>): nat {
    if packets == [] then 0 else (if Recognised(packets[0]) then 1 else 0) + RecognisedIn(packets[1..])
  }

  /**
   * These operations, all different and in order, are puts from number `from` up to number `to` that met an I/O error.
   */
  ghost predicate FailedPuts(e: Setup, faulty: seq<nat>, from: nat, to: nat) {
    && (forall i | 0 <= i < |faulty| :: from <= faulty[i] < to && PutFault(e.faults(faulty[i])))
    && (forall i, j | 0 <= i < j < |faulty| :: faulty[i] < faulty[j])
  }

  /**
   * Each recognised packet that a search drops answers to a cross-put of that search that failed, a different one each.
   */
  lemma {:induction false} SearchDropsOnFault(e: Setup, contest: nat, out: bool, exit: nat -> bool, pending: bool,
                                              polls: nat, m: Moment)
    requires Names(e.local, |m.files|) && contest < CONTEST_COUNT
    ensures var s := SearchFile(e, contest, out, exit, pending, polls, m);
      |s.faulty| == RecognisedIn(s.dropped) && FailedPuts(e, s.faulty, m.ops, s.next.ops)
    decreases |Packets(e.host, m.files[e.local(contest, out)])|
  {
    hide Packets, Front, Counted, Matches, Names, Recognised, FailedPuts, AfterGet, AfterSort, CrossSaves, Gets;
    hide SortEffect;
    var src := e.local(contest, out);
    NamesAt(e.local, |m.files|, contest, out);
    NoFailedPuts(e, m.ops, SearchFile(e, contest, out, exit, pending, polls, m).next.ops);
    if Gets(e, m, src) && !Matches(Front(e, m, src), contest, out) {
      SortShrinks(e, contest, out, m);
      var data, next := Front(e, m, src), AfterSort(e, m, src);
      var more := !((!pending && exit(polls)) || Counted(e, m, src) == 0);
      var rest := if more then SearchFile(e, contest, out, exit, pending, if pending then polls else polls + 1, next)
                  else Search(Nothing, next, [], [], [], []);
      if more {
        SearchDropsOnFault(e, contest, out, exit, pending, if pending then polls else polls + 1, next);
      } else {
        NoFailedPuts(e, next.ops, next.ops);
      }
      CrossPutFault(e, m, src);
      assert ([data] + rest.dropped)[1..] == rest.dropped;
      OneMoreFailedPut(e, rest.faulty, m.ops, next.ops, rest.next.ops);
    }
  }

  lemma CrossPutFault(e: Setup, m: Moment, src: nat)
    requires Names(e.local, |m.files|) && src < |m.files| && Gets(e, m, src)
    ensures AfterGet(e, m, src).ops == m.ops + 2
    ensures AfterSort(e, m, src).ops == m.ops + if Recognised(Front(e, m, src)) then 3 else 2
    ensures Recognised(Front(e, m, src)) && !CrossSaves(e, m, src) ==> PutFault(e.faults(m.ops + 2))
  {
    hide Recognised, Front, Home;
    if Recognised(Front(e, m, src)) {
      HomeInRange(e, m, Front(e, m, src));
    }
  }

  lemma NoFailedPuts(e: Setup, from: nat, to: nat)
    ensures FailedPuts(e, [], from, to)
  {
  }

  lemma OneMoreFailedPut(e: Setup, faulty: seq<nat>, from: nat, mid: nat, to: nat)
    requires FailedPuts(e, faulty, mid, to) && from <= mid <= to
    ensures FailedPuts(e, faulty, from, to)
    ensures from + 2 < mid && PutFault(e.faults(from + 2)) ==> FailedPuts(e, [from + 2] + faulty, from, to)
  {
    hide PutFault;
  }

  /** Whether the search goes on as far as it can: a break was pending before, or the trigger is never pulled. */
  ghost predicate Unbroken(exit: nat -> bool, pending: bool, polls: nat) {
    pending || forall k | k >= polls :: !exit(k)
  }

  /**
   * If no operation of the search meets an error, it finds a packet exactly when one can be reached, and drops nothing
   * it knows.
   */
  lemma {:induction false} SearchFinds(e: Setup, contest: nat, out: bool, exit: nat -> bool, pending: bool, polls: nat,
                                       m: Moment)
    requires Names(e.local, |m.files|) && contest < CONTEST_COUNT
    requires Clean(e, m.ops, SearchFile(e, contest, out, exit, pending, polls, m).next.ops)
    ensures var s := SearchFile(e, contest, out, exit, pending, polls, m);
      var before, after := m.files[e.local(contest, out)], s.next.files[e.local(contest, out)];
      && (forall i | 0 <= i < |s.dropped| :: !Recognised(s.dropped[i]))
      && (s.answer.Packet? ==> s.answer.count == CountContest(Packets(e.host, after), contest))
      && (Unbroken(exit, pending, polls) ==> (s.answer.Packet? <==> Reaches(Packets(e.host, before), contest, out)))
    decreases |Packets(e.host, m.files[e.local(contest, out)])|
  {
    hide Packets, Front, Matches, Names, Recognised, CountContest, GetResult, CountSucceeds, Switched, SortEffect;
    hide TakeEffect;
    var src := e.local(contest, out);
    var s := SearchFile(e, contest, out, exit, pending, polls, m);
    NamesAt(e.local, |m.files|, contest, out);
    assert e.faults(m.ops) == NO_FAULT;
    GetTakes(e, m, src);
    TakenFront(e, m, src);
    if Gets(e, m, src) {
      var data, p := Front(e, m, src), Packets(e.host, m.files[src]);
      CleanCount(e, m, src, s.next.ops);
      if Matches(data, contest, out) {
        MatchesContest(data, contest, out);
      } else {
        SortStep(e, contest, out, m);
        CrossPutFault(e, m, src);
        assert p[1..] == Packets(e.host, AfterSort(e, m, src).files[src]);
        if !((!pending && exit(polls)) || Counted(e, m, src) == 0) {
          SearchFinds(e, contest, out, exit, pending, if pending then polls else polls + 1, AfterSort(e, m, src));
        }
      }
    }
  }

  lemma MatchesContest(d: WorkRecord, contest: nat, out: bool)
    ensures Matches(d, contest, out) ==> Recognised(d) && d.contest == contest && GoesOut(d) == out
  {
  }

  lemma TakenFront(e: Setup, m: Moment, id: nat)
    requires id < |m.files|
    ensures Packets(e.host, m.files[id]) == (if Gets(e, m, id) then [Front(e, m, id)] else [])
                                            + Packets(e.host, AfterGet(e, m, id).files[id])
  {
    hide Packets, Front, Held;
    GetTakes(e, m, id);
  }

  /** Without errors the count after a get is right, and a cross-put succeeds. */
  lemma CleanCount(e: Setup, m: Moment, id: nat, to: nat)
    requires id < |m.files| && Gets(e, m, id) && Clean(e, m.ops, to) && m.ops + 2 <= to
    ensures Counted(e, m, id) == CountContest(Packets(e.host, AfterGet(e, m, id).files[id]), Front(e, m, id).contest)
    ensures m.ops + 3 <= to ==> !PutFault(e.faults(m.ops + 2))
  {
    hide Packets, Front, CountContest;
    assert e.faults(m.ops + 1) == NO_FAULT;
    if m.ops + 3 <= to {
      assert e.faults(m.ops + 2) == NO_FAULT;
    }
  }

  /**
   * What GetBufferRecord leaves: the packets of all files together, less those returned and dropped; only local buffers
   * have changed; a packet returned is one that was asked for; each recognised one dropped answers to a failed put.
   */
  lemma GetBufferKeeps(e: Setup, contest: nat, out: bool, exit: nat -> bool, m: Moment)
    requires Named(e, m)
    ensures var s := GetBuffer(e, contest, out, exit, m);
      && Held(e.host, m.files) == Held(e.host, s.next.files) + GoneAfter(s)
      && SameNonLocal(e.local, m.files, s.next.files)
      && (s.answer.Packet? ==> e.limitsOk && contest < CONTEST_COUNT)
      && (s.answer.Packet? ==> Matches(s.answer.data, contest, out) && Stored(e.host, s.answer.data) == s.answer.data)
      && |s.faulty| == RecognisedIn(s.dropped) && FailedPuts(e, s.faulty, m.ops, s.next.ops)
  {
    hide Held, Matches, Stored, FailedPuts, Sifting, SearchFile;
    var s := GetBuffer(e, contest, out, exit, m);
    if e.limitsOk && contest < CONTEST_COUNT {
      SearchSifts(e, contest, out, exit, exit(0), 1, m);
      SiftingCount(e.host, e.local, contest, out, m.files, s.next.files, TakenBy(s), s.strays, GoneAfter(s));
      SearchPassesMisfits(e, contest, out, exit, exit(0), 1, m);
      SearchDropsOnFault(e, contest, out, exit, exit(0), 1, m);
    } else {
      SameNonLocalNow(e.local, m.files);
      NoFailedPuts(e, m.ops, m.ops);
      assert GoneAfter(s) == multiset{};
    }
  }

  lemma SiftingCount(h: Host, local: (nat, bool) -> nat, contest: nat, out: bool, a: seq<Slots>, b: seq<Slots>,
                     taken: seq<WorkRecord>, stray: seq<WorkRecord>, gone: multiset<WorkRecord>)
    requires Sifting(h, local, contest, out, a, b, taken, stray, gone)
    ensures |a| == |b| && SameNonLocal(local, a, b) && Held(h, a) == Held(h, b) + gone
  {
    hide Held;
  }

  /**
   * Without errors or interruption GetBufferRecord succeeds exactly when the buffer holds a packet the loop can reach.
   */
  lemma GetBufferFinds(e: Setup, contest: nat, out: bool, exit: nat -> bool, m: Moment)
    requires Named(e, m) && e.limitsOk && contest < CONTEST_COUNT && NoBreak(exit)
    requires Clean(e, m.ops, GetBuffer(e, contest, out, exit, m).next.ops)
    ensures Names(e.local, |m.files|) && e.local(contest, out) < |m.files|
    ensures GetBuffer(e, contest, out, exit, m).answer.Packet? <==>
            Reaches(Packets(e.host, m.files[e.local(contest, out)]), contest, out)
  {
    hide Packets, Reaches, Clean;
    SearchFinds(e, contest, out, exit, exit(0), 1, m);
  }

  // ---- By the numbers of the packet ----

  /**
   * What storing a packet comes to without errors: contests run from 0 to 6, and with code 0 it is work to do, with 1
   * or 2 it is finished.
   */
  ghost predicate PutByCodes(h: Host, local: (nat, bool) -> nat, a: seq<Slots>, b: seq<Slots>, d: WorkRecord,
                             ret: int) {
    if d.contest <= 6 && d.resultcode <= 2 then
      var id := local(d.contest, d.resultcode != 0);
      && id < |a| == |b|
      && ret == |Packets(h, b[id])| == |Packets(h, a[id])| + 1
      && Bag(h, b[id]) == Bag(h, a[id]) + multiset{Stored(h, d)}
      && forall i: nat | i < |a| && i != id :: b[i] == a[i]
    else ret == -1 && b == a
  }

  lemma SavedByCodes(e: Setup, m: Moment, d: WorkRecord)
    requires Named(e, m) && e.limitsOk && e.faults(m.ops) == NO_FAULT
    ensures PutByCodes(e.host, e.local, m.files, AfterSave(e, m, d).files, d,
                       if Saves(e, m, d) then HomeCount(e, m, d) + 1 else -1)
  {
    hide Packets, PutSlots, Stored, Recognised, GoesOut;
    MatchesByCodes(d, d.contest, d.resultcode != 0);
    if Recognised(d) {
      HomeInRange(e, m, d);
      HomeByCodes(e, d);
      PutAddsOne(e.host, m.files[Home(e, d)], d, true);
      assert Puts(e, m, Home(e, d), true);
    }
  }

  lemma HomeByCodes(e: Setup, d: WorkRecord)
    ensures Home(e, d) == e.local(d.contest, d.resultcode != 0)
  {
  }

  /** What a get comes to at the front of the buffer, if the operation meets no error. */
  lemma GetByCodes(e: Setup, contest: nat, out: bool, exit: nat -> bool, m: Moment)
    requires Named(e, m) && e.limitsOk && contest <= 6 && e.faults(m.ops) == NO_FAULT
    ensures e.local(contest, out) < |m.files|
    ensures var s, p := GetBuffer(e, contest, out, exit, m), Packets(e.host, m.files[e.local(contest, out)]);
      if p == [] then s.answer.Nothing? && s.passed == []
      else if p[0].contest == contest && (if out then p[0].resultcode in {1, 2} else p[0].resultcode == 0) then
        && s.answer.Packet? && s.answer.data == p[0] && s.passed == []
        && Packets(e.host, s.next.files[e.local(contest, out)]) == p[1..]
        && SameExcept(m.files, s.next.files, {e.local(contest, out)})
      else
        && s.passed != [] && s.passed[0] == p[0]
        && (p[0].contest > 6 || p[0].resultcode > 2 ==> s.dropped != [] && s.dropped[0] == p[0])
        && (p[0].contest <= 6 && p[0].resultcode <= 2 && e.faults(m.ops + 2) == NO_FAULT ==>
              s.strays != [] && s.strays[0] == p[0])
  {
    var src := e.local(contest, out);
    NamesAt(e.local, |m.files|, contest, out);
    FirstTaken(e, m, src);
    hide Packets, Front, Recognised, Names, GetSlots, Switched, Gets, AfterGet, Counted, Matches, AfterSort, CrossSaves;
    if Gets(e, m, src) {
      MatchesByCodes(Front(e, m, src), contest, out);
      FirstCrossSaved(e, m, src);
    }
  }

  lemma FirstTaken(e: Setup, m: Moment, src: nat)
    requires src < |m.files| && e.faults(m.ops) == NO_FAULT
    ensures var p := Packets(e.host, m.files[src]);
      && (Gets(e, m, src) <==> p != [])
      && (p != [] ==> Front(e, m, src) == p[0] && Packets(e.host, AfterGet(e, m, src).files[src]) == p[1..])
      && SameExcept(m.files, AfterGet(e, m, src).files, {src})
  {
    hide Packets, Front, GetSlots, Switched, Stored, Held;
    GetTakes(e, m, src);
    TakenFront(e, m, src);
  }

  lemma FirstCrossSaved(e: Setup, m: Moment, src: nat)
    requires Names(e.local, |m.files|) && src < |m.files| && Gets(e, m, src)
    ensures !Recognised(Front(e, m, src)) ==> !CrossSaves(e, m, src)
    ensures Recognised(Front(e, m, src)) && e.faults(m.ops + 2) == NO_FAULT ==> CrossSaves(e, m, src)
  {
    hide Front, Recognised, Names, GetSlots, Home;
    CrossPutFault(e, m, src);
    assert !PutFault(NO_FAULT);
  }

  /** Storing a packet counts the whole file: any record of it that cannot be read makes it fail. */
  lemma SaveReadsAll(e: Setup, m: Moment, d: WorkRecord)
    requires Named(e, m) && Accepts(e, d) && Home(e, d) < |m.files|
    ensures 0 <= e.faults(m.ops).badRead < |m.files[Home(e, d)]| ==> !Saves(e, m, d)
  {
    hide Home, Recognised, Names;
  }

  /** If what is left cannot be counted after a get, the count is 0, and the search stops there. */
  lemma UncountedIsNone(e: Setup, m: Moment, id: nat)
    requires id < |m.files| && Gets(e, m, id) && e.faults(m.ops + 1).openFails
    ensures Counted(e, m, id) == 0
  {
    hide Packets, Front, CountContest;
  }

  // ---- The methods ----

  /** The client's view of its buffer files. */
  class Client {
    const disk: BufferFiles
    const local: (nat, bool) -> nat // the file of a contest's in-buffer (false) or out-buffer (true)
    const limitsOk: bool            // the in- and out-buffer prefixes differ

    constructor (disk: BufferFiles, local: (nat, bool) -> nat, limitsOk: bool)
      ensures this.disk == disk && this.local == local && this.limitsOk == limitsOk
    {
      this.disk, this.local, this.limitsOk := disk, local, limitsOk;
    }

    function Env(): Setup {
      Setup(disk.host, disk.faults, disk.swu, local, limitsOk)
    }

    function Now(): Moment
      reads disk
    {
      Moment(disk.files, disk.ops)
    }

    /** BufferGetFileRecord, in terms of moments. */
    method Take(id: nat, init: WorkRecord) returns (rc: GetCode, data: WorkRecord, count: nat)
      requires id < |disk.files|
      modifies disk`files, disk`ops
      ensures Now() == AfterGet(Env(), old(Now()), id)
      ensures rc == GetResult(old(disk.files)[id], disk.faults(old(disk.ops)))
      ensures rc == Got <==> Gets(Env(), old(Now()), id)
      ensures rc == Got ==> data == Front(Env(), old(Now()), id) && count == Counted(Env(), old(Now()), id)
    {
      hide GetResult, GetSlots, CountSucceeds, FirstLive, Switched, Packets, CountContest;
      rc, data, count := disk.GetFileRecord(id, init);
    }

    /** BufferPutFileRecord, in terms of moments. */
    method Store(id: nat, data: WorkRecord, counting: bool) returns (ok: bool, count: nat)
      requires id < |disk.files|
      modifies disk`files, disk`ops
      ensures ok == Puts(Env(), old(Now()), id, counting)
      ensures Now() == AfterPut(Env(), old(Now()), id, data, counting)
      ensures ok && counting ==> count == |Packets(disk.host, old(disk.files)[id])| + 1
    {
      hide PutSucceeds, PutSlots, Packets;
      ok, count := disk.PutFileRecord(id, data, counting);
    }

    /** Stores the packet in the buffer it belongs in and returns how many that buffer then holds, or -1. */
    method PutBufferRecord(data: WorkRecord) returns (ret: int)
      requires Named(Env(), Now())
      modifies disk`files, disk`ops
      ensures Now() == AfterSave(Env(), old(Now()), data)
      ensures Saves(Env(), old(Now()), data) <==> ret > 0
      ensures ret == if Saves(Env(), old(Now()), data) then HomeCount(Env(), old(Now()), data) + 1 else -1
      ensures limitsOk && disk.faults(old(disk.ops)) == NO_FAULT ==>
        PutByCodes(disk.host, local, old(disk.files), disk.files, data, ret)
      ensures !limitsOk || data.contest > 6 || data.resultcode > 2 ==> ret == -1 && disk.files == old(disk.files)
    {
      hide Puts, Packets, AfterPut, Recognised, PutByCodes;
      MatchesByCodes(data, data.contest, GoesOut(data));
      if limitsOk && disk.faults(disk.ops) == NO_FAULT {
        SavedByCodes(Env(), Now(), data);
      }
      if !Recognised(data) || !limitsOk {
        return -1;
      }
      HomeInRange(Env(), Now(), data);
      var ok, count := Store(local(data.contest, GoesOut(data)), data, true);
      return if ok then count else -1;
    }

    /** One pass of GetBufferRecord's loop: take a packet, and cross-save it if it is in the wrong buffer. */
    method TakeOne(contest: nat, out: bool, init: WorkRecord) returns (status: Taking, data: WorkRecord, count: nat)
      requires Names(local, |disk.files|) && contest < CONTEST_COUNT && local(contest, out) < |disk.files|
      modifies disk`files, disk`ops
      ensures status == Stop <==> !Gets(Env(), old(Now()), local(contest, out))
      ensures status == Stop ==> Now() == AfterGet(Env(), old(Now()), local(contest, out))
      ensures status != Stop ==>
        && data == Front(Env(), old(Now()), local(contest, out))
        && count == Counted(Env(), old(Now()), local(contest, out))
      ensures status == Found <==> status != Stop && Matches(data, contest, out)
      ensures status == Found ==> Now() == AfterGet(Env(), old(Now()), local(contest, out))
      ensures status == Misfit ==> Now() == AfterSort(Env(), old(Now()), local(contest, out))
    {
      hide Gets, Front, Counted, AfterGet, AfterPut, Puts, Matches, Recognised, GoesOut, Names;
      var rc;
      ghost var m := Now();
      rc, data, count := Take(local(contest, out), init);
      if rc != Got {
        return Stop, data, count;
      }
      MatchesContest(data, contest, out);
      if !Recognised(data) {
        return Misfit, data, count;
      }
      if Matches(data, contest, out) {
        return Found, data, count;
      }
      HomeInRange(Env(), m, data);
      var _, _ := Store(local(data.contest, GoesOut(data)), data, false);
      return Misfit, data, count;
    }

    /** GetBufferRecord on files. `exit(k)` is the answer to the k-th poll of the exit trigger. */
    method GetBufferRecord(contest: nat, out: bool, init: WorkRecord, exit: nat -> bool)
      returns (ret: int, data: WorkRecord)
      requires Named(Env(), Now())
      modifies disk`files, disk`ops
      ensures Now() == GetBuffer(Env(), contest, out, exit, old(Now())).next
      ensures Returns(GetBuffer(Env(), contest, out, exit, old(Now())).answer, ret, data)
    {
      hide Gets, Front, Counted, AfterGet, AfterSort, CrossSaves, Matches, Recognised, Names;
      data := init;
      var pending, polls := exit(0), 1;
      if !limitsOk || !(contest < CONTEST_COUNT) {
        return -1, data;
      }
      NamesAt(local, |disk.files|, contest, out);
      ghost var e, start := Env(), Now();
      var src := local(contest, out);
      while true
        invariant |disk.files| == |start.files|
        invariant SameEnd(SearchFile(e, contest, out, exit, pending, polls, Now()),
                          SearchFile(e, contest, out, exit, pending, 1, start))
        decreases |Packets(disk.host, disk.files[src])|
      {
        ghost var m := Now();
        var status, count;
        status, data, count := TakeOne(contest, out, data);
        if status == Found {
          return count, data;
        }
        if status == Stop {
          break;
        }
        SortShrinks(e, contest, out, m);
        if !pending {
          if exit(polls) {
            break;
          }
          polls := polls + 1;
        }
        if count == 0 {
          break;
        }
      }
      return -1, data;
    }
  }

  datatype Taking = Found | Misfit | Stop

  predicate SameEnd(s: Search, t: Search) {
    s.answer == t.answer && s.next == t.next
  }

  /** How many packets the buffer of a packet holds. */
  function HomeCount(e: Setup, m: Moment, d: WorkRecord): nat
    requires Named(e, m) && Accepts(e, d)
  {
    HomeInRange(e, m, d);
    |Packets(e.host, m.files[Home(e, d)])|
  }

  predicate Returns(a: Answer, ret: int, data: WorkRecord) {
    match a
    case Nothing => ret == -1
    case Packet(count, d) => ret == count && data == d
  }

  lemma SameNonLocalNow(local: (nat, bool) -> nat, a: seq<Slots>)
    ensures SameNonLocal(local, a, a)
  {
  }

  lemma TakeTouchesLocal(h: Host, local: (nat, bool) -> nat, a: seq<Slots>, b: seq<Slots>, c: nat, o: bool,
                         got: seq<WorkRecord>)
    requires c < CONTEST_COUNT && TakeEffect(h, a, b, local(c, o), got)
    ensures SameNonLocal(local, a, b)
  {
    OneLocalFile(local, a, b, c, o);
  }

  lemma StoreTouchesLocal(h: Host, local: (nat, bool) -> nat, a: seq<Slots>, b: seq<Slots>, c: nat, o: bool,
                          put: seq<WorkRecord>)
    requires c < CONTEST_COUNT && StoreEffect(h, a, b, local(c, o), put)
    ensures SameNonLocal(local, a, b)
  {
    OneLocalFile(local, a, b, c, o);
  }

}
