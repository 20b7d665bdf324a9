/** Flushing packets from this client's out-buffers to a remote buffer file that others may use too (buffbase.cpp). */
module Flush {
  import opened Records
  import opened SlotFile
  import opened Disk
  import opened Routing
  import opened Buffers

  // ---- Flush, while other clients use the same files ----

  datatype FlushEnd = Drained | FlushInterrupted | RemoteFailed | FlushLoopDetected

  /**
   * What goes on around a flush: `exits(0)` answers its own polls of the exit trigger and `exits(k)` those of its k-th
   * get, unless a break was pending; `others(k, f)` is what other clients make of the files f at their k-th turn.
   */
  datatype World = World(exits: nat -> nat -> bool, pending: bool, others: (nat, seq<Slots>) -> seq<Slots>)

  /** They may do anything but remove a file. */
  ghost predicate OtherClients(w: World) {
    forall k: nat, f: seq<Slots> :: |w.others(k, f)| == |f|
  }

  ghost predicate Quiet(w: World) {
    forall k: nat, f: seq<Slots> :: w.others(k, f) == f
  }

  function Turn(w: World, k: nat, m: Moment): (r: Moment)
    requires OtherClients(w)
    ensures |r.files| == |m.files| && r.ops == m.ops
  {
    m.(files := w.others(k, m.files))
  }

  /** The packets that are in the files in state b and were not in state a. */
  function Came(e: Setup, a: Moment, b: Moment): multiset<WorkRecord> {
    Held(e.host, b.files) - Held(e.host, a.files)
  }

  /**
   * How a flush ended: why, in which state, and the packets moved, in order; what arrived and departed at the turns of
   * other clients; what this client dropped or lost; and the state in which it last looked for a packet.
   */
  datatype Flushing = Flushing(end: FlushEnd, next: Moment, moved: seq<WorkRecord>, arrived: multiset<WorkRecord>,
                               departed: multiset<WorkRecord>, dropped: multiset<WorkRecord>,
                               lost: multiset<WorkRecord>, tried: Moment)

  function FlushStopped(end: FlushEnd, next: Moment, tried: Moment): Flushing {
    Flushing(end, next, [], multiset{}, multiset{}, multiset{}, multiset{}, tried)
  }

  ghost predicate FlushReady(e: Setup, m: Moment, remote: nat, w: World) {
    Named(e, m) && remote < |m.files| && OtherClients(w)
  }

  /** The search of the out-buffer in one pass, after the other clients' turn. */
  function Found(e: Setup, contest: nat, w: World, turn: nat, m: Moment): (s: Search)
    requires Named(e, m) && OtherClients(w)
    ensures |s.next.files| == |m.files| && s.next.ops >= m.ops
  {
    GetBuffer(e, contest, true, w.exits(turn + 1), Turn(w, 2 * turn, m))
  }

  /** The state in which the packet found is put into the remote file, after another turn. */
  function Offered(e: Setup, contest: nat, w: World, turn: nat, m: Moment): (r: Moment)
    requires Named(e, m) && OtherClients(w)
    ensures |r.files| == |m.files| && r.ops >= m.ops
  {
    Turn(w, 2 * turn + 1, Found(e, contest, w, turn, m).next)
  }

  /** One pass, from m to m1 by others, by the search s, and to m2 by others, and then the rest. */
  function Joined(e: Setup, m: Moment, m1: Moment, s: Search, m2: Moment, rest: Flushing): Flushing {
    rest.(arrived := Came(e, m, m1) + Came(e, s.next, m2) + rest.arrived,
          departed := Came(e, m1, m) + Came(e, m2, s.next) + rest.departed,
          dropped := multiset(s.dropped) + rest.dropped)
  }

  function Sending(data: WorkRecord, r: Flushing): Flushing {
    r.(moved := [data] + r.moved)
  }

  /**
   * The end of a flush whose put into the remote file failed: the packet goes back into the local buffer, or is lost.
   */
  function NotSent(e: Setup, m: Moment, data: WorkRecord, tried: Moment): Flushing
    requires Named(e, m)
  {
    var lost := if Saves(e, m, data) then multiset{} else multiset{data};
    FlushStopped(RemoteFailed, AfterSave(e, m, data), tried).(lost := lost)
  }

  /**
   * The loop of BufferFlushFile for one contest, after `packets` packets, with the last count and the warnings so far.
   * The other clients have a turn before each get and before each put.
   */
  function Flush(e: Setup, contest: nat, remote: nat, w: World, turn: nat, packets: nat, last: nat, warnings: nat,
                 m: Moment): (r: Flushing)
    requires FlushReady(e, m, remote, w) && warnings <= MAX_REMOTE_BUFFER_WARNINGS
    ensures |r.next.files| == |m.files| && r.next.ops >= m.ops && |r.tried.files| == |m.files|
    decreases if packets == 0 then 1 else 0, MAX_REMOTE_BUFFER_WARNINGS - warnings, last
  {
    if !w.pending && w.exits(0)(turn) then FlushStopped(FlushInterrupted, m, m)
    else
      var m1, s, m2 := Turn(w, 2 * turn, m), Found(e, contest, w, turn, m), Offered(e, contest, w, turn, m);
      match s.answer
      case Nothing =>
        Flushing(Drained, s.next, [], Came(e, m, m1), Came(e, m1, m), multiset(s.dropped), multiset{}, m1)
      case Packet(count, data) =>
        var m3 := AfterPut(e, m2, remote, data, false);
        var stuck := packets > 0 && last <= count;
        Joined(e, m, m1, s, m2,
          if !Puts(e, m2, remote, false) then NotSent(e, m3, data, m1)
          else if stuck && warnings == MAX_REMOTE_BUFFER_WARNINGS then
            Sending(data, FlushStopped(FlushLoopDetected, m3, m1))
          else if count == 0 then Sending(data, FlushStopped(Drained, m3, m1))
          else Sending(data, Flush(e, contest, remote, w, turn + 1, packets + 1, count,
                                   if stuck then warnings + 1 else warnings, m3)))
  }

  /** Packets come and go only through this client's moves, other clients, and the named losses. */
  ghost predicate Balanced(e: Setup, m: Moment, r: Flushing) {
    && |r.next.files| == |m.files|
    && Held(e.host, r.next.files) + r.departed + r.dropped + r.lost == Held(e.host, m.files) + r.arrived
  }

  lemma CameAndWent(e: Setup, a: Moment, b: Moment)
    ensures Held(e.host, b.files) + Came(e, b, a) == Held(e.host, a.files) + Came(e, a, b)
  {
    hide Held;
  }

  /** One pass in numbers: h are the packets in the files at its moments and at the end of the flush. */
  lemma PassSum(h0: multiset<WorkRecord>, h1: multiset<WorkRecord>, hs: multiset<WorkRecord>, h2: multiset<WorkRecord>,
                hn: multiset<WorkRecord>, c1: multiset<WorkRecord>, g1: multiset<WorkRecord>, c2: multiset<WorkRecord>,
                g2: multiset<WorkRecord>, dropped: multiset<WorkRecord>, data: multiset<WorkRecord>,
                arrived: multiset<WorkRecord>, departed: multiset<WorkRecord>, more: multiset<WorkRecord>,
                lost: multiset<WorkRecord>)
    requires h1 + g1 == h0 + c1 && h1 == hs + (dropped + data) && h2 + g2 == hs + c2
    requires hn + departed + more + lost == h2 + data + arrived
    ensures hn + (g1 + g2 + departed) + (dropped + more) + lost == h0 + (c1 + c2 + arrived)
  {
    forall x
      ensures (hn + (g1 + g2 + departed) + (dropped + more) + lost)[x] == (h0 + (c1 + c2 + arrived))[x] {
      assert (h1 + g1)[x] == (h0 + c1)[x] && h1[x] == (hs + (dropped + data))[x];
      assert (h2 + g2)[x] == (hs + c2)[x];
      assert (hn + departed + more + lost)[x] == (h2 + data + arrived)[x];
    }
  }

  /** The packets over all files before and after the put of a pass. */
  lemma PutAdds(e: Setup, m: Moment, id: nat, data: WorkRecord, counting: bool)
    requires id < |m.files| && Stored(e.host, data) == data
    ensures Held(e.host, AfterPut(e, m, id, data, counting).files)
         == Held(e.host, m.files) + if Puts(e, m, id, counting) then multiset{data} else multiset{}
  {
    hide Packets, Held, Puts, AfterPut;
    PutStores(e, m, id, data, counting);
  }

  lemma SaveAdds(e: Setup, m: Moment, data: WorkRecord)
    requires Named(e, m) && Stored(e.host, data) == data
    ensures Held(e.host, AfterSave(e, m, data).files)
         == Held(e.host, m.files) + if Saves(e, m, data) then multiset{data} else multiset{}
  {
    hide Packets, Held, Puts, AfterPut, Recognised, Stored;
    if Accepts(e, data) {
      HomeInRange(e, m, data);
      PutAdds(e, m, Home(e, data), data, true);
    }
  }

  lemma BalancedPass(e: Setup, contest: nat, w: World, turn: nat, m: Moment, rest: Flushing)
    requires Named(e, m) && OtherClients(w) && Found(e, contest, w, turn, m).answer.Packet?
    requires |rest.next.files| == |m.files|
    requires Held(e.host, rest.next.files) + rest.departed + rest.dropped + rest.lost
          == Held(e.host, Offered(e, contest, w, turn, m).files)
             + multiset{Found(e, contest, w, turn, m).answer.data} + rest.arrived
    ensures Balanced(e, m, Joined(e, m, Turn(w, 2 * turn, m), Found(e, contest, w, turn, m),
                                  Offered(e, contest, w, turn, m), rest))
  {
    var m1, s, m2 := Turn(w, 2 * turn, m), Found(e, contest, w, turn, m), Offered(e, contest, w, turn, m);
    GetBufferKeeps(e, contest, true, w.exits(turn + 1), m1);
    hide Held, GetBuffer, Offered, Turn, SameNonLocal, FailedPuts, Matches, Stored;
    CameAndWent(e, m, m1);
    CameAndWent(e, s.next, m2);
    hide Came;
    PassSum(Held(e.host, m.files), Held(e.host, m1.files), Held(e.host, s.next.files), Held(e.host, m2.files),
            Held(e.host, rest.next.files), Came(e, m, m1), Came(e, m1, m), Came(e, s.next, m2), Came(e, m2, s.next),
            multiset(s.dropped), multiset{s.answer.data}, rest.arrived, rest.departed, rest.dropped, rest.lost);
  }

  lemma BalancedNothing(e: Setup, contest: nat, w: World, turn: nat, m: Moment, r: Flushing)
    requires Named(e, m) && OtherClients(w) && Found(e, contest, w, turn, m).answer.Nothing?
    requires var m1, s := Turn(w, 2 * turn, m), Found(e, contest, w, turn, m);
      r == Flushing(Drained, s.next, [], Came(e, m, m1), Came(e, m1, m), multiset(s.dropped), multiset{}, m1)
    ensures Balanced(e, m, r)
  {
    var m1, s := Turn(w, 2 * turn, m), Found(e, contest, w, turn, m);
    GetBufferKeeps(e, contest, true, w.exits(turn + 1), m1);
    hide Held, GetBuffer, Turn, SameNonLocal, FailedPuts, Found;
    CameAndWent(e, m, m1);
    hide Came;
    assert GoneAfter(s) == multiset(s.dropped);
    BalancedSum(Held(e.host, m.files), Held(e.host, m1.files), Held(e.host, s.next.files),
                r.arrived, r.departed, r.dropped);
  }

  lemma BalancedSum(h0: multiset<WorkRecord>, h1: multiset<WorkRecord>, hs: multiset<WorkRecord>,
                    c: multiset<WorkRecord>, g: multiset<WorkRecord>, dropped: multiset<WorkRecord>)
    requires h1 + g == h0 + c && h1 == hs + dropped
    ensures hs + g + dropped + multiset{} == h0 + c
  {
    assert hs + g + dropped + multiset{} == (hs + dropped) + g;
  }

  /** A flush that finds a packet: what the rest of it is. */
  function FlushRest(e: Setup, contest: nat, remote: nat, w: World, turn: nat, packets: nat, last: nat, warnings: nat,
                     m: Moment): Flushing
    requires FlushReady(e, m, remote, w) && warnings <= MAX_REMOTE_BUFFER_WARNINGS
    requires Found(e, contest, w, turn, m).answer.Packet?
  {
    var m1, s, m2 := Turn(w, 2 * turn, m), Found(e, contest, w, turn, m), Offered(e, contest, w, turn, m);
    var data := s.answer.data;
    if !Puts(e, m2, remote, false) then NotSent(e, AfterPut(e, m2, remote, data, false), data, m1)
    else Sending(data, FlushOn(e, contest, remote, w, turn, packets, last, warnings, m))
  }

  /** What follows when the packet found has been put into the remote file. */
  function FlushOn(e: Setup, contest: nat, remote: nat, w: World, turn: nat, packets: nat, last: nat, warnings: nat,
                   m: Moment): Flushing
    requires FlushReady(e, m, remote, w) && warnings <= MAX_REMOTE_BUFFER_WARNINGS
    requires Found(e, contest, w, turn, m).answer.Packet?
  {
    var m1, s, m2 := Turn(w, 2 * turn, m), Found(e, contest, w, turn, m), Offered(e, contest, w, turn, m);
    var count, data := s.answer.count, s.answer.data;
    var m3 := AfterPut(e, m2, remote, data, false);
    var stuck := packets > 0 && last <= count;
    if stuck && warnings == MAX_REMOTE_BUFFER_WARNINGS then FlushStopped(FlushLoopDetected, m3, m1)
    else if count == 0 then FlushStopped(Drained, m3, m1)
    else Flush(e, contest, remote, w, turn + 1, packets + 1, count,
               if stuck then warnings + 1 else warnings, m3)
  }

  lemma FlushUnrolled(e: Setup, contest: nat, remote: nat, w: World, turn: nat, packets: nat, last: nat, warnings: nat,
                      m: Moment)
    requires FlushReady(e, m, remote, w) && warnings <= MAX_REMOTE_BUFFER_WARNINGS
    ensures var r := Flush(e, contest, remote, w, turn, packets, last, warnings, m);
      var m1, s, m2 := Turn(w, 2 * turn, m), Found(e, contest, w, turn, m), Offered(e, contest, w, turn, m);
      r == if !w.pending && w.exits(0)(turn) then FlushStopped(FlushInterrupted, m, m)
           else if s.answer.Nothing? then
             Flushing(Drained, s.next, [], Came(e, m, m1), Came(e, m1, m), multiset(s.dropped), multiset{}, m1)
           else Joined(e, m, m1, s, m2, FlushRest(e, contest, remote, w, turn, packets, last, warnings, m))
  {
    hide Turn, Found, Offered, Came, NotSent, AfterPut, Puts, Sending, Joined;
  }

  /**
   * Over every exit and whatever the other clients do: all files then, with what departed in the others' turns and what
   * this client dropped or lost, hold what all files held before, with what arrived in the others' turns.
   */
  lemma {:induction false} FlushConserves(e: Setup, contest: nat, remote: nat, w: World, turn: nat, packets: nat,
                                          last: nat, warnings: nat, m: Moment)
    requires FlushReady(e, m, remote, w) && warnings <= MAX_REMOTE_BUFFER_WARNINGS
    ensures Balanced(e, m, Flush(e, contest, remote, w, turn, packets, last, warnings, m))
    decreases if packets == 0 then 1 else 0, MAX_REMOTE_BUFFER_WARNINGS - warnings, last
  {
    hide Flush, Found, Offered, Turn, Came, Joined, Puts, AfterPut, Matches, Stored, Balanced, NotSent, Sending;
    hide FlushStopped;
    FlushUnrolled(e, contest, remote, w, turn, packets, last, warnings, m);
    var r := Flush(e, contest, remote, w, turn, packets, last, warnings, m);
    if !w.pending && w.exits(0)(turn) {
      BalancedStopped(e, m, FlushInterrupted, m);
    } else {
      var m1, s, m2 := Turn(w, 2 * turn, m), Found(e, contest, w, turn, m), Offered(e, contest, w, turn, m);
      if s.answer.Nothing? {
        BalancedNothing(e, contest, w, turn, m, r);
      } else {
        var count, data := s.answer.count, s.answer.data;
        FoundIsStored(e, contest, w, turn, m);
        if Puts(e, m2, remote, false) {
          var m3 := AfterPut(e, m2, remote, data, false);
          var stuck := packets > 0 && last <= count;
          if (stuck && warnings == MAX_REMOTE_BUFFER_WARNINGS) || count == 0 {
            var end := if stuck && warnings == MAX_REMOTE_BUFFER_WARNINGS then FlushLoopDetected else Drained;
            BalancedStopped(e, m3, end, m1);
          } else {
            FlushConserves(e, contest, remote, w, turn + 1, packets + 1, count,
                if stuck then warnings + 1 else warnings, m3);
          }
          BalancedSent(e, contest, w, turn, remote, m,
                       FlushOn(e, contest, remote, w, turn, packets, last, warnings, m));
        } else {
          BalancedNotSent(e, contest, w, turn, remote, m);
        }
      }
    }
  }

  lemma BalancedStopped(e: Setup, m: Moment, end: FlushEnd, tried: Moment)
    ensures Balanced(e, m, FlushStopped(end, m, tried))
  {
    hide Held;
  }

  lemma BalancedSent(e: Setup, contest: nat, w: World, turn: nat, remote: nat, m: Moment, rest: Flushing)
    requires FlushReady(e, m, remote, w) && Found(e, contest, w, turn, m).answer.Packet?
    requires var data, m2 := Found(e, contest, w, turn, m).answer.data, Offered(e, contest, w, turn, m);
      && Stored(e.host, data) == data && Puts(e, m2, remote, false)
      && Balanced(e, AfterPut(e, m2, remote, data, false), rest)
    ensures var data := Found(e, contest, w, turn, m).answer.data;
      Balanced(e, m, Joined(e, m, Turn(w, 2 * turn, m), Found(e, contest, w, turn, m), Offered(e, contest, w, turn, m),
                            Sending(data, rest)))
  {
    hide Held, Found, Offered, Turn, Stored, Puts, AfterPut, Joined, Came;
    var data, m2 := Found(e, contest, w, turn, m).answer.data, Offered(e, contest, w, turn, m);
    PutAdds(e, m2, remote, data, false);
    BalancedPass(e, contest, w, turn, m, Sending(data, rest));
  }

  lemma BalancedNotSent(e: Setup, contest: nat, w: World, turn: nat, remote: nat, m: Moment)
    requires FlushReady(e, m, remote, w) && Found(e, contest, w, turn, m).answer.Packet?
    requires var data, m2 := Found(e, contest, w, turn, m).answer.data, Offered(e, contest, w, turn, m);
      Stored(e.host, data) == data && !Puts(e, m2, remote, false)
    ensures var data, m1 := Found(e, contest, w, turn, m).answer.data, Turn(w, 2 * turn, m);
      var m2 := Offered(e, contest, w, turn, m);
      Balanced(e, m, Joined(e, m, m1, Found(e, contest, w, turn, m), m2,
                            NotSent(e, AfterPut(e, m2, remote, data, false), data, m1)))
  {
    hide Held, Found, Offered, Turn, Stored, Puts, AfterPut, Joined, Came, Saves, AfterSave;
    var data, m2 := Found(e, contest, w, turn, m).answer.data, Offered(e, contest, w, turn, m);
    var m3 := AfterPut(e, m2, remote, data, false);
    PutAdds(e, m2, remote, data, false);
    SaveAdds(e, m3, data);
    BalancedPass(e, contest, w, turn, m, NotSent(e, m3, data, Turn(w, 2 * turn, m)));
  }

  lemma FoundIsStored(e: Setup, contest: nat, w: World, turn: nat, m: Moment)
    requires Named(e, m) && OtherClients(w) && Found(e, contest, w, turn, m).answer.Packet?
    ensures var data := Found(e, contest, w, turn, m).answer.data;
      Matches(data, contest, true) && Stored(e.host, data) == data && e.limitsOk && contest < CONTEST_COUNT
  {
    GetBufferKeeps(e, contest, true, w.exits(turn + 1), Turn(w, 2 * turn, m));
    hide Matches, Stored, GetBuffer, Held, Turn;
  }

  /** Some put from operation `from` up to `to` met an I/O error. */
  ghost predicate SomePutFailed(e: Setup, from: nat, to: nat) {
    exists n :: from <= n < to && PutFault(e.faults(n))
  }

  /**
   * Only packets that were asked for are moved; a recognised one is dropped only if a put of this flush failed; one is
   * lost only if the last two operations, the put into the remote file and that back into the local buffer, both
   * failed.
   */
  ghost predicate Accounted(e: Setup, contest: nat, m: Moment, r: Flushing) {
    && m.ops <= r.next.ops
    && (forall i | 0 <= i < |r.moved| :: Matches(r.moved[i], contest, true))
    && (forall d | d in r.dropped && Recognised(d) :: SomePutFailed(e, m.ops, r.next.ops))
    && (r.end == RemoteFailed ==> SomePutFailed(e, m.ops, r.next.ops))
    && (r.lost != multiset{} ==> r.end == RemoteFailed && |r.lost| == 1 && r.next.ops >= m.ops + 2)
    && (r.lost != multiset{} ==> PutFault(e.faults(r.next.ops - 2)) && PutFault(e.faults(r.next.ops - 1)))
  }

  lemma AccountedStop(e: Setup, contest: nat, m: Moment, end: FlushEnd, next: Moment, tried: Moment)
    requires m.ops <= next.ops && end != RemoteFailed
    ensures Accounted(e, contest, m, FlushStopped(end, next, tried))
  {
  }

  lemma AccountedNotSent(e: Setup, contest: nat, m: Moment, remote: nat, data: WorkRecord, tried: Moment)
    requires Named(e, m) && remote < |m.files| && !Puts(e, m, remote, false) && Recognised(data) && e.limitsOk
    ensures Accounted(e, contest, m, NotSent(e, AfterPut(e, m, remote, data, false), data, tried))
  {
    hide Recognised;
    var m3 := AfterPut(e, m, remote, data, false);
    HomeInRange(e, m3, data);
    assert PutFault(e.faults(m.ops));
  }

  lemma AccountedSending(e: Setup, contest: nat, m: Moment, data: WorkRecord, r: Flushing)
    requires Accounted(e, contest, m, r) && Matches(data, contest, true)
    ensures Accounted(e, contest, m, Sending(data, r))
  {
    hide Recognised, Matches, PutFault;
  }

  lemma SomePutFailedWider(e: Setup, from: nat, to: nat, from2: nat, to2: nat)
    requires from2 <= from && to <= to2
    ensures SomePutFailed(e, from, to) ==> SomePutFailed(e, from2, to2)
  {
    hide PutFault;
  }

  lemma DroppedMeansFailed(e: Setup, dropped: seq<WorkRecord>, faulty: seq<nat>, from: nat, to: nat)
    requires |faulty| == RecognisedIn(dropped) && FailedPuts(e, faulty, from, to)
    ensures forall d | d in multiset(dropped) && Recognised(d) :: SomePutFailed(e, from, to)
  {
    hide Recognised, PutFault;
    if d :| d in multiset(dropped) && Recognised(d) {
      RecognisedAmong(dropped, d);
      assert from <= faulty[0] < to && PutFault(e.faults(faulty[0]));
    }
  }

  lemma {:induction false} RecognisedAmong(packets: seq<WorkRecord>, d: WorkRecord)
    requires d in packets && Recognised(d)
    ensures RecognisedIn(packets) > 0
  {
    if packets[0] != d {
      RecognisedAmong(packets[1..], d);
    }
  }

  lemma {:induction false} AccountedPass(e: Setup, contest: nat, w: World, turn: nat, m: Moment, rest: Flushing)
    requires Named(e, m) && OtherClients(w) && Accounted(e, contest, Offered(e, contest, w, turn, m), rest)
    ensures Accounted(e, contest, m, Joined(e, m, Turn(w, 2 * turn, m), Found(e, contest, w, turn, m),
                                            Offered(e, contest, w, turn, m), rest))
  {
    var s, m2 := Found(e, contest, w, turn, m), Offered(e, contest, w, turn, m);
    PassDrops(e, contest, w, turn, m);
    hide Found, Turn, Matches, Recognised, Came, PutFault, SomePutFailed, Named, OtherClients;
    SomePutFailedWider(e, m.ops, s.next.ops, m.ops, rest.next.ops);
    SomePutFailedWider(e, m2.ops, rest.next.ops, m.ops, rest.next.ops);
  }

  lemma PassDrops(e: Setup, contest: nat, w: World, turn: nat, m: Moment)
    requires Named(e, m) && OtherClients(w)
    ensures var s := Found(e, contest, w, turn, m);
      && m.ops <= s.next.ops
      && forall d | d in multiset(s.dropped) && Recognised(d) :: SomePutFailed(e, m.ops, s.next.ops)
  {
    var s := Found(e, contest, w, turn, m);
    GetBufferKeeps(e, contest, true, w.exits(turn + 1), Turn(w, 2 * turn, m));
    hide Held, GetBuffer, SameNonLocal, FailedPuts, Matches, Stored, Recognised, PutFault, SomePutFailed, RecognisedIn;
    DroppedMeansFailed(e, s.dropped, s.faulty, m.ops, s.next.ops);
  }

  lemma AccountedNothing(e: Setup, contest: nat, w: World, turn: nat, m: Moment, r: Flushing)
    requires Named(e, m) && OtherClients(w)
    requires var s := Found(e, contest, w, turn, m);
      r.end == Drained && r.next == s.next && r.moved == [] && r.dropped == multiset(s.dropped) && r.lost == multiset{}
    ensures Accounted(e, contest, m, r)
  {
    var m1, s := Turn(w, 2 * turn, m), Found(e, contest, w, turn, m);
    GetBufferKeeps(e, contest, true, w.exits(turn + 1), m1);
    hide Held, GetBuffer, SameNonLocal, FailedPuts, Matches, Stored, Recognised, PutFault, SomePutFailed, RecognisedIn;
    DroppedMeansFailed(e, s.dropped, s.faulty, m.ops, s.next.ops);
  }

  lemma AccountedLater(e: Setup, contest: nat, a: Moment, b: Moment, r: Flushing)
    requires Accounted(e, contest, b, r) && a.ops <= b.ops
    ensures Accounted(e, contest, a, r)
  {
    hide Matches, Recognised, PutFault, SomePutFailed;
    SomePutFailedWider(e, b.ops, r.next.ops, a.ops, r.next.ops);
  }

  lemma {:induction false} FlushAccounts(e: Setup, contest: nat, remote: nat, w: World, turn: nat, packets: nat,
                                         last: nat, warnings: nat, m: Moment)
    requires FlushReady(e, m, remote, w) && warnings <= MAX_REMOTE_BUFFER_WARNINGS
    ensures Accounted(e, contest, m, Flush(e, contest, remote, w, turn, packets, last, warnings, m))
    decreases if packets == 0 then 1 else 0, MAX_REMOTE_BUFFER_WARNINGS - warnings, last
  {
    hide Flush, Found, Offered, Turn, Came, Joined, Puts, AfterPut, Accounted, Matches, Stored, NotSent, Sending;
    hide FlushStopped;
    FlushUnrolled(e, contest, remote, w, turn, packets, last, warnings, m);
    var r := Flush(e, contest, remote, w, turn, packets, last, warnings, m);
    if !w.pending && w.exits(0)(turn) {
      AccountedStop(e, contest, m, FlushInterrupted, m, m);
    } else {
      var m1, s, m2 := Turn(w, 2 * turn, m), Found(e, contest, w, turn, m), Offered(e, contest, w, turn, m);
      if s.answer.Nothing? {
        AccountedNothing(e, contest, w, turn, m, r);
      } else {
        var count, data := s.answer.count, s.answer.data;
        FoundIsStored(e, contest, w, turn, m);
        MatchesContest(data, contest, true);
        var m3 := AfterPut(e, m2, remote, data, false);
        if !Puts(e, m2, remote, false) {
          AccountedNotSent(e, contest, m2, remote, data, m1);
        } else {
          var rest := FlushOn(e, contest, remote, w, turn, packets, last, warnings, m);
          if packets > 0 && last <= count && warnings == MAX_REMOTE_BUFFER_WARNINGS {
            AccountedStop(e, contest, m3, FlushLoopDetected, m3, m1);
          } else if count == 0 {
            AccountedStop(e, contest, m3, Drained, m3, m1);
          } else {
            FlushAccounts(e, contest, remote, w, turn + 1, packets + 1, count,
                          if packets > 0 && last <= count then warnings + 1 else warnings, m3);
          }
          AccountedLater(e, contest, m2, m3, rest);
          AccountedSending(e, contest, m2, data, rest);
        }
        AccountedPass(e, contest, w, turn, m,
                      FlushRest(e, contest, remote, w, turn, packets, last, warnings, m));
      }
    }
  }

  // ---- A flush without errors and without other clients ----

  /** What holds before a pass of such a flush; the remote file is not the out-buffer it empties. */
  ghost predicate Alone(e: Setup, m: Moment, contest: nat, remote: nat, w: World, to: nat) {
    && Quiet(w) && e.limitsOk && Names(e.local, |m.files|) && contest < CONTEST_COUNT && remote < |m.files|
    && remote != e.local(contest, true) && Clean(e, m.ops, to)
  }

  /**
   * One pass alone: a packet found can be sent, the count is right and goes down, and a search in vain means none can
   * be reached.
   */
  lemma PassAlone(e: Setup, m: Moment, contest: nat, remote: nat, w: World, turn: nat, to: nat)
    requires FlushReady(e, m, remote, w) && Alone(e, m, contest, remote, w, to)
    requires Found(e, contest, w, turn, m).next.ops <= to
    ensures var out, s, m2 := e.local(contest, true), Found(e, contest, w, turn, m), Offered(e, contest, w, turn, m);
      && out < |m.files| && remote != out && Turn(w, 2 * turn, m) == m && m2 == s.next
      && (forall d | d in multiset(s.dropped) :: !Recognised(d))
      && (s.answer.Nothing? && NoBreak(w.exits(turn + 1)) ==> !Reaches(Packets(e.host, m.files[out]), contest, true))
      && (s.answer.Packet? && m2.ops < to ==> Puts(e, m2, remote, false))
      && (s.answer.Packet? ==> s.answer.count == CountContest(Packets(e.host, m2.files[out]), contest))
      && (s.answer.Packet? ==> s.answer.count < CountContest(Packets(e.host, m.files[out]), contest))
  {
    hide Packets, CountContest, Reaches, Recognised, SearchFile, Held, Matches;
    var out, s := e.local(contest, true), Found(e, contest, w, turn, m);
    NamesAt(e.local, |m.files|, contest, true);
    assert Turn(w, 2 * turn, m) == m;
    SearchFinds(e, contest, true, w.exits(turn + 1), w.exits(turn + 1)(0), 1, m);
    SearchSifts(e, contest, true, w.exits(turn + 1), w.exits(turn + 1)(0), 1, m);
    SearchPassesMisfits(e, contest, true, w.exits(turn + 1), w.exits(turn + 1)(0), 1, m);
    assert Packets(e.host, m.files[out]) == TakenBy(s) + Packets(e.host, s.next.files[out]);
    if s.answer.Packet? {
      MatchesContest(s.answer.data, contest, true);
      CountContestAppend(TakenBy(s), Packets(e.host, s.next.files[out]), contest);
      CountContestAppend(s.passed, [s.answer.data], contest);
      CountOne(_ => 0, s.answer.data, contest);
      if s.next.ops < to {
        assert e.faults(s.next.ops) == NO_FAULT;
      }
    }
  }

  /**
   * What such a flush comes to: nothing fails, the loop detection does not fire, and when it is drained, no packet of
   * the contest is left in the out-buffer, or the last search could not reach one.
   */
  ghost predicate EndsAlone(e: Setup, contest: nat, w: World, turn: nat, r: Flushing)
    requires e.local(contest, true) < |r.next.files| == |r.tried.files|
  {
    var out := e.local(contest, true);
    && (r.end == Drained || r.end == FlushInterrupted) && r.lost == multiset{} && r.arrived == r.departed == multiset{}
    && (forall d | d in r.dropped :: !Recognised(d))
    && (r.end == FlushInterrupted ==> !w.pending && exists k :: k >= turn && w.exits(0)(k))
    && (r.end == Drained && (forall k :: NoBreak(w.exits(k))) ==>
          || CountContest(Packets(e.host, r.next.files[out]), contest) == 0
          || !Reaches(Packets(e.host, r.tried.files[out]), contest, true))
  }

  lemma {:induction false} FlushAlone(e: Setup, contest: nat, remote: nat, w: World, turn: nat, packets: nat, last: nat,
                                      warnings: nat, m: Moment)
    requires FlushReady(e, m, remote, w) && warnings <= MAX_REMOTE_BUFFER_WARNINGS
    requires Alone(e, m, contest, remote, w, Flush(e, contest, remote, w, turn, packets, last, warnings, m).next.ops)
    requires e.local(contest, true) < |m.files|
    requires packets > 0 ==> last == CountContest(Packets(e.host, m.files[e.local(contest, true)]), contest)
    ensures EndsAlone(e, contest, w, turn, Flush(e, contest, remote, w, turn, packets, last, warnings, m))
    decreases if packets == 0 then 1 else 0, MAX_REMOTE_BUFFER_WARNINGS - warnings, last
  {
    hide Flush, Found, Offered, Turn, Puts, Packets, CountContest, AfterPut, Names, EndsAlone, Alone, Came;
    FlushUnrolled(e, contest, remote, w, turn, packets, last, warnings, m);
    var r := Flush(e, contest, remote, w, turn, packets, last, warnings, m);
    if !w.pending && w.exits(0)(turn) {
      InterruptedAlone(e, contest, w, turn, m);
    } else {
      var s, m2 := Found(e, contest, w, turn, m), Offered(e, contest, w, turn, m);
      FoundOps(e, contest, remote, w, turn, packets, last, warnings, m);
      PassAlone(e, m, contest, remote, w, turn, r.next.ops);
      if s.answer.Nothing? {
        NothingAlone(e, contest, remote, w, turn, m, r);
      } else {
        var m3 := AfterPut(e, m2, remote, s.answer.data, false);
        OutAfterPut(e, m2, contest, remote, s.answer.data);
        AloneLater(e, m, m3, contest, remote, w, r.next.ops);
        var rest := FlushStopped(Drained, m3, m);
        if s.answer.count > 0 {
          FlushAlone(e, contest, remote, w, turn + 1, packets + 1, s.answer.count, warnings, m3);
          rest := Flush(e, contest, remote, w, turn + 1, packets + 1, s.answer.count, warnings, m3);
        } else {
          DrainedAlone(e, contest, w, turn, m3, m);
        }
        SentAlone(e, contest, remote, w, turn, m, r.next.ops, s.answer.data, rest);
      }
    }
  }

  lemma InterruptedAlone(e: Setup, contest: nat, w: World, turn: nat, m: Moment)
    requires !w.pending && w.exits(0)(turn) && e.local(contest, true) < |m.files|
    ensures EndsAlone(e, contest, w, turn, FlushStopped(FlushInterrupted, m, m))
  {
  }

  lemma NothingAlone(e: Setup, contest: nat, remote: nat, w: World, turn: nat, m: Moment, r: Flushing)
    requires FlushReady(e, m, remote, w) && Alone(e, m, contest, remote, w, Found(e, contest, w, turn, m).next.ops)
    requires Found(e, contest, w, turn, m).answer.Nothing?
    requires var m1, s := Turn(w, 2 * turn, m), Found(e, contest, w, turn, m);
      r == Flushing(Drained, s.next, [], Came(e, m, m1), Came(e, m1, m), multiset(s.dropped), multiset{}, m1)
    ensures e.local(contest, true) < |m.files| && EndsAlone(e, contest, w, turn, r)
  {
    hide Packets, CountContest, Reaches, Recognised, Held, Found, NoBreak;
    PassAlone(e, m, contest, remote, w, turn, r.next.ops);
  }

  lemma OutAfterPut(e: Setup, m: Moment, contest: nat, remote: nat, data: WorkRecord)
    requires remote < |m.files| && e.local(contest, true) < |m.files| && remote != e.local(contest, true)
    ensures AfterPut(e, m, remote, data, false).files[e.local(contest, true)] == m.files[e.local(contest, true)]
  {
    hide PutSlots;
  }

  lemma AloneLater(e: Setup, a: Moment, b: Moment, contest: nat, remote: nat, w: World, to: nat)
    requires Alone(e, a, contest, remote, w, to) && a.ops <= b.ops && |a.files| == |b.files|
    ensures Alone(e, b, contest, remote, w, to)
  {
  }

  lemma DrainedAlone(e: Setup, contest: nat, w: World, turn: nat, next: Moment, tried: Moment)
    requires e.local(contest, true) < |next.files| == |tried.files|
    requires CountContest(Packets(e.host, next.files[e.local(contest, true)]), contest) == 0
    ensures EndsAlone(e, contest, w, turn + 1, FlushStopped(Drained, next, tried))
  {
  }

  lemma SentAlone(e: Setup, contest: nat, remote: nat, w: World, turn: nat, m: Moment, to: nat, data: WorkRecord,
                  rest: Flushing)
    requires FlushReady(e, m, remote, w) && Alone(e, m, contest, remote, w, to)
    requires Found(e, contest, w, turn, m).next.ops <= to
    requires e.local(contest, true) < |m.files| == |rest.next.files| == |rest.tried.files|
    requires EndsAlone(e, contest, w, turn + 1, rest)
    ensures EndsAlone(e, contest, w, turn, Joined(e, m, Turn(w, 2 * turn, m), Found(e, contest, w, turn, m),
                                                  Offered(e, contest, w, turn, m), Sending(data, rest)))
  {
    hide Packets, CountContest, Reaches, Recognised, Held, Found, NoBreak;
    PassAlone(e, m, contest, remote, w, turn, to);
  }

  /** The search of a pass, and the put after it, are within the operations of the flush. */
  lemma FoundOps(e: Setup, contest: nat, remote: nat, w: World, turn: nat, packets: nat, last: nat, warnings: nat,
                 m: Moment)
    requires FlushReady(e, m, remote, w) && warnings <= MAX_REMOTE_BUFFER_WARNINGS && (w.pending || !w.exits(0)(turn))
    ensures var r, s := Flush(e, contest, remote, w, turn, packets, last, warnings, m), Found(e, contest, w, turn, m);
      && m.ops <= s.next.ops == Offered(e, contest, w, turn, m).ops <= r.next.ops
      && (s.answer.Packet? ==> s.next.ops < r.next.ops)
  {
    hide Flush, Found, Puts, Came, PutSlots;
    FlushUnrolled(e, contest, remote, w, turn, packets, last, warnings, m);
  }

  /**
   * If the out-buffer holds only finished work of the contest, such a flush moves it all, in order, and leaves the
   * buffer empty, unless it is interrupted.
   */
  lemma {:induction false} FlushMovesAll(e: Setup, contest: nat, remote: nat, w: World, turn: nat, packets: nat,
                                         last: nat, warnings: nat, m: Moment)
    requires FlushReady(e, m, remote, w) && warnings <= MAX_REMOTE_BUFFER_WARNINGS
    requires Alone(e, m, contest, remote, w, Flush(e, contest, remote, w, turn, packets, last, warnings, m).next.ops)
    requires e.local(contest, true) < |m.files|
    requires packets > 0 ==> last == CountContest(Packets(e.host, m.files[e.local(contest, true)]), contest)
    requires OnlyDone(e, m.files[e.local(contest, true)], contest)
    ensures MovedAll(e, e.local(contest, true), m, Flush(e, contest, remote, w, turn, packets, last, warnings, m))
    decreases if packets == 0 then 1 else 0, MAX_REMOTE_BUFFER_WARNINGS - warnings, last
  {
    hide Flush, Found, Offered, Turn, Puts, Packets, CountContest, AfterPut, Names, Alone, Came;
    hide MovedAll, Matches, OnlyDone, Sending, Joined, FlushOn;
    FlushUnrolled(e, contest, remote, w, turn, packets, last, warnings, m);
    var r, out := Flush(e, contest, remote, w, turn, packets, last, warnings, m), e.local(contest, true);
    if !w.pending && w.exits(0)(turn) {
      MovedNone(e, out, m, r);
      return;
    }
    var s, m2 := Found(e, contest, w, turn, m), Offered(e, contest, w, turn, m);
    FoundOps(e, contest, remote, w, turn, packets, last, warnings, m);
    PassMoves(e, contest, remote, w, turn, m, r.next.ops);
    if s.answer.Nothing? {
      MovedNone(e, out, m, r);
    } else {
      var m3 := AfterPut(e, m2, remote, s.answer.data, false);
      FlushSent(e, contest, remote, w, turn, packets, last, warnings, m);
      var rest := FlushOn(e, contest, remote, w, turn, packets, last, warnings, m);
      if s.answer.count > 0 {
        FlushMovesAll(e, contest, remote, w, turn + 1, packets + 1, s.answer.count, warnings, m3);
      } else {
        NoneLeft(e, m3.files[out], contest);
        MovedNone(e, out, m3, rest);
      }
      MovedMore(e, out, m, m3, s.answer.data, rest);
      MovedJoined(e, contest, out, w, turn, m, s.answer.data, rest);
    }
  }

  /** A pass that sends a packet, with its parts named. */
  lemma FlushSent(e: Setup, contest: nat, remote: nat, w: World, turn: nat, packets: nat, last: nat, warnings: nat,
                  m: Moment)
    requires FlushReady(e, m, remote, w) && warnings <= MAX_REMOTE_BUFFER_WARNINGS && (w.pending || !w.exits(0)(turn))
    requires Found(e, contest, w, turn, m).answer.Packet? && Puts(e, Offered(e, contest, w, turn, m), remote, false)
    ensures var r := Flush(e, contest, remote, w, turn, packets, last, warnings, m);
      var on := FlushOn(e, contest, remote, w, turn, packets, last, warnings, m);
      var m1, s, m2 := Turn(w, 2 * turn, m), Found(e, contest, w, turn, m), Offered(e, contest, w, turn, m);
      var count, m3 := s.answer.count, AfterPut(e, m2, remote, s.answer.data, false);
      && r == Joined(e, m, m1, s, m2, Sending(s.answer.data, on)) && r.next == on.next
      && (!(packets > 0 && last <= count) ==>
            on == if count == 0 then FlushStopped(Drained, m3, m1)
                  else Flush(e, contest, remote, w, turn + 1, packets + 1, count, warnings, m3))
  {
    hide Flush, Found, Offered, Turn, Puts, AfterPut, Came, NotSent;
    FlushUnrolled(e, contest, remote, w, turn, packets, last, warnings, m);
  }

  /** The file holds only finished work of the contest. */
  ghost predicate OnlyDone(e: Setup, s: Slots, contest: nat) {
    forall p | p in Packets(e.host, s) :: Matches(p, contest, true)
  }

  /** One pass of such a flush: the packet in front goes over, and the count goes down with it. */
  lemma PassMoves(e: Setup, contest: nat, remote: nat, w: World, turn: nat, m: Moment, to: nat)
    requires FlushReady(e, m, remote, w) && Alone(e, m, contest, remote, w, to)
    requires e.local(contest, true) < |m.files| && OnlyDone(e, m.files[e.local(contest, true)], contest)
    requires Found(e, contest, w, turn, m).next.ops <= to
    requires Found(e, contest, w, turn, m).answer.Packet? ==> Offered(e, contest, w, turn, m).ops < to
    ensures var out, s, m2 := e.local(contest, true), Found(e, contest, w, turn, m), Offered(e, contest, w, turn, m);
      && Turn(w, 2 * turn, m) == m
      && (s.answer.Nothing? ==>
            && Packets(e.host, m.files[out]) == []
            && out < |s.next.files| && Packets(e.host, s.next.files[out]) == [])
      && (s.answer.Packet? ==>
            var m3 := AfterPut(e, m2, remote, s.answer.data, false);
            && Puts(e, m2, remote, false) && FlushReady(e, m3, remote, w) && Alone(e, m3, contest, remote, w, to)
            && out < |m3.files| && OnlyDone(e, m3.files[out], contest)
            && Packets(e.host, m.files[out]) == [s.answer.data] + Packets(e.host, m3.files[out])
            && s.answer.count == CountContest(Packets(e.host, m3.files[out]), contest)
            && s.answer.count < CountContest(Packets(e.host, m.files[out]), contest))
  {
    hide Found, Offered, Turn, Puts, Packets, CountContest, AfterPut, Names, Alone, Matches;
    var s, m2, out := Found(e, contest, w, turn, m), Offered(e, contest, w, turn, m), e.local(contest, true);
    PassAlone(e, m, contest, remote, w, turn, to);
    AloneStarts(e, m, contest, remote, w, to);
    FirstMatches(e, contest, remote, w, turn, m);
    if s.answer.Packet? {
      var m3 := AfterPut(e, m2, remote, s.answer.data, false);
      OutAfterPut(e, m2, contest, remote, s.answer.data);
      AloneLater(e, m, m3, contest, remote, w, to);
      var left := Packets(e.host, m3.files[out]);
      assert forall q | q in left :: q in [s.answer.data] + left;
    }
  }

  /** All packets of a file were moved, in order, unless the flush was interrupted; then those from its front. */
  ghost predicate MovedAll(e: Setup, out: nat, m: Moment, r: Flushing) {
    && out < |m.files| && out < |r.next.files|
    && Packets(e.host, m.files[out]) == r.moved + Packets(e.host, r.next.files[out])
    && (r.end != FlushInterrupted ==> r.end == Drained && Packets(e.host, r.next.files[out]) == [])
  }

  lemma MovedNone(e: Setup, out: nat, m: Moment, r: Flushing)
    requires out < |m.files| && out < |r.next.files| && (r.end == FlushInterrupted || r.end == Drained) && r.moved == []
    requires Packets(e.host, r.next.files[out]) == Packets(e.host, m.files[out])
    requires r.end == Drained ==> Packets(e.host, m.files[out]) == []
    ensures MovedAll(e, out, m, r)
  {
    hide Packets;
    assert [] + Packets(e.host, m.files[out]) == Packets(e.host, m.files[out]);
  }

  lemma MovedMore(e: Setup, out: nat, a: Moment, b: Moment, data: WorkRecord, r: Flushing)
    requires out < |a.files| && out < |b.files| && MovedAll(e, out, b, r)
    requires Packets(e.host, a.files[out]) == [data] + Packets(e.host, b.files[out])
    ensures MovedAll(e, out, a, Sending(data, r))
  {
    hide Packets;
    var left := Packets(e.host, r.next.files[out]);
    assert [data] + (r.moved + left) == ([data] + r.moved) + left;
  }

  lemma MovedJoined(e: Setup, contest: nat, out: nat, w: World, turn: nat, m: Moment, data: WorkRecord, rest: Flushing)
    requires Named(e, m) && OtherClients(w) && MovedAll(e, out, m, Sending(data, rest))
    ensures MovedAll(e, out, m, Joined(e, m, Turn(w, 2 * turn, m), Found(e, contest, w, turn, m),
                                       Offered(e, contest, w, turn, m), Sending(data, rest)))
  {
    hide Packets, Came, Found, Offered, Turn;
  }

  lemma AloneStarts(e: Setup, m: Moment, contest: nat, remote: nat, w: World, to: nat)
    requires Alone(e, m, contest, remote, w, to)
    ensures Quiet(w) && e.limitsOk && contest < CONTEST_COUNT && (m.ops < to ==> e.faults(m.ops) == NO_FAULT)
  {
  }

  lemma NoneLeft(e: Setup, s: Slots, contest: nat)
    requires CountContest(Packets(e.host, s), contest) == 0 && OnlyDone(e, s, contest)
    ensures Packets(e.host, s) == []
  {
    hide Packets, Recognised;
    if Packets(e.host, s) != [] {
      MatchesContest(Packets(e.host, s)[0], contest, true);
    }
  }

  /** A search of a buffer of matching packets returns the first at once. */
  lemma FirstMatches(e: Setup, contest: nat, remote: nat, w: World, turn: nat, m: Moment)
    requires FlushReady(e, m, remote, w) && Quiet(w) && e.limitsOk && contest < CONTEST_COUNT
    requires e.local(contest, true) < |m.files|
    requires forall p | p in Packets(e.host, m.files[e.local(contest, true)]) :: Matches(p, contest, true)
    ensures var s, out := Found(e, contest, w, turn, m), e.local(contest, true); var p := Packets(e.host, m.files[out]);
      && (s.answer.Packet? ==> p == [s.answer.data] + Packets(e.host, s.next.files[out]))
      && (s.answer.Nothing? ==> Packets(e.host, s.next.files[out]) == p)
      && (s.answer.Nothing? && e.faults(m.ops) == NO_FAULT ==> p == [])
      && s.next.ops > m.ops
  {
    hide Packets, Matches, Front, GetResult, Counted;
    var out := e.local(contest, true);
    assert Turn(w, 2 * turn, m) == m;
    GetTakes(e, m, out);
    TakenFront(e, m, out);
    if Gets(e, m, out) {
      assert Front(e, m, out) in [Front(e, m, out)] + Packets(e.host, AfterGet(e, m, out).files[out]);
    }
  }

  /**
   * Without other clients, and to a remote file that is none of this client's buffers, exactly what is moved arrives
   * there.
   */
  lemma {:induction false} FlushSends(e: Setup, contest: nat, remote: nat, w: World, turn: nat, packets: nat, last: nat,
                                      warnings: nat, m: Moment)
    requires FlushReady(e, m, remote, w) && warnings <= MAX_REMOTE_BUFFER_WARNINGS && Quiet(w)
    requires !IsLocal(e.local, remote)
    ensures ArrivedAt(e, remote, m, Flush(e, contest, remote, w, turn, packets, last, warnings, m))
    decreases if packets == 0 then 1 else 0, MAX_REMOTE_BUFFER_WARNINGS - warnings, last
  {
    hide Flush, Found, Offered, Turn, Puts, AfterPut, Names, Joined, Sending, FlushStopped, NotSent, IsLocal, ArrivedAt;
    FlushUnrolled(e, contest, remote, w, turn, packets, last, warnings, m);
    var r := Flush(e, contest, remote, w, turn, packets, last, warnings, m);
    if !w.pending && w.exits(0)(turn) {
      NoneArrived(e, remote, m, FlushInterrupted, m, m);
    } else {
      var m1, s, m2 := Turn(w, 2 * turn, m), Found(e, contest, w, turn, m), Offered(e, contest, w, turn, m);
      RemoteUntouched(e, contest, w, turn, remote, m);
      if s.answer.Nothing? {
        ArrivedNothing(e, remote, m, s.next, r);
      } else {
        var data := s.answer.data;
        var m3 := AfterPut(e, m2, remote, data, false);
        var rest := FlushRest(e, contest, remote, w, turn, packets, last, warnings, m);
        FoundIsStored(e, contest, w, turn, m);
        if !Puts(e, m2, remote, false) {
          NotSentArrives(e, remote, m, m2, data, m1);
        } else {
          var stuck := packets > 0 && last <= s.answer.count;
          var on := FlushOn(e, contest, remote, w, turn, packets, last, warnings, m);
          if stuck && warnings == MAX_REMOTE_BUFFER_WARNINGS {
            NoneArrived(e, remote, m3, FlushLoopDetected, m3, m1);
          } else if s.answer.count == 0 {
            NoneArrived(e, remote, m3, Drained, m3, m1);
          } else {
            FlushSends(e, contest, remote, w, turn + 1, packets + 1, s.answer.count,
                if stuck then warnings + 1 else warnings, m3);
          }
          OneArrived(e, remote, m, m2, data, on);
        }
        ArrivedJoined(e, contest, remote, w, turn, m, rest);
      }
    }
  }

  ghost predicate ArrivedAt(e: Setup, remote: nat, m: Moment, r: Flushing) {
    && remote < |m.files| && remote < |r.next.files|
    && Bag(e.host, r.next.files[remote]) == Bag(e.host, m.files[remote]) + multiset(r.moved)
  }

  lemma NoneArrived(e: Setup, remote: nat, m: Moment, end: FlushEnd, next: Moment, tried: Moment)
    requires remote < |m.files| && remote < |next.files| && next.files[remote] == m.files[remote]
    ensures ArrivedAt(e, remote, m, FlushStopped(end, next, tried))
  {
    hide Bag;
  }

  lemma ArrivedNothing(e: Setup, remote: nat, m: Moment, next: Moment, r: Flushing)
    requires remote < |m.files| && remote < |next.files| && next.files[remote] == m.files[remote] && r.next == next
    requires r.moved == []
    ensures ArrivedAt(e, remote, m, r)
  {
    hide Bag;
  }

  lemma NotSentArrives(e: Setup, remote: nat, a: Moment, m: Moment, data: WorkRecord, tried: Moment)
    requires Named(e, m) && remote < |m.files| && !IsLocal(e.local, remote) && !Puts(e, m, remote, false)
    requires remote < |a.files| && m.files[remote] == a.files[remote]
    ensures ArrivedAt(e, remote, a, NotSent(e, AfterPut(e, m, remote, data, false), data, tried))
  {
    hide Bag, IsLocal;
    SaveElsewhere(e, AfterPut(e, m, remote, data, false), data, remote);
  }

  lemma OneArrived(e: Setup, remote: nat, a: Moment, m: Moment, data: WorkRecord, rest: Flushing)
    requires remote < |m.files| && Puts(e, m, remote, false) && Stored(e.host, data) == data
    requires remote < |a.files| && m.files[remote] == a.files[remote]
    requires ArrivedAt(e, remote, AfterPut(e, m, remote, data, false), rest)
    ensures ArrivedAt(e, remote, a, Sending(data, rest))
  {
    hide Bag, Stored, Puts, AfterPut;
    BagAfterPut(e, m, remote, data, false);
    assert multiset([data] + rest.moved) == multiset{data} + multiset(rest.moved);
  }

  lemma ArrivedJoined(e: Setup, contest: nat, remote: nat, w: World, turn: nat, m: Moment, rest: Flushing)
    requires Named(e, m) && OtherClients(w) && ArrivedAt(e, remote, m, rest)
    ensures ArrivedAt(e, remote, m, Joined(e, m, Turn(w, 2 * turn, m), Found(e, contest, w, turn, m),
                                           Offered(e, contest, w, turn, m), rest))
  {
    hide Bag, Came, Found, Offered, Turn;
  }

  lemma RemoteUntouched(e: Setup, contest: nat, w: World, turn: nat, remote: nat, m: Moment)
    requires FlushReady(e, m, remote, w) && Quiet(w) && !IsLocal(e.local, remote)
    ensures Offered(e, contest, w, turn, m) == Found(e, contest, w, turn, m).next
    ensures Found(e, contest, w, turn, m).next.files[remote] == m.files[remote]
  {
    hide Held, GetBuffer, FailedPuts, Matches, Stored, RecognisedIn;
    assert Turn(w, 2 * turn, m) == m;
    GetBufferKeeps(e, contest, true, w.exits(turn + 1), m);
  }

  lemma BagAfterPut(e: Setup, m: Moment, id: nat, data: WorkRecord, counting: bool)
    requires id < |m.files| && Stored(e.host, data) == data
    ensures Bag(e.host, AfterPut(e, m, id, data, counting).files[id])
         == Bag(e.host, m.files[id]) + if Puts(e, m, id, counting) then multiset{data} else multiset{}
  {
    hide Packets, Held, Puts, AfterPut;
    PutStores(e, m, id, data, counting);
  }

  lemma SaveElsewhere(e: Setup, m: Moment, data: WorkRecord, remote: nat)
    requires Named(e, m) && remote < |m.files| && !IsLocal(e.local, remote)
    ensures AfterSave(e, m, data).files[remote] == m.files[remote]
  {
    if Accepts(e, data) {
      assert IsLocal(e.local, e.local(data.contest, GoesOut(data)));
    }
  }

  // ---- The flush, as the code is written ----

  /** One pass of a flush, as far as the caller sees it. */
  lemma FlushStep(e: Setup, contest: nat, remote: nat, w: World, turn: nat, packets: nat, last: nat, warnings: nat,
                  m: Moment)
    requires FlushReady(e, m, remote, w) && warnings <= MAX_REMOTE_BUFFER_WARNINGS
    ensures var r := Flush(e, contest, remote, w, turn, packets, last, warnings, m);
      var m1 := Turn(w, 2 * turn, m);
      var s := GetBuffer(e, contest, true, w.exits(turn + 1), m1);
      var m2 := Turn(w, 2 * turn + 1, s.next);
      if !w.pending && w.exits(0)(turn) then r.end == FlushInterrupted && r.next == m && r.moved == []
      else if s.answer.Nothing? then r.end == Drained && r.next == s.next && r.moved == []
      else
        var count, m3 := s.answer.count, AfterPut(e, m2, remote, s.answer.data, false);
        var stuck := packets > 0 && last <= count;
        if !Puts(e, m2, remote, false) then
          r.end == RemoteFailed && r.next == AfterSave(e, m3, s.answer.data) && r.moved == []
        else if stuck && warnings == MAX_REMOTE_BUFFER_WARNINGS then
          r.end == FlushLoopDetected && r.next == m3 && |r.moved| == 1
        else if count == 0 then r.end == Drained && r.next == m3 && |r.moved| == 1
        else
          SameFlush(Flush(e, contest, remote, w, turn + 1, packets + 1, count,
                          if stuck then warnings + 1 else warnings, m3), 1, r)
  {
    hide Turn, GetBuffer, AfterPut, Puts, AfterSave, Saves, Came, Flush;
    FlushUnrolled(e, contest, remote, w, turn, packets, last, warnings, m);
  }

  /** The loop detection does not fire before the fourth packet after which the out-buffer had not become smaller. */
  lemma {:induction false} FlushLoopFoundLate(e: Setup, contest: nat, remote: nat, w: World, turn: nat, packets: nat,
                                              last: nat, warnings: nat, m: Moment)
    requires FlushReady(e, m, remote, w) && warnings <= MAX_REMOTE_BUFFER_WARNINGS
    ensures var r := Flush(e, contest, remote, w, turn, packets, last, warnings, m);
      r.end == FlushLoopDetected ==> |r.moved| + warnings >= if packets == 0 then 5 else 4
    decreases if packets == 0 then 1 else 0, MAX_REMOTE_BUFFER_WARNINGS - warnings, last
  {
    hide Turn, GetBuffer, AfterPut, Puts, AfterSave, Saves, Came, Flush, Names, OtherClients;
    FlushStep(e, contest, remote, w, turn, packets, last, warnings, m);
    var s := GetBuffer(e, contest, true, w.exits(turn + 1), Turn(w, 2 * turn, m));
    var m2 := Turn(w, 2 * turn + 1, s.next);
    if (w.pending || !w.exits(0)(turn)) && s.answer.Packet? && Puts(e, m2, remote, false) {
      var count, m3 := s.answer.count, AfterPut(e, m2, remote, s.answer.data, false);
      var stuck := packets > 0 && last <= count;
      if !(stuck && warnings == MAX_REMOTE_BUFFER_WARNINGS) && count > 0 {
        FlushLoopFoundLate(e, contest, remote, w, turn + 1, packets + 1, count,
                           if stuck then warnings + 1 else warnings, m3);
      }
    }
  }

  method OthersTurn(c: Client, k: nat, w: World)
    requires OtherClients(w)
    modifies c.disk`files
    ensures c.Now() == Turn(w, k, old(c.Now()))
  {
    c.disk.files := w.others(k, c.disk.files);
  }

  /** BufferFlushFile for one contest. */
  method FlushContest(c: Client, contest: nat, remote: nat, init: WorkRecord, w: World)
    returns (end: FlushEnd, packets: nat)
    requires FlushReady(c.Env(), c.Now(), remote, w)
    modifies c.disk`files, c.disk`ops
    ensures var r := Flush(c.Env(), contest, remote, w, 0, 0, 0, 0, old(c.Now()));
      c.Now() == r.next && end == r.end && |r.moved| == packets + if end == FlushLoopDetected then 1 else 0
  {
    hide Flush, Puts, AfterPut, AfterSave, Saves, GetBuffer, Turn, Names, OtherClients, HomeCount, Packets, PutSlots;
    end, packets := Drained, 0;
    var totrans, last, warnings, turn, data := 1, 0, 0, 0, init;
    ghost var e, start := c.Env(), c.Now();
    ghost var r := Flush(e, contest, remote, w, 0, 0, 0, 0, start);
    while totrans > 0
      invariant |c.disk.files| == |start.files| && warnings <= MAX_REMOTE_BUFFER_WARNINGS && end == Drained
      invariant totrans >= 0 && (packets > 0 ==> last == totrans)
      invariant totrans > 0 ==>
        SameFlush(Flush(e, contest, remote, w, turn, packets, last, warnings, c.Now()), packets, r)
      invariant totrans == 0 ==> c.Now() == r.next && r.end == Drained && packets == |r.moved|
      decreases if packets == 0 then 1 else 0, MAX_REMOTE_BUFFER_WARNINGS - warnings, last, totrans
    {
      ghost var m := c.Now();
      FlushStep(e, contest, remote, w, turn, packets, last, warnings, m);
      if !w.pending && w.exits(0)(turn) {
        end := FlushInterrupted;
        break;
      }
      OthersTurn(c, 2 * turn, w);
      totrans, data := c.GetBufferRecord(contest, true, data, w.exits(turn + 1));
      if totrans < 0 {
        break;
      }
      OthersTurn(c, 2 * turn + 1, w);
      var ok, _ := c.Store(remote, data, false);
      if !ok {
        var _ := c.PutBufferRecord(data);
        end := RemoteFailed;
        break;
      }
      turn := turn + 1;
      if packets > 0 && last <= totrans {
        if warnings < MAX_REMOTE_BUFFER_WARNINGS {
          warnings := warnings + 1;
        } else {
          end := FlushLoopDetected;
          break;
        }
      }
      last := totrans;
      packets := packets + 1;
    }
  }

  predicate SameFlush(s: Flushing, packets: nat, r: Flushing) {
    s.end == r.end && s.next == r.next && |r.moved| == packets + |s.moved|
  }
}
