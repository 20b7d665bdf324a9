/** The in-memory buffers: a table of growable stacks, and GetBufferRecord over it (buffbase.cpp). */
module MemBuffers {
  import opened Records
  import opened Disk
  import opened Routing
  import opened Buffers

  const MEMBUFF_COUNT_MAX: nat := 20000
  const MEMBUFF_STEPS: nat := 200
  const BUFFER_COUNT: nat := 2 * CONTEST_COUNT

  datatype Pointer = Null | To(rec: WorkRecord)

  /** The answers of the allocator to one put: to the growing of the array, and for the new record. */
  datatype Memory = Memory(grow: bool, record: bool)

  /** struct membuffstruct: a pointer array of capacity maxcount, used as a stack of count records. */
  datatype MemBuff = MemBuff(count: nat, maxcount: nat, buff: seq<Pointer>) {
    predicate Ok() {
      && count <= maxcount == |buff| <= MEMBUFF_COUNT_MAX && maxcount % MEMBUFF_STEPS == 0
      && (forall i | 0 <= i < count :: buff[i].To?)
      && (forall i | count <= i < maxcount :: buff[i] == Null)
    }

    function Contents(): (s: seq<WorkRecord>)
      requires Ok()
      ensures |s| == count
    {
      seq(count, i requires 0 <= i < count => buff[i].rec)
    }

    /** The buffer after a realloc that the allocator may refuse. */
    function Grown(granted: bool): (m: MemBuff)
      requires Ok()
      ensures m.Ok() && m.Contents() == Contents()
      ensures m.count < m.maxcount <==> count < maxcount || (granted && maxcount < MEMBUFF_COUNT_MAX)
    {
      if count == maxcount && maxcount < MEMBUFF_COUNT_MAX && granted then
        MemBuff(count, maxcount + MEMBUFF_STEPS, buff + seq(MEMBUFF_STEPS, _ => Null))
      else this
    }

    /** A packet can be pushed: the record is granted, and there is a free pointer or one can be had. */
    predicate Takes(mem: Memory) {
      mem.record && (count < maxcount || (mem.grow && maxcount < MEMBUFF_COUNT_MAX))
    }

    function Pushed(data: WorkRecord, mem: Memory): (m: MemBuff)
      requires Ok()
      ensures m.Ok() && m.Contents() == if Takes(mem) then Contents() + [data] else Contents()
    {
      var g := Grown(mem.grow);
      if Takes(mem) then
        var m := MemBuff(g.count + 1, g.maxcount, g.buff[g.count := To(data)]);
        assert m.Contents() == g.Contents() + [data];
        m
      else g
    }

    function Popped(): (m: MemBuff)
      requires Ok() && count > 0
      ensures m.Ok() && m.Contents() == Contents()[..count - 1]
    {
      MemBuff(count - 1, maxcount, buff[count - 1 := Null])
    }
  }

  type Table = seq<MemBuff>

  predicate AllOk(t: Table) {
    |t| == BUFFER_COUNT && forall i | 0 <= i < |t| :: t[i].Ok()
  }

  /** Where the buffer of a contest and direction is in the table. */
  function Index(contest: nat, out: bool): nat {
    2 * contest + if out then 1 else 0
  }

  lemma IndexInRange(contest: nat, out: bool, c: nat, o: bool)
    requires contest < CONTEST_COUNT && c < CONTEST_COUNT
    ensures Index(contest, out) < BUFFER_COUNT && Index(c, o) < BUFFER_COUNT
    ensures Index(contest, out) == Index(c, o) <==> contest == c && out == o
  {
  }

  /** The packets of one buffer, the last on top. */
  function Stack(t: Table, c: nat, o: bool): seq<WorkRecord>
    requires AllOk(t) && c < CONTEST_COUNT
  {
    t[Index(c, o)].Contents()
  }

  // ---- One pass of the loop ----

  function Top(t: Table, contest: nat, out: bool): WorkRecord
    requires AllOk(t) && contest < CONTEST_COUNT && t[Index(contest, out)].count > 0
  {
    Stack(t, contest, out)[t[Index(contest, out)].count - 1]
  }

  function AfterPop(t: Table, contest: nat, out: bool): (r: Table)
    requires AllOk(t) && contest < CONTEST_COUNT && t[Index(contest, out)].count > 0
    ensures AllOk(r)
  {
    t[Index(contest, out) := t[Index(contest, out)].Popped()]
  }

  /** The buffer a recognised packet belongs in. */
  function HomeOf(t: Table, d: WorkRecord): MemBuff
    requires AllOk(t) && Recognised(d)
  {
    IndexInRange(d.contest, GoesOut(d), d.contest, GoesOut(d));
    t[Index(d.contest, GoesOut(d))]
  }

  function AfterPush(t: Table, d: WorkRecord, mem: Memory): (r: Table)
    requires AllOk(t) && Recognised(d)
    ensures AllOk(r)
  {
    t[Index(d.contest, GoesOut(d)) := HomeOf(t, d).Pushed(d, mem)]
  }

  /** A push that was refused: which packet taken it was for, and the buffer as it was. */
  datatype Refused = Refused(k: nat, target: MemBuff)

  /** A search of a memory buffer, like that of a file. */
  datatype MemSearch = MemSearch(answer: Answer, next: Table, passed: seq<WorkRecord>, strays: seq<WorkRecord>,
                                 dropped: seq<WorkRecord>, refused: seq<Refused>)

  /** A search that first passed the k-th misfit, whose push into `target` was granted or not. */
  function PassingMem(s: MemSearch, data: WorkRecord, saved: bool, refusal: Refused): (r: MemSearch)
    ensures r.answer == s.answer && r.next == s.next
  {
    s.(passed := [data] + s.passed,
       strays := if saved then [data] + s.strays else s.strays,
       dropped := if saved then s.dropped else [data] + s.dropped,
       refused := if Recognised(data) && !saved then [refusal] + s.refused else s.refused)
  }

  /**
   * GetBufferRecord's loop on memory buffers. `exit(j)` answers poll j of the exit trigger unless a break was pending,
   * `mem(k)` is the allocator at the k-th packet taken.
   */
  function SearchMem(t: Table, contest: nat, out: bool, exit: nat -> bool, pending: bool, polls: nat,
                     mem: nat -> Memory, k: nat): (s: MemSearch)
    requires AllOk(t) && contest < CONTEST_COUNT
    ensures AllOk(s.next)
    decreases t[Index(contest, out)].count
  {
    var src := Index(contest, out);
    if t[src].count == 0 then MemSearch(Nothing, t, [], [], [], [])
    else
      var data, popped, count := Top(t, contest, out), AfterPop(t, contest, out), t[src].count - 1;
      if Matches(data, contest, out) then MemSearch(Packet(count, data), popped, [], [], [], [])
      else
        var saved := Recognised(data) && HomeOf(popped, data).Takes(mem(k));
        var next := if Recognised(data) then AfterPush(popped, data, mem(k)) else popped;
        PushElsewhere(t, contest, out, mem(k));
        var rest := if (!pending && exit(polls)) || count == 0 then MemSearch(Nothing, next, [], [], [], [])
                    else SearchMem(next, contest, out, exit, pending, if pending then polls else polls + 1, mem, k + 1);
        PassingMem(rest, data, saved, Refused(k, if Recognised(data) then HomeOf(popped, data) else t[src]))
  }

  /** Pushing a misfit leaves the buffer it came from alone. */
  lemma PushElsewhere(t: Table, contest: nat, out: bool, mem: Memory)
    requires AllOk(t) && contest < CONTEST_COUNT && t[Index(contest, out)].count > 0
    requires !Matches(Top(t, contest, out), contest, out)
    ensures var data, popped := Top(t, contest, out), AfterPop(t, contest, out);
      Recognised(data) ==> AfterPush(popped, data, mem)[Index(contest, out)] == popped[Index(contest, out)]
  {
    var data := Top(t, contest, out);
    hide Top, Recognised, Matches, GoesOut;
    if Recognised(data) {
      Misfiled(data, contest, out);
      IndexInRange(contest, out, data.contest, GoesOut(data));
    }
  }

  // ---- What a search does ----

  function MemTaken(s: MemSearch): seq<WorkRecord> {
    s.passed + match s.answer case Nothing => [] case Packet(_, data) => [data]
  }

  /**
   * From table a to table b the packets `taken` were popped, in this order, off the buffer of contest and direction;
   * those of `strays` were pushed, in this order, on the buffers they belong on, and none on that one; nothing else has
   * changed.
   */
  ghost predicate Popping(a: Table, b: Table, contest: nat, out: bool, taken: seq<WorkRecord>,
                          strays: seq<WorkRecord>) {
    && AllOk(a) && AllOk(b) && contest < CONTEST_COUNT
    && Stack(a, contest, out) == Stack(b, contest, out) + Backwards(taken)
    && forall c: nat, o | c < CONTEST_COUNT && (c, o) != (contest, out) ::
         Stack(b, c, o) == Stack(a, c, o) + Routed(strays, c, o)
  }

  function Backwards(s: seq<WorkRecord>): seq<WorkRecord> {
    if s == [] then [] else Backwards(s[1..]) + [s[0]]
  }

  lemma PoppingNothing(t: Table, contest: nat, out: bool)
    requires AllOk(t) && contest < CONTEST_COUNT
    ensures Popping(t, t, contest, out, [], [])
  {
    hide MemBuff.Contents, MemBuff.Ok;
  }

  lemma PoppingTop(t: Table, contest: nat, out: bool)
    requires AllOk(t) && contest < CONTEST_COUNT && t[Index(contest, out)].count > 0
    ensures Popping(t, AfterPop(t, contest, out), contest, out, [Top(t, contest, out)], [])
  {
    hide MemBuff.Contents, MemBuff.Ok, MemBuff.Popped;
    var s, n, b := Stack(t, contest, out), t[Index(contest, out)].count, AfterPop(t, contest, out);
    assert s == s[..n - 1] + [s[n - 1]];
    assert Backwards([s[n - 1]]) == [s[n - 1]];
    forall c: nat, o | c < CONTEST_COUNT && (c, o) != (contest, out)
      ensures Stack(b, c, o) == Stack(t, c, o) + Routed([], c, o) {
      IndexInRange(contest, out, c, o);
    }
  }

  lemma PoppingThen(a: Table, b: Table, d: Table, contest: nat, out: bool, data: WorkRecord, taken: seq<WorkRecord>,
                    first: seq<WorkRecord>, strays: seq<WorkRecord>)
    requires Popping(a, b, contest, out, [data], first) && Popping(b, d, contest, out, taken, strays)
    ensures Popping(a, d, contest, out, [data] + taken, first + strays)
  {
    hide MemBuff.Contents, MemBuff.Ok, Routed, Stack, AllOk;
    assert ([data] + taken)[1..] == taken && Backwards([data]) == [data];
    assert Backwards([data] + taken) == Backwards(taken) + [data];
    forall c: nat, o | c < CONTEST_COUNT && (c, o) != (contest, out)
      ensures Stack(d, c, o) == Stack(a, c, o) + Routed(first + strays, c, o) {
      RoutedAppend(first, strays, c, o);
    }
  }

  /** One misfit popped, and pushed where it belongs if that is granted. */
  lemma PoppingMisfit(t: Table, contest: nat, out: bool, mem: Memory)
    requires AllOk(t) && contest < CONTEST_COUNT && t[Index(contest, out)].count > 0
    requires !Matches(Top(t, contest, out), contest, out)
    ensures var data, popped := Top(t, contest, out), AfterPop(t, contest, out);
      && (Recognised(data) ==> Popping(t, AfterPush(popped, data, mem), contest, out, [data],
                                       if HomeOf(popped, data).Takes(mem) then [data] else []))
  {
    PoppingTop(t, contest, out);
    PushElsewhere(t, contest, out, mem);
    var data, popped := Top(t, contest, out), AfterPop(t, contest, out);
    hide MemBuff.Contents, MemBuff.Ok, MemBuff.Takes, MemBuff.Pushed, Top, AfterPop, Matches, Recognised;
    if Recognised(data) {
      var next := AfterPush(popped, data, mem);
      var strays := if HomeOf(popped, data).Takes(mem) then [data] else [];
      forall c: nat, o | c < CONTEST_COUNT && (c, o) != (contest, out)
        ensures Stack(next, c, o) == Stack(t, c, o) + Routed(strays, c, o) {
        PushedStack(popped, data, mem, c, o);
      }
    }
  }

  lemma PushedStack(t: Table, d: WorkRecord, mem: Memory, c: nat, o: bool)
    requires AllOk(t) && Recognised(d) && c < CONTEST_COUNT
    ensures var pushed := if HomeOf(t, d).Takes(mem) then [d] else [];
      Stack(AfterPush(t, d, mem), c, o) == Stack(t, c, o) + Routed(pushed, c, o)
  {
    hide MemBuff.Contents, MemBuff.Ok, MemBuff.Takes, MemBuff.Pushed;
    IndexInRange(d.contest, GoesOut(d), c, o);
    RoutedNext([], d, c, o);
    assert [] + [d] == [d] && Routed([], c, o) == [];
  }

  lemma {:induction false} SearchMemSorts(t: Table, contest: nat, out: bool, exit: nat -> bool, pending: bool,
                                          polls: nat, mem: nat -> Memory, k: nat)
    requires AllOk(t) && contest < CONTEST_COUNT
    ensures var s := SearchMem(t, contest, out, exit, pending, polls, mem, k);
      Popping(t, s.next, contest, out, MemTaken(s), s.strays)
    decreases t[Index(contest, out)].count
  {
    hide MemBuff.Contents, MemBuff.Ok, MemBuff.Takes, Top, AfterPop, AfterPush, HomeOf, Matches, Recognised, Popping;
    IndexInRange(contest, out, contest, out);
    if t[Index(contest, out)].count == 0 {
      PoppingNothing(t, contest, out);
      assert MemTaken(MemSearch(Nothing, t, [], [], [], [])) == [];
    } else {
      var data, popped := Top(t, contest, out), AfterPop(t, contest, out);
      PoppingTop(t, contest, out);
      if Matches(data, contest, out) {
        assert [] + [data] == [data];
      } else {
        PushElsewhere(t, contest, out, mem(k));
        PoppingMisfit(t, contest, out, mem(k));
        var next := if Recognised(data) then AfterPush(popped, data, mem(k)) else popped;
        var first := if Recognised(data) && HomeOf(popped, data).Takes(mem(k)) then [data] else [];
        PopCount(t, contest, out);
        var rest := MemSearch(Nothing, next, [], [], [], []);
        if (!pending && exit(polls)) || t[Index(contest, out)].count - 1 == 0 {
          PoppingNothing(next, contest, out);
          assert MemTaken(rest) == [];
        } else {
          var on := if pending then polls else polls + 1;
          SearchMemSorts(next, contest, out, exit, pending, on, mem, k + 1);
          rest := SearchMem(next, contest, out, exit, pending, on, mem, k + 1);
        }
        PoppingThen(t, next, rest.next, contest, out, data, MemTaken(rest), first, rest.strays);
        var target := if Recognised(data) then HomeOf(popped, data) else t[Index(contest, out)];
        MemFront(rest, data, first, Refused(k, target));
      }
    }
  }

  lemma PopCount(t: Table, contest: nat, out: bool)
    requires AllOk(t) && contest < CONTEST_COUNT && t[Index(contest, out)].count > 0
    ensures AfterPop(t, contest, out)[Index(contest, out)].count == t[Index(contest, out)].count - 1
  {
  }

  lemma MemFront(s: MemSearch, data: WorkRecord, first: seq<WorkRecord>, refusal: Refused)
    requires first == [] || first == [data]
    ensures var r := PassingMem(s, data, first != [], refusal);
      MemTaken(r) == [data] + MemTaken(s) && r.strays == first + s.strays
  {
  }

  /** It passes misfits only; a packet returned is one that was asked for, and its count is its index on the stack. */
  lemma {:induction false} SearchMemPassesMisfits(t: Table, contest: nat, out: bool, exit: nat -> bool, pending: bool,
                                                  polls: nat, mem: nat -> Memory, k: nat)
    requires AllOk(t) && contest < CONTEST_COUNT
    ensures var s := SearchMem(t, contest, out, exit, pending, polls, mem, k);
      && (forall i | 0 <= i < |s.passed| :: !Matches(s.passed[i], contest, out))
      && (s.answer.Packet? ==> Matches(s.answer.data, contest, out) && s.answer.count == |Stack(s.next, contest, out)|)
      && (s.answer.Nothing? && Unbroken(exit, pending, polls) ==> Stack(s.next, contest, out) == [])
    decreases t[Index(contest, out)].count
  {
    hide MemBuff.Ok, MemBuff.Takes, Top, AfterPush, HomeOf, Matches, Recognised;
    IndexInRange(contest, out, contest, out);
    if t[Index(contest, out)].count > 0 {
      var data, popped := Top(t, contest, out), AfterPop(t, contest, out);
      PopCount(t, contest, out);
      if !Matches(data, contest, out) {
        PushElsewhere(t, contest, out, mem(k));
        var next := if Recognised(data) then AfterPush(popped, data, mem(k)) else popped;
        if !((!pending && exit(polls)) || t[Index(contest, out)].count - 1 == 0) {
          SearchMemPassesMisfits(next, contest, out, exit, pending, if pending then polls else polls + 1, mem, k + 1);
        }
      }
    }
  }

  /**
   * The refusals of a search: each for a different packet taken, in order, and each push could not have been granted.
   */
  ghost predicate RealRefusals(refused: seq<Refused>, mem: nat -> Memory, from: nat, to: nat) {
    && (forall i | 0 <= i < |refused| :: from <= refused[i].k < to && Refuses(refused[i], mem))
    && (forall i, j | 0 <= i < j < |refused| :: refused[i].k < refused[j].k)
  }

  /** The allocator refused the record, or the buffer was at its limit, or could not grow. */
  predicate Refuses(r: Refused, mem: nat -> Memory) {
    && r.target.Ok()
    && (|| !mem(r.k).record
        || (r.target.count == r.target.maxcount && (!mem(r.k).grow || r.target.count == MEMBUFF_COUNT_MAX)))
  }

  /**
   * Every misfit is saved or dropped, and each recognised one dropped answers to a push that was refused at that
   * packet: an allocation failed, or its buffer held 20000 packets.
   */
  ghost predicate MemAccounted(s: MemSearch, mem: nat -> Memory, k: nat) {
    && multiset(s.passed) == multiset(s.strays) + multiset(s.dropped)
    && |s.refused| == RecognisedIn(s.dropped) && RealRefusals(s.refused, mem, k, k + |s.passed|)
  }

  lemma MemAccountedNow(answer: Answer, t: Table, mem: nat -> Memory, k: nat)
    ensures MemAccounted(MemSearch(answer, t, [], [], [], []), mem, k)
  {
  }

  lemma {:induction false} SearchMemAccounts(t: Table, contest: nat, out: bool, exit: nat -> bool, pending: bool,
                                             polls: nat, mem: nat -> Memory, k: nat)
    requires AllOk(t) && contest < CONTEST_COUNT
    ensures MemAccounted(SearchMem(t, contest, out, exit, pending, polls, mem, k), mem, k)
    decreases t[Index(contest, out)].count
  {
    hide MemBuff.Contents, MemBuff.Takes, Top, AfterPop, AfterPush, HomeOf, Matches, Recognised, Refuses;
    hide MemAccounted, PassingMem;
    IndexInRange(contest, out, contest, out);
    var s := SearchMem(t, contest, out, exit, pending, polls, mem, k);
    MemAccountedNow(s.answer, s.next, mem, k);
    if t[Index(contest, out)].count > 0 {
      var data, popped := Top(t, contest, out), AfterPop(t, contest, out);
      PopCount(t, contest, out);
      if !Matches(data, contest, out) {
        PushElsewhere(t, contest, out, mem(k));
        var next := if Recognised(data) then AfterPush(popped, data, mem(k)) else popped;
        var rest := MemSearch(Nothing, next, [], [], [], []);
        if (!pending && exit(polls)) || t[Index(contest, out)].count - 1 == 0 {
          MemAccountedNow(Nothing, next, mem, k + 1);
        } else {
          var on := if pending then polls else polls + 1;
          SearchMemAccounts(next, contest, out, exit, pending, on, mem, k + 1);
          rest := SearchMem(next, contest, out, exit, pending, on, mem, k + 1);
        }
        if Recognised(data) && !HomeOf(popped, data).Takes(mem(k)) {
          HomeRefuses(popped, data, mem, k);
        }
        AccountsFront(rest, data, Recognised(data) && HomeOf(popped, data).Takes(mem(k)),
                      Refused(k, if Recognised(data) then HomeOf(popped, data) else t[Index(contest, out)]), mem, k);
      }
    }
  }

  lemma HomeRefuses(t: Table, d: WorkRecord, mem: nat -> Memory, k: nat)
    requires AllOk(t) && Recognised(d) && !HomeOf(t, d).Takes(mem(k))
    ensures Refuses(Refused(k, HomeOf(t, d)), mem)
  {
    IndexInRange(d.contest, GoesOut(d), d.contest, GoesOut(d));
  }

  lemma {:induction false} AccountsFront(s: MemSearch, data: WorkRecord, saved: bool, refusal: Refused,
                                         mem: nat -> Memory, k: nat)
    requires MemAccounted(s, mem, k + 1) && refusal.k == k
    requires Recognised(data) && !saved ==> Refuses(refusal, mem)
    ensures MemAccounted(PassingMem(s, data, saved, refusal), mem, k)
  {
    hide Recognised, Refuses, RealRefusals, RecognisedIn;
    OneMoreMisfit(data, s.passed);
    OneMoreMisfit(data, s.strays);
    OneMoreMisfit(data, s.dropped);
    OneMoreOfTwo(multiset{data}, multiset(s.strays), multiset(s.dropped));
    OneMoreRefusal(s.refused, refusal, mem, k, k + 1 + |s.passed|);
  }

  lemma OneMoreOfTwo(one: multiset<WorkRecord>, a: multiset<WorkRecord>, b: multiset<WorkRecord>)
    ensures one + (a + b) == (one + a) + b && one + (a + b) == a + (one + b)
  {
  }

  lemma {:induction false} OneMoreMisfit(data: WorkRecord, s: seq<WorkRecord>)
    ensures multiset([data] + s) == multiset{data} + multiset(s)
    ensures RecognisedIn([data] + s) == (if Recognised(data) then 1 else 0) + RecognisedIn(s)
  {
    hide Recognised;
    assert ([data] + s)[1..] == s;
  }

  lemma {:induction false} OneMoreRefusal(refused: seq<Refused>, refusal: Refused, mem: nat -> Memory, k: nat, to: nat)
    requires RealRefusals(refused, mem, k + 1, to) && refusal.k == k < to
    ensures RealRefusals(refused, mem, k, to)
    ensures Refuses(refusal, mem) ==> RealRefusals([refusal] + refused, mem, k, to)
  {
    hide Refuses;
  }

  // ---- By the numbers of the packet ----

  /**
   * What storing a packet in memory comes to: contests run from 0 to 6, and with code 0 it is work to do, with 1 or 2
   * it is finished. It is refused if no record can be allocated, or its buffer is full and cannot grow.
   */
  ghost predicate MemPutByCodes(a: Table, b: Table, d: WorkRecord, mem: Memory, ret: int) {
    && AllOk(a) && AllOk(b)
    && if d.contest <= 6 && d.resultcode <= 2 then
         var out := d.resultcode != 0;
         var home := a[Index(d.contest, out)];
         && (ret == -1 <==>
               !mem.record || (home.count == home.maxcount && (!mem.grow || home.count == 20000)))
         && Stack(b, d.contest, out) == Stack(a, d.contest, out) + (if ret == -1 then [] else [d])
         && (ret != -1 ==> ret == |Stack(b, d.contest, out)|)
         && forall c: nat, o | c <= 6 && (c, o) != (d.contest, out) :: Stack(b, c, o) == Stack(a, c, o)
       else ret == -1 && b == a
  }

  lemma PushedByCodes(t: Table, d: WorkRecord, mem: Memory)
    requires AllOk(t)
    ensures !Recognised(d) ==> MemPutByCodes(t, t, d, mem, -1)
    ensures Recognised(d) ==>
      MemPutByCodes(t, AfterPush(t, d, mem), d, mem, if HomeOf(t, d).Takes(mem) then HomeOf(t, d).count + 1 else -1)
  {
    hide MemBuff.Contents, MemBuff.Pushed, Recognised, GoesOut;
    MatchesByCodes(d, d.contest, d.resultcode != 0);
    if Recognised(d) {
      HomeOutByCodes(d);
      var out := d.resultcode != 0;
      IndexInRange(d.contest, out, d.contest, out);
      assert HomeOf(t, d).Ok();
      PushedStack(t, d, mem, d.contest, out);
      RoutedHome(d, HomeOf(t, d).Takes(mem), out);
      forall c: nat, o | c <= 6 && (c, o) != (d.contest, out)
        ensures Stack(AfterPush(t, d, mem), c, o) == Stack(t, c, o) {
        PushedStack(t, d, mem, c, o);
        RoutedAway(d, HomeOf(t, d).Takes(mem), c, o);
      }
    }
  }

  lemma HomeOutByCodes(d: WorkRecord)
    ensures GoesOut(d) == (d.resultcode != 0)
  {
  }

  lemma RoutedHome(d: WorkRecord, takes: bool, out: bool)
    requires Recognised(d) && out == GoesOut(d)
    ensures Routed(if takes then [d] else [], d.contest, out) == if takes then [d] else []
  {
    hide Recognised, GoesOut;
    RoutedNext([], d, d.contest, out);
    assert [] + [d] == [d];
  }

  lemma RoutedAway(d: WorkRecord, takes: bool, c: nat, o: bool)
    requires (c, o) != (d.contest, GoesOut(d))
    ensures Routed(if takes then [d] else [], c, o) == []
  {
    hide Recognised, GoesOut;
    RoutedNext([], d, c, o);
    assert [] + [d] == [d];
  }

  // ---- The methods ----

  class MemTable {
    const table: array<MemBuff>

    predicate Valid()
      reads table
    {
      AllOk(table[..])
    }

    constructor ()
      ensures Valid() && fresh(table) && forall i | 0 <= i < table.Length :: table[i].count == 0
    {
      table := new MemBuff[BUFFER_COUNT](_ => MemBuff(0, 0, []));
    }

    /** BufferPutMemRecord */
    method Put(i: nat, data: WorkRecord, mem: Memory) returns (ok: bool, count: nat)
      requires Valid() && i < table.Length
      modifies table
      ensures table[..] == old(table[..])[i := old(table[i]).Pushed(data, mem)] && Valid()
      ensures ok == old(table[i]).Takes(mem)
      ensures count == if ok then old(table[i]).count + 1 else 0
    {
      hide MemBuff.Contents;
      var m := table[i];
      if m.count == m.maxcount && m.maxcount < MEMBUFF_COUNT_MAX && mem.grow {
        m := MemBuff(m.count, m.maxcount + MEMBUFF_STEPS, m.buff + seq(MEMBUFF_STEPS, _ => Null));
      }
      ok, count := false, 0;
      if m.count < m.maxcount && mem.record {
        m := MemBuff(m.count + 1, m.maxcount, m.buff[m.count := To(data)]);
        ok, count := true, m.count;
      }
      table[i] := m;
    }

    /** BufferGetMemRecord */
    method Get(i: nat, init: WorkRecord) returns (rc: GetCode, data: WorkRecord, count: nat)
      requires Valid() && i < table.Length
      modifies table
      ensures rc == if old(table[i]).count == 0 then NoRecords else Got
      ensures rc == NoRecords ==> table[..] == old(table[..]) && data == init && count == 0
      ensures rc == Got ==> table[..] == old(table[..])[i := old(table[i]).Popped()] && Valid()
      ensures rc == Got ==> count == old(table[i]).count - 1 && data == old(table[i]).Contents()[count]
    {
      rc, data, count := NoRecords, init, 0;
      var m := table[i];
      if m.count > 0 {
        var src := m.buff[m.count - 1];
        m := MemBuff(m.count - 1, m.maxcount, m.buff[m.count - 1 := Null]);
        table[i] := m;
        rc, data, count := Got, src.rec, m.count;
      }
    }

    /** PutBufferRecord on memory buffers. */
    method PutBufferRecord(data: WorkRecord, mem: Memory) returns (ret: int)
      requires Valid()
      modifies table
      ensures Valid() && MemPutByCodes(old(table[..]), table[..], data, mem, ret)
    {
      hide MemBuff.Contents, MemBuff.Ok, MemBuff.Takes, MemBuff.Pushed, MemPutByCodes, Recognised, GoesOut;
      ghost var t := table[..];
      PushedByCodes(t, data, mem);
      if !Recognised(data) {
        return -1;
      }
      HomeIndex(data);
      var ok, count := Put(Index(data.contest, GoesOut(data)), data, mem);
      return if ok then count else -1;
    }

    /** One pass of the loop: pop a packet, and push it where it belongs if that is another buffer. */
    method SortOne(contest: nat, out: bool, init: WorkRecord, mem: Memory)
      returns (status: Taking, data: WorkRecord, count: nat)
      requires Valid() && contest < CONTEST_COUNT && Index(contest, out) < table.Length
      modifies table
      ensures Valid()
      ensures status == Stop <==> old(table[Index(contest, out)]).count == 0
      ensures status == Stop ==> table[..] == old(table[..])
      ensures status != Stop ==>
        data == Top(old(table[..]), contest, out) && count == old(table[Index(contest, out)]).count - 1
      ensures status == Found <==> status != Stop && Matches(data, contest, out)
      ensures status == Found ==> table[..] == AfterPop(old(table[..]), contest, out)
      ensures status == Misfit ==> var popped := AfterPop(old(table[..]), contest, out);
        table[..] == if Recognised(data) then AfterPush(popped, data, mem) else popped
    {
      hide MemBuff.Contents, MemBuff.Ok, MemBuff.Takes, MemBuff.Pushed, MemBuff.Popped, Matches, Recognised, GoesOut;
      var rc;
      rc, data, count := Get(Index(contest, out), init);
      if rc != Got {
        return Stop, data, count;
      }
      MatchesContest(data, contest, out);
      if !Recognised(data) {
        return Misfit, data, count;
      }
      if Matches(data, contest, out) {
        return Found, data, count;
      }
      HomeIndex(data);
      var _, _ := Put(Index(data.contest, GoesOut(data)), data, mem);
      return Misfit, data, count;
    }

    /** GetBufferRecord on memory buffers; the exit trigger is polled once before anything else. */
    method GetBufferRecord(contest: nat, out: bool, init: WorkRecord, exit: nat -> bool, mem: nat -> Memory)
      returns (ret: int, data: WorkRecord)
      requires Valid()
      modifies table
      ensures Valid()
      ensures contest >= CONTEST_COUNT ==> ret == -1 && table[..] == old(table[..])
      ensures contest < CONTEST_COUNT ==> var s := SearchMem(old(table[..]), contest, out, exit, exit(0), 1, mem, 0);
        table[..] == s.next && Returns(s.answer, ret, data)
    {
      hide MemBuff.Contents, MemBuff.Ok, MemBuff.Takes, Top, AfterPop, AfterPush, HomeOf, Matches, Recognised;
      data := init;
      var pending, polls, k := exit(0), 1, 0;
      if !(contest < CONTEST_COUNT) {
        return -1, data;
      }
      IndexInRange(contest, out, contest, out);
      ghost var start := table[..];
      var src := Index(contest, out);
      while true
        invariant Valid() && src < table.Length
        invariant SameMemEnd(SearchMem(table[..], contest, out, exit, pending, polls, mem, k),
                             SearchMem(start, contest, out, exit, pending, 1, mem, 0))
        decreases table[src].count
      {
        ghost var t := table[..];
        var status, count;
        status, data, count := SortOne(contest, out, data, mem(k));
        if status == Found {
          return count, data;
        }
        if status == Stop {
          break;
        }
        PushElsewhere(t, contest, out, mem(k));
        PopCount(t, contest, out);
        k := k + 1;
        if !pending {
          if exit(polls) {
            break;
          }
          polls := polls + 1;
        }
        if count == 0 {
          break;
        }
      }
      return -1, data;
    }
  }

  lemma HomeIndex(d: WorkRecord)
    requires Recognised(d)
    ensures Index(d.contest, GoesOut(d)) < BUFFER_COUNT
  {
  }

  predicate SameMemEnd(s: MemSearch, t: MemSearch) {
    s.answer == t.answer && s.next == t.next
  }
}
