/** Importing the packets of a file into this client's buffers (BufferImportFileRecords in buffbase.cpp). */
module Import {
  import opened Records
  import opened SlotFile
  import opened Disk
  import opened Routing
  import opened Buffers

  /** How many packets behind the one at i are of its contest: the count a get of it reports. */
  function Later(p: seq<WorkRecord>, i: nat): nat
    requires i < |p|
  {
    CountContest(p[i + 1..], p[i].contest)
  }

  /** The "source file isn't getting smaller" test fires on the packet after the one at i. */
  predicate TripsAfter(p: seq<WorkRecord>, i: nat)
    requires i + 1 < |p|
  {
    Later(p, i) != 0 && Later(p, i) <= Later(p, i + 1)
  }

  predicate Trips(p: seq<WorkRecord>) {
    exists i: nat | i + 1 < |p| :: TripsAfter(p, i)
  }

  predicate OneContest(p: seq<WorkRecord>) {
    forall i | 0 <= i < |p| :: p[i].contest == p[0].contest
  }

  lemma LaterOfOneContest(p: seq<WorkRecord>, i: nat)
    requires OneContest(p) && i < |p|
    ensures Later(p, i) == |p| - i - 1
  {
    CountContestBound(p[i + 1..], p[i].contest);
  }

  lemma OneContestNeverTrips(p: seq<WorkRecord>)
    requires OneContest(p)
    ensures !Trips(p)
  {
    hide Later, OneContest;
    forall i: nat | i + 1 < |p| ensures !TripsAfter(p, i) {
      LaterOfOneContest(p, i);
      LaterOfOneContest(p, i + 1);
    }
  }

  /** Two contests interleaved trip the test although every get shrinks the file. */
  lemma InterleavedContestsTrip(a: WorkRecord, b: WorkRecord)
    requires a.contest != b.contest
    ensures Trips([a, b, a, b, b])
  {
    var p := [a, b, a, b, b];
    assert p[1..] == [b, a, b, b] && p[2..] == [a, b, b];
    hide CountContest;
    CountCons(b, [], a.contest);
    CountCons(b, [], b.contest);
    CountCons(b, [b], a.contest);
    CountCons(b, [b], b.contest);
    CountCons(a, [b, b], a.contest);
    CountCons(a, [b, b], b.contest);
    CountCons(b, [a, b, b], b.contest);
    assert [b] + [] == [b] && [b] + [b] == [b, b] && [a] + [b, b] == [a, b, b] && [b] + [a, b, b] == [b, a, b, b];
    assert Later(p, 0) == 1 && Later(p, 1) == 2;
    assert TripsAfter(p, 0);
  }

  lemma {:induction false} CountCons(a: WorkRecord, rest: seq<WorkRecord>, contest: int)
    ensures CountContest([a] + rest, contest) == (if a.contest == contest then 1 else 0) + CountContest(rest, contest)
    ensures CountContest([], contest) == 0
  {
    assert ([a] + rest)[1..] == rest;
  }

  // ---- The loop, as a state machine ----

  datatype ImportEnd = SourceMissing | Exhausted | ReadError | NotShrinking | PutFailed

  /** Where an import is: still running, with the last count of packets remaining, or done, with what the exit lost. */
  datatype Importing =
    | Running(last: nat, m: Moment, moved: seq<WorkRecord>)
    | Done(end: ImportEnd, m: Moment, moved: seq<WorkRecord>, lost: seq<WorkRecord>)

  ghost predicate ImportReady(e: Setup, source: nat, m: Moment) {
    Named(e, m) && source < |m.files|
  }

  /** One pass of the loop. */
  function ImportStep(e: Setup, source: nat, s: Importing): (r: Importing)
    requires ImportReady(e, source, s.m)
    ensures |r.m.files| == |s.m.files| && r.m.ops >= s.m.ops
  {
    match s
    case Done(_, _, _, _) => s
    case Running(last, m, moved) =>
      var m1 := AfterGet(e, m, source);
      if !Gets(e, m, source) then
        Done(if GetResult(m.files[source], e.faults(m.ops)) == IoError then ReadError else Exhausted, m1, moved, [])
      else
        var data, remaining := Front(e, m, source), Counted(e, m, source);
        if last != 0 && last <= remaining then Done(NotShrinking, m1, moved, [data])
        else
          var m2 := AfterSave(e, m1, data);
          if Saves(e, m1, data) then Running(remaining, m2, moved + [data])
          else
            var lost := if Puts(e, m2, source, false) then [] else [data];
            Done(PutFailed, AfterPut(e, m2, source, data, false), moved, lost)
  }

  function ImportStart(m: Moment): Importing {
    Running(0, m, [])
  }

  /** The import after n passes. */
  function ImportAfter(e: Setup, source: nat, m: Moment, n: nat): (r: Importing)
    requires ImportReady(e, source, m)
    ensures |r.m.files| == |m.files| && r.m.ops >= m.ops
  {
    if n == 0 then ImportStart(m) else ImportStep(e, source, ImportAfter(e, source, m, n - 1))
  }

  lemma ImportUnrolled(e: Setup, source: nat, m: Moment, n: nat)
    requires ImportReady(e, source, m)
    ensures ImportAfter(e, source, m, 0) == ImportStart(m)
    ensures ImportAfter(e, source, m, n + 1) == ImportStep(e, source, ImportAfter(e, source, m, n))
  {
  }

  lemma {:induction false} DoneStaysDone(e: Setup, source: nat, m: Moment, n: nat, k: nat)
    requires ImportReady(e, source, m) && n <= k && ImportAfter(e, source, m, n).Done?
    ensures ImportAfter(e, source, m, k) == ImportAfter(e, source, m, n)
    decreases k
  {
    if n < k {
      DoneStaysDone(e, source, m, n, k - 1);
    }
  }

  /**
   * A finished import: what it recovered, the state it left, the packets moved, in order, and those in no file any
   * more.
   */
  datatype Imports = Imports(end: ImportEnd, recovered: int, next: Moment, moved: seq<WorkRecord>,
                             lost: multiset<WorkRecord>)

  function Emptied(m: Moment, id: nat): (r: Moment)
    requires id < |m.files|
    ensures |r.files| == |m.files|
  {
    m.(files := m.files[id := []])
  }

  /** The source file is emptied if something was recovered from it and it was read to an end, be it an error. */
  function ImportResult(e: Setup, source: nat, m: Moment, n: nat): (r: Imports)
    requires ImportReady(e, source, m) && ImportAfter(e, source, m, n).Done?
    ensures |r.next.files| == |m.files| && r.next.ops >= m.ops
  {
    var s := ImportAfter(e, source, m, n);
    if s.moved != [] && (s.end == Exhausted || s.end == ReadError) then
      Imports(s.end, |s.moved|, Emptied(s.m, source), s.moved, multiset(s.lost) + Bag(e.host, s.m.files[source]))
    else Imports(s.end, |s.moved|, s.m, s.moved, multiset(s.lost))
  }

  /** BufferImportFileRecords on any source file on which its loop ends; n is any number of passes by which it does. */
  method ImportFileRecords(c: Client, source: nat, present: bool, init: WorkRecord, ghost n: nat)
    returns (end: ImportEnd, recovered: int)
    requires ImportReady(c.Env(), source, c.Now())
    requires present ==> ImportAfter(c.Env(), source, c.Now(), n).Done?
    modifies c.disk`files, c.disk`ops
    ensures !present ==> end == SourceMissing && recovered == -1 && c.Now() == old(c.Now())
    ensures present ==> var r := ImportResult(c.Env(), source, old(c.Now()), n);
      end == r.end && recovered == r.recovered && c.Now() == r.next
  {
    hide Gets, Front, Counted, AfterGet, AfterSave, Saves, AfterPut, Puts, GetResult, Names, Bag, ImportStep;
    hide ImportAfter, HomeCount;
    if !present {
      return SourceMissing, -1;
    }
    recovered, end := 0, Exhausted;
    var last, data, failed := 0, init, false;
    ghost var e, start, k, s := c.Env(), c.Now(), 0, ImportStart(c.Now());
    ImportUnrolled(e, source, start, 0);
    while true
      invariant |c.disk.files| == |start.files| && k <= n && recovered == |s.moved|
      invariant s == Running(last, c.Now(), s.moved) == ImportAfter(e, source, start, k)
      decreases n - k
    {
      if k == n {
        assert false;
      }
      var rc, remaining;
      ImportUnrolled(e, source, start, k);
      StepCases(e, source, s);
      k, s := k + 1, ImportStep(e, source, s);
      rc, data, remaining := c.Take(source, data);
      if rc != Got {
        end := if rc == IoError then ReadError else Exhausted;
        break;
      }
      if last != 0 && last <= remaining {
        end, failed := NotShrinking, true;
        break;
      }
      last := remaining;
      var ret := c.PutBufferRecord(data);
      if ret > 0 {
        recovered := recovered + 1;
      } else {
        var _, _ := c.Store(source, data, false);
        end, failed := PutFailed, true;
        break;
      }
    }
    assert s == ImportAfter(e, source, start, k) && s.Done? && s.end == end && s.m == c.Now() && recovered == |s.moved|;
    DoneAtAnyCount(e, source, start, n, k);
    if recovered > 0 && !failed {
      c.disk.ZapFileRecords(source);
    }
  }

  lemma DoneAtAnyCount(e: Setup, source: nat, m: Moment, n: nat, k: nat)
    requires ImportReady(e, source, m) && ImportAfter(e, source, m, n).Done? && ImportAfter(e, source, m, k).Done?
    ensures ImportAfter(e, source, m, n) == ImportAfter(e, source, m, k)
  {
    hide ImportAfter;
    if n <= k {
      DoneStaysDone(e, source, m, n, k);
    } else {
      DoneStaysDone(e, source, m, k, n);
    }
  }

  // ---- From a file that is none of the client's own buffers ----

  ghost predicate SameOutside(local: (nat, bool) -> nat, source: nat, a: seq<Slots>, b: seq<Slots>) {
    |a| == |b| && forall i: nat | i < |a| && i != source && !IsLocal(local, i) :: a[i] == b[i]
  }

  /** `moved` went from the source file to the buffers it belongs in, `lost` is gone, all else is where it was. */
  ghost predicate Imported(h: Host, local: (nat, bool) -> nat, source: nat, a: seq<Slots>, b: seq<Slots>,
                           moved: seq<WorkRecord>, lost: multiset<WorkRecord>) {
    && source < |a| && SameOutside(local, source, a, b)
    && Held(h, a) == Held(h, b) + lost
    && Bag(h, a[source]) == multiset(moved) + Bag(h, b[source]) + lost
    && forall c: nat, o | c < CONTEST_COUNT :: Delivered(h, a, b, local(c, o), moved, c, o)
  }

  lemma ImportedNothing(h: Host, local: (nat, bool) -> nat, source: nat, a: seq<Slots>)
    requires Names(local, |a|) && source < |a|
    ensures Imported(h, local, source, a, a, [], multiset{})
  {
    hide Held, Bag;
    forall c: nat, o | c < CONTEST_COUNT ensures Delivered(h, a, a, local(c, o), [], c, o) {
      NamesAt(local, |a|, c, o);
    }
  }

  /** Only the source file differs between b and e. */
  lemma ImportedThenSource(h: Host, local: (nat, bool) -> nat, source: nat, a: seq<Slots>, b: seq<Slots>, e: seq<Slots>,
                           moved: seq<WorkRecord>, before: multiset<WorkRecord>, lost: multiset<WorkRecord>)
    requires Imported(h, local, source, a, b, moved, before) && !IsLocal(local, source) && SameExcept(b, e, {source})
    requires Held(h, b) == Held(h, e) + lost && Bag(h, b[source]) == Bag(h, e[source]) + lost
    ensures Imported(h, local, source, a, e, moved, before + lost)
  {
    hide Held, Bag, Delivered;
    forall c: nat, o | c < CONTEST_COUNT ensures Delivered(h, a, e, local(c, o), moved, c, o) {
      assert IsLocal(local, local(c, o)) && Delivered(h, a, b, local(c, o), moved, c, o);
      DeliveredIn(h, a, b, local(c, o), moved, c, o);
      DeliveredStill(h, a, b, e, local(c, o), moved, c, o);
    }
  }

  lemma ImportedThenTake(h: Host, local: (nat, bool) -> nat, source: nat, a: seq<Slots>, b: seq<Slots>, e: seq<Slots>,
                         moved: seq<WorkRecord>, got: seq<WorkRecord>)
    requires Imported(h, local, source, a, b, moved, multiset{}) && !IsLocal(local, source)
    requires TakeEffect(h, b, e, source, got)
    ensures Imported(h, local, source, a, e, moved, multiset(got))
  {
    hide Held, Packets, Imported;
    assert multiset(got + Packets(h, e[source])) == multiset(got) + multiset(Packets(h, e[source]));
    ImportedThenSource(h, local, source, a, b, e, moved, multiset{}, multiset(got));
    assert multiset{} + multiset(got) == multiset(got);
  }

  lemma ImportedThenPutBack(h: Host, local: (nat, bool) -> nat, source: nat, a: seq<Slots>, b: seq<Slots>,
                            d: seq<Slots>, e: seq<Slots>, moved: seq<WorkRecord>, data: WorkRecord)
    requires Imported(h, local, source, a, b, moved, multiset{}) && !IsLocal(local, source)
    requires TakeEffect(h, b, d, source, [data]) && StoreEffect(h, d, e, source, [data])
    ensures Imported(h, local, source, a, e, moved, multiset{})
  {
    hide Held, Packets, Imported, SameExcept;
    assert multiset([data] + Packets(h, d[source])) == multiset{data} + multiset(Packets(h, d[source]));
    SameExceptThen(b, d, e, {source}, {source}, {source});
    ImportedThenSource(h, local, source, a, b, e, moved, multiset{}, multiset{});
    var none: multiset<WorkRecord> := multiset{};
    assert none + none == none;
  }

  lemma ImportedThenZap(h: Host, local: (nat, bool) -> nat, source: nat, a: seq<Slots>, b: seq<Slots>,
                        moved: seq<WorkRecord>, before: multiset<WorkRecord>)
    requires Imported(h, local, source, a, b, moved, before) && !IsLocal(local, source)
    ensures Imported(h, local, source, a, b[source := []], moved, before + Bag(h, b[source]))
  {
    hide Held, Packets;
    var e := b[source := []];
    HeldUpdate(h, b, source, []);
    NoPackets(h);
    assert Bag(h, []) == multiset{};
    ImportedThenSource(h, local, source, a, b, e, moved, before, Bag(h, b[source]));
  }

  lemma ImportedNext(h: Host, local: (nat, bool) -> nat, source: nat, a: seq<Slots>, b: seq<Slots>, d: seq<Slots>,
                     e: seq<Slots>, moved: seq<WorkRecord>, data: WorkRecord)
    requires Imported(h, local, source, a, b, moved, multiset{}) && !IsLocal(local, source) && Names(local, |a|)
    requires Recognised(data) && TakeEffect(h, b, d, source, [data])
    requires StoreEffect(h, d, e, local(data.contest, GoesOut(data)), [data])
    ensures Imported(h, local, source, a, e, moved + [data], multiset{})
  {
    hide Held, Packets, Routed, Delivered, GoesOut, Names;
    var target := local(data.contest, GoesOut(data));
    assert IsLocal(local, target);
    assert multiset([data] + Packets(h, d[source])) == multiset{data} + multiset(Packets(h, d[source]));
    assert e[source] == d[source];
    forall c: nat, o | c < CONTEST_COUNT ensures Delivered(h, a, e, local(c, o), moved + [data], c, o) {
      assert IsLocal(local, local(c, o)) && Delivered(h, a, b, local(c, o), moved, c, o);
      if (c, o) != (data.contest, GoesOut(data)) {
        NamesDiffer(local, |a|, c, o, data.contest, GoesOut(data));
      }
      DeliveredNext(h, a, b, d, e, source, target, local(c, o), moved, data, c, o);
    }
  }

  /** Where the loop is in the source's packets p: the first k are delivered, `last` is what the last get reported. */
  ghost predicate Shrinking(p: seq<WorkRecord>, k: nat, last: nat, exact: bool) {
    && k <= |p|
    && (k == 0 ==> last == 0)
    && (k > 0 ==> last == 0 || last == Later(p, k - 1))
    && (exact && k > 0 ==> last == Later(p, k - 1))
    && (exact ==> forall i: nat | i + 1 < k :: !TripsAfter(p, i))
  }

  /** The shrink test on packet k, and what follows from its outcome. */
  lemma ShrinkTest(p: seq<WorkRecord>, k: nat, last: nat, exact: bool, remaining: nat)
    requires Shrinking(p, k, last, exact) && k < |p|
    requires remaining == 0 || remaining == Later(p, k)
    requires exact ==> remaining == Later(p, k)
    ensures last != 0 && last <= remaining ==> (exact ==> Trips(p)) && !OneContest(p)
    ensures !(last != 0 && last <= remaining) ==> Shrinking(p, k + 1, remaining, exact)
  {
    hide Later;
    if last != 0 && last <= remaining {
      assert TripsAfter(p, k - 1);
      if OneContest(p) {
        OneContestNeverTrips(p);
      }
    }
  }

  lemma ShrunkToEnd(p: seq<WorkRecord>, last: nat)
    requires Shrinking(p, |p|, last, true)
    ensures !Trips(p)
  {
  }

  lemma SuffixLater(p: seq<WorkRecord>, rest: seq<WorkRecord>, data: WorkRecord, after: seq<WorkRecord>, k: nat)
    requires k <= |p| && rest == p[k..] && rest == [data] + after
    ensures k < |p| && data == p[k] && after == p[k + 1..] && p[..k] + [data] == p[..k + 1]
    ensures Later(p, k) == CountContest(after, data.contest)
  {
    assert after == rest[1..];
  }

  lemma StoredOutside(h: Host, local: (nat, bool) -> nat, a: seq<Slots>, b: seq<Slots>, data: WorkRecord, source: nat)
    requires Recognised(data) && StoreEffect(h, a, b, local(data.contest, GoesOut(data)), [data])
    requires source < |a| && !IsLocal(local, source)
    ensures |b| == |a| && b[source] == a[source]
  {
    hide Held, Packets;
    assert IsLocal(local, local(data.contest, GoesOut(data)));
  }

  lemma ShrinkStart(p: seq<WorkRecord>, exact: bool)
    ensures Shrinking(p, 0, 0, exact)
  {
  }

  /**
   * What an import has done so far to the packets p of the source: a front part of them is in the buffers they belong
   * in, all else is where it was, and each way to end says why and what is lost.
   */
  ghost predicate ImportKept(e: Setup, source: nat, a: Moment, s: Importing)
    requires source < |a.files|
  {
    var p, k, exact := Packets(e.host, a.files[source]), |s.moved|, Clean(e, a.ops, s.m.ops);
    && source < |s.m.files| && k <= |p| && s.moved == p[..k] && a.ops <= s.m.ops
    && (forall i | 0 <= i < k :: Recognised(p[i]))
    && Imported(e.host, e.local, source, a.files, s.m.files, s.moved, if s.Done? then multiset(s.lost) else multiset{})
    && match s
       case Running(last, m, _) => Packets(e.host, m.files[source]) == p[k..] && Shrinking(p, k, last, exact)
       case Done(end, m, _, lost) =>
         && (end == Exhausted ==> lost == [] && k == |p| && m.files[source] == [] && (exact ==> !Trips(p)))
         && (end == ReadError ==> lost == [] && !exact)
         && (end == NotShrinking ==> k < |p| && lost == [p[k]] && !OneContest(p) && (exact ==> Trips(p)))
         && (end == PutFailed ==> k < |p| && (!Recognised(p[k]) || !exact))
         && (end == PutFailed && lost != [] ==> lost == [p[k]] && m.ops > a.ops && PutFault(e.faults(m.ops - 1)))
         && end != SourceMissing
  }

  lemma ShrinkWeaker(p: seq<WorkRecord>, k: nat, last: nat, exact: bool, less: bool)
    requires Shrinking(p, k, last, exact) && (less ==> exact)
    ensures Shrinking(p, k, last, less)
  {
  }

  lemma CleanPart(e: Setup, a: nat, b: nat, c: nat)
    requires b <= c && Clean(e, a, c)
    ensures Clean(e, a, b)
  {
  }

  lemma CountedLater(e: Setup, m: Moment, source: nat, p: seq<WorkRecord>, k: nat, a: nat, to: nat)
    requires source < |m.files| && k <= |p| && Packets(e.host, m.files[source]) == p[k..] && Gets(e, m, source)
    requires a <= m.ops && m.ops + 2 <= to
    ensures k < |p| && Front(e, m, source) == p[k]
    ensures Packets(e.host, AfterGet(e, m, source).files[source]) == p[k + 1..]
    ensures Counted(e, m, source) == 0 || Counted(e, m, source) == Later(p, k)
    ensures Clean(e, a, to) ==> Counted(e, m, source) == Later(p, k)
  {
    TakenFront(e, m, source);
    var data, after := Front(e, m, source), Packets(e.host, AfterGet(e, m, source).files[source]);
    SuffixLater(p, p[k..], data, after, k);
    hide Packets, Front, CountContest;
    if Clean(e, a, to) {
      assert e.faults(m.ops + 1) == NO_FAULT;
    }
  }

  lemma GotOps(e: Setup, m: Moment, id: nat)
    requires id < |m.files| && Gets(e, m, id)
    ensures AfterGet(e, m, id).ops == m.ops + 2
  {
  }

  /** What the passes have in common: the import before the pass, and what a get would yield. */
  ghost predicate AtPass(e: Setup, source: nat, a: Moment, s: Importing) {
    && Names(e.local, |a.files|) && e.limitsOk && source < |a.files| == |s.m.files| && !IsLocal(e.local, source)
    && s.Running? && ImportKept(e, source, a, s)
  }

  lemma AtPassIs(e: Setup, source: nat, a: Moment, s: Importing)
    requires AtPass(e, source, a, s)
    ensures source < |a.files| == |s.m.files| && Named(e, s.m) && s.Running?
    ensures var m, k, p := s.m, |s.moved|, Packets(e.host, a.files[source]);
      && k <= |p| && s.moved == p[..k] && a.ops <= m.ops && (forall i | 0 <= i < k :: Recognised(p[i]))
      && Imported(e.host, e.local, source, a.files, m.files, s.moved, multiset{})
      && Packets(e.host, m.files[source]) == p[k..] && Shrinking(p, k, s.last, Clean(e, a.ops, m.ops))
  {
    hide Packets, Names, Recognised, Imported, Shrinking, Clean;
  }

  /** What a pass that takes a packet knows about the packets p of the source at the start. */
  lemma PassFacts(e: Setup, source: nat, a: Moment, s: Importing)
    requires AtPass(e, source, a, s) && Gets(e, s.m, source)
    ensures var m, m1, k, p := s.m, AfterGet(e, s.m, source), |s.moved|, Packets(e.host, a.files[source]);
      var t, data, remaining := ImportStep(e, source, s), Front(e, m, source), Counted(e, m, source);
      var less := Clean(e, a.ops, t.m.ops);
      && k < |p| && data == p[k] && s.moved == p[..k] && Packets(e.host, m1.files[source]) == p[k + 1..]
      && TakeEffect(e.host, m.files, m1.files, source, [data]) && Stored(e.host, data) == data
      && Imported(e.host, e.local, source, a.files, m.files, s.moved, multiset{})
      && (forall i | 0 <= i < k :: Recognised(p[i])) && a.ops <= m.ops < t.m.ops
      && (s.last != 0 && s.last <= remaining ==> (less ==> Trips(p)) && !OneContest(p))
      && (!(s.last != 0 && s.last <= remaining) ==> Shrinking(p, k + 1, remaining, less))
  {
    AtPassIs(e, source, a, s);
    PassTakes(e, source, a, s);
    PassTests(e, source, a, s);
    hide *;
  }

  lemma PassTakes(e: Setup, source: nat, a: Moment, s: Importing)
    requires AtPass(e, source, a, s) && Gets(e, s.m, source)
    ensures var m, m1, k, p := s.m, AfterGet(e, s.m, source), |s.moved|, Packets(e.host, a.files[source]);
      var data := Front(e, m, source);
      && k < |p| && data == p[k] && Packets(e.host, m1.files[source]) == p[k + 1..]
      && TakeEffect(e.host, m.files, m1.files, source, [data]) && Stored(e.host, data) == data
      && (Counted(e, m, source) == 0 || Counted(e, m, source) == Later(p, k))
      && (Clean(e, a.ops, m1.ops) ==> Counted(e, m, source) == Later(p, k))
  {
    AtPassIs(e, source, a, s);
    GotOps(e, s.m, source);
    hide *;
    GetTakes(e, s.m, source);
    CountedLater(e, s.m, source, Packets(e.host, a.files[source]), |s.moved|, a.ops, AfterGet(e, s.m, source).ops);
  }

  lemma PassTests(e: Setup, source: nat, a: Moment, s: Importing)
    requires AtPass(e, source, a, s) && Gets(e, s.m, source)
    ensures var k, p, remaining := |s.moved|, Packets(e.host, a.files[source]), Counted(e, s.m, source);
      var t := ImportStep(e, source, s);
      var less := Clean(e, a.ops, t.m.ops);
      && s.m.ops < t.m.ops && k < |p|
      && (s.last != 0 && s.last <= remaining ==> (less ==> Trips(p)) && !OneContest(p))
      && (!(s.last != 0 && s.last <= remaining) ==> Shrinking(p, k + 1, remaining, less))
  {
    AtPassIs(e, source, a, s);
    PassTakes(e, source, a, s);
    StepOps(e, source, s);
    hide *;
    var m1, k, p, t := AfterGet(e, s.m, source), |s.moved|, Packets(e.host, a.files[source]), ImportStep(e, source, s);
    var exact, less := Clean(e, a.ops, s.m.ops), Clean(e, a.ops, t.m.ops);
    if less {
      CleanPart(e, a.ops, s.m.ops, t.m.ops);
      CleanPart(e, a.ops, m1.ops, t.m.ops);
    }
    ShrinkWeaker(p, k, s.last, exact, less);
    ShrinkTest(p, k, s.last, less, Counted(e, s.m, source));
  }

  /** A pass, with its parts named. */
  lemma StepCases(e: Setup, source: nat, s: Importing)
    requires ImportReady(e, source, s.m) && s.Running?
    ensures var m, m1 := s.m, AfterGet(e, s.m, source);
      ImportStep(e, source, s) ==
        if !Gets(e, m, source) then
          Done(if GetResult(m.files[source], e.faults(m.ops)) == IoError then ReadError else Exhausted, m1, s.moved, [])
        else
          var data, remaining := Front(e, m, source), Counted(e, m, source);
          var m2 := AfterSave(e, m1, data);
          if s.last != 0 && s.last <= remaining then Done(NotShrinking, m1, s.moved, [data])
          else if Saves(e, m1, data) then Running(remaining, m2, s.moved + [data])
          else
            var lost := if Puts(e, m2, source, false) then [] else [data];
            Done(PutFailed, AfterPut(e, m2, source, data, false), s.moved, lost)
  {
  }

  lemma NothingGot(e: Setup, m: Moment, id: nat)
    requires id < |m.files| && !Gets(e, m, id) && GetResult(m.files[id], e.faults(m.ops)) != IoError
    ensures AfterGet(e, m, id).files[id] == [] && Packets(e.host, AfterGet(e, m, id).files[id]) == []
  {
  }

  lemma StepOps(e: Setup, source: nat, s: Importing)
    requires ImportReady(e, source, s.m) && s.Running?
    ensures ImportStep(e, source, s).m.ops >= AfterGet(e, s.m, source).ops > s.m.ops
  {
    hide Gets, Front, Counted, Names, Saves, AfterSave, AfterPut, Puts, AfterGet, GetResult;
  }

  lemma ImportSaved(e: Setup, source: nat, a: Moment, s: Importing)
    requires AtPass(e, source, a, s) && Gets(e, s.m, source)
    requires !(s.last != 0 && s.last <= Counted(e, s.m, source))
    requires Saves(e, AfterGet(e, s.m, source), Front(e, s.m, source))
    ensures ImportKept(e, source, a, ImportStep(e, source, s))
  {
    hide Packets, Front, Counted, Names, Gets, Saves, AfterSave, Imported, Stored, Recognised, Held, TakeEffect;
    hide PutFault;
    hide StoreEffect, IsLocal, Later, ImportStep, AfterGet, AfterPut, Puts, Shrinking, GoesOut, GetResult, Trips;
    hide OneContest;
    hide Clean;
    StepCases(e, source, s);
    PassFacts(e, source, a, s);
    var h, k, p := e.host, |s.moved|, Packets(e.host, a.files[source]);
    var m1, t := AfterGet(e, s.m, source), ImportStep(e, source, s);
    var data := Front(e, s.m, source);
    SavedHome(e, m1, data);
    PutStores(e, m1, Home(e, data), data, true);
    ImportedNext(h, e.local, source, a.files, s.m.files, m1.files, t.m.files, s.moved, data);
    StoredOutside(h, e.local, m1.files, t.m.files, data, source);
    assert p[..k] + [data] == p[..k + 1];
  }

  lemma ImportShrunk(e: Setup, source: nat, a: Moment, s: Importing)
    requires AtPass(e, source, a, s) && Gets(e, s.m, source) && s.last != 0 && s.last <= Counted(e, s.m, source)
    ensures ImportKept(e, source, a, ImportStep(e, source, s))
  {
    hide Packets, Front, Counted, Names, Gets, Saves, AfterSave, Imported, Stored, Recognised, Held, TakeEffect;
    hide PutFault;
    hide StoreEffect, IsLocal, Later, ImportStep, AfterGet, AfterPut, Puts, Shrinking, GoesOut, GetResult, Trips;
    hide OneContest;
    hide Clean;
    StepCases(e, source, s);
    PassFacts(e, source, a, s);
    var m1, data := AfterGet(e, s.m, source), Front(e, s.m, source);
    ImportedThenTake(e.host, e.local, source, a.files, s.m.files, m1.files, s.moved, [data]);
  }

  lemma ImportNothing(e: Setup, source: nat, a: Moment, s: Importing)
    requires AtPass(e, source, a, s) && !Gets(e, s.m, source)
    ensures ImportKept(e, source, a, ImportStep(e, source, s))
  {
    hide Packets, Front, Counted, Names, Gets, Saves, AfterSave, Imported, Stored, Recognised, Held, TakeEffect;
    hide PutFault;
    hide StoreEffect, IsLocal, Later, ImportStep, AfterGet, AfterPut, Puts, Shrinking, GoesOut, GetResult, Trips;
    hide OneContest;
    StepCases(e, source, s);
    GetTakes(e, s.m, source);
    TakenFront(e, s.m, source);
    StepOps(e, source, s);
    var p, k, t := Packets(e.host, a.files[source]), |s.moved|, ImportStep(e, source, s);
    ImportedThenTake(e.host, e.local, source, a.files, s.m.files, t.m.files, s.moved, []);
    NoPackets(e.host);
    if Clean(e, a.ops, t.m.ops) {
      assert e.faults(s.m.ops) == NO_FAULT;
      CleanPart(e, a.ops, s.m.ops, t.m.ops);
      NothingGot(e, s.m, source);
      assert p[k..] == [] && k == |p|;
      ShrunkToEnd(p, s.last);
    } else if t.end == Exhausted {
      NothingGot(e, s.m, source);
      assert p[k..] == [] && k == |p|;
    }
  }

  lemma SavedHome(e: Setup, m: Moment, data: WorkRecord)
    requires Names(e.local, |m.files|) && Saves(e, m, data)
    ensures Recognised(data) && Home(e, data) == e.local(data.contest, GoesOut(data)) < |m.files|
    ensures AfterSave(e, m, data) == AfterPut(e, m, Home(e, data), data, true) && Puts(e, m, Home(e, data), true)
  {
    HomeInRange(e, m, data);
  }

  lemma ImportPutFailed(e: Setup, source: nat, a: Moment, s: Importing)
    requires AtPass(e, source, a, s) && Gets(e, s.m, source)
    requires !(s.last != 0 && s.last <= Counted(e, s.m, source))
    requires !Saves(e, AfterGet(e, s.m, source), Front(e, s.m, source))
    ensures ImportKept(e, source, a, ImportStep(e, source, s))
  {
    hide Packets, Front, Counted, Names, Gets, Saves, AfterSave, Imported, Stored, Recognised, Held, TakeEffect;
    hide PutFault;
    hide StoreEffect, IsLocal, Later, ImportStep, AfterGet, AfterPut, Puts, Shrinking, GoesOut, GetResult, Trips;
    hide OneContest;
    StepCases(e, source, s);
    PassFacts(e, source, a, s);
    var h, m1, data := e.host, AfterGet(e, s.m, source), Front(e, s.m, source);
    var m2, t := AfterSave(e, m1, data), ImportStep(e, source, s);
    NotSaved(e, m1, data);
    PutStores(e, m2, source, data, false);
    PutFaultOf(e, m2, source, data);
    GotOps(e, s.m, source);
    if Recognised(data) {
      assert a.ops <= m1.ops < t.m.ops;
    }
    hide Clean;
    if Puts(e, m2, source, false) {
      ImportedThenPutBack(h, e.local, source, a.files, s.m.files, m1.files, t.m.files, s.moved, data);
    } else {
      ImportedThenTake(h, e.local, source, a.files, s.m.files, m1.files, s.moved, [data]);
    }
  }

  lemma NotSaved(e: Setup, m: Moment, data: WorkRecord)
    requires Names(e.local, |m.files|) && e.limitsOk && !Saves(e, m, data)
    ensures AfterSave(e, m, data).files == m.files
    ensures Recognised(data) ==> e.faults(m.ops) != NO_FAULT && AfterSave(e, m, data).ops == m.ops + 1
  {
    hide Recognised;
    if Recognised(data) {
      HomeInRange(e, m, data);
    }
  }

  lemma PutFaultOf(e: Setup, m: Moment, id: nat, data: WorkRecord)
    requires id < |m.files|
    ensures !Puts(e, m, id, false) ==> PutFault(e.faults(m.ops)) && AfterPut(e, m, id, data, false).files == m.files
    ensures AfterPut(e, m, id, data, false).ops == m.ops + 1
  {
  }

  lemma ImportStepKeeps(e: Setup, source: nat, a: Moment, s: Importing)
    requires Names(e.local, |a.files|) && e.limitsOk && source < |a.files| == |s.m.files| && !IsLocal(e.local, source)
    requires ImportKept(e, source, a, s)
    ensures ImportKept(e, source, a, ImportStep(e, source, s))
  {
    if s.Running? {
      assert AtPass(e, source, a, s);
      hide ImportKept, Gets, Saves, Front, Counted, AfterGet, AtPass, IsLocal, Names;
      if !Gets(e, s.m, source) {
        ImportNothing(e, source, a, s);
      } else if s.last != 0 && s.last <= Counted(e, s.m, source) {
        ImportShrunk(e, source, a, s);
      } else if Saves(e, AfterGet(e, s.m, source), Front(e, s.m, source)) {
        ImportSaved(e, source, a, s);
      } else {
        ImportPutFailed(e, source, a, s);
      }
    }
  }

  /** After every number of passes. */
  lemma {:induction false} ImportKeeps(e: Setup, source: nat, m: Moment, n: nat)
    requires Names(e.local, |m.files|) && e.limitsOk && source < |m.files| && !IsLocal(e.local, source)
    ensures ImportKept(e, source, m, ImportAfter(e, source, m, n))
  {
    hide ImportKept, ImportStep, IsLocal, Names;
    if n == 0 {
      ImportKeptStart(e, source, m);
    } else {
      ImportKeeps(e, source, m, n - 1);
      ImportStepKeeps(e, source, m, ImportAfter(e, source, m, n - 1));
    }
  }

  lemma ImportKeptStart(e: Setup, source: nat, m: Moment)
    requires Names(e.local, |m.files|) && source < |m.files|
    ensures ImportKept(e, source, m, ImportStart(m))
  {
    hide Packets, Imported, Names, Trips;
    ImportedNothing(e.host, e.local, source, m.files);
    ShrinkStart(Packets(e.host, m.files[source]), Clean(e, m.ops, m.ops));
  }

  /**
   * The loop ends on every file that is none of the client's own buffers, after at most one pass more than it has
   * packets.
   */
  lemma {:induction false} ImportEnds(e: Setup, source: nat, m: Moment, n: nat)
    requires ImportReady(e, source, m) && (e.limitsOk ==> !IsLocal(e.local, source))
    ensures var s := ImportAfter(e, source, m, n);
      s.Done? || |s.moved| == n <= |Packets(e.host, m.files[source])|
  {
    hide ImportStep, ImportKept, Packets, IsLocal, Names;
    if n == 0 {
      return;
    }
    ImportEnds(e, source, m, n - 1);
    var s := ImportAfter(e, source, m, n - 1);
    if e.limitsOk {
      hide ImportAfter;
      ImportUnrolled(e, source, m, n - 1);
      ImportKeeps(e, source, m, n);
      StepMovesOne(e, source, s);
      KeptWithin(e, source, m, ImportStep(e, source, s));
    } else {
      NothingSaved(e, source, m, n);
    }
  }

  lemma StepMovesOne(e: Setup, source: nat, s: Importing)
    requires ImportReady(e, source, s.m)
    ensures ImportStep(e, source, s).Running? ==> |ImportStep(e, source, s).moved| == |s.moved| + 1
    ensures s.Done? ==> ImportStep(e, source, s) == s
  {
    hide Gets, Saves, AfterSave, AfterGet, AfterPut, Puts, Front, Counted, GetResult, Names;
  }

  lemma KeptWithin(e: Setup, source: nat, a: Moment, s: Importing)
    requires source < |a.files| && ImportKept(e, source, a, s)
    ensures |s.moved| <= |Packets(e.host, a.files[source])|
  {
    hide Packets, Imported, Trips, OneContest, Shrinking, Clean, Recognised;
  }

  lemma NothingSaved(e: Setup, source: nat, m: Moment, n: nat)
    requires ImportReady(e, source, m) && !e.limitsOk
    ensures n > 0 ==> ImportAfter(e, source, m, n).Done?
    ensures n > 0 ==> ImportAfter(e, source, m, n).moved == []
  {
    hide Gets, AfterGet, AfterPut, Puts, Front, Counted;
    if n > 1 {
      NothingSaved(e, source, m, n - 1);
    }
  }

  /**
   * A finished import: a front part of the source's packets is in the buffers they belong in, the rest still there or
   * named as lost, all else as it was. A read error after a packet was moved loses all the others, since the source is
   * emptied; a put that failed loses its packet only if putting it back, the last operation, failed too. Without errors
   * everything is moved exactly when every packet is recognised and the file does not trip the shrink test; if it does,
   * or a packet is refused, the end says so.
   */
  lemma ImportLaw(e: Setup, source: nat, m: Moment, n: nat)
    requires Names(e.local, |m.files|) && e.limitsOk && source < |m.files| && !IsLocal(e.local, source)
    requires ImportAfter(e, source, m, n).Done?
    ensures var r, p := ImportResult(e, source, m, n), Packets(e.host, m.files[source]);
      && Imported(e.host, e.local, source, m.files, r.next.files, r.moved, r.lost) && r.recovered == |r.moved|
      && r.moved <= p && (forall d | d in r.moved :: Recognised(d))
      && (r.end == Exhausted ==> r.moved == p && r.lost == multiset{} && r.next.files[source] == [])
      && (r.end == NotShrinking ==> |r.moved| < |p| && r.lost == multiset{p[|r.moved|]} && !OneContest(p))
      && (r.end == ReadError ==> r.lost == if r.moved == [] then multiset{} else multiset(p[|r.moved|..]))
      && (r.end == PutFailed ==> |r.lost| <= 1)
      && (r.end == PutFailed && r.lost != multiset{} ==>
            r.next.ops > 0 && PutFault(e.faults(r.next.ops - 1)) && r.lost == multiset{p[|r.moved|]})
      && (Clean(e, m.ops, r.next.ops) ==>
            && r.end in {Exhausted, NotShrinking, PutFailed}
            && (r.end == Exhausted ==> !Trips(p)) && (r.end == NotShrinking ==> Trips(p))
            && (r.end == PutFailed ==> r.lost == multiset{} && exists d | d in p :: !Recognised(d)))
  {
    hide Packets, Imported, Recognised, IsLocal, Names, Trips, OneContest, ImportAfter, Shrinking, Bag;
    ImportKeeps(e, source, m, n);
    var s, p := ImportAfter(e, source, m, n), Packets(e.host, m.files[source]);
    if s.end == Exhausted || s.end == ReadError {
      ImportedThenZap(e.host, e.local, source, m.files, s.m.files, s.moved, multiset(s.lost));
      NoBag(e.host);
      ImportedRest(e.host, e.local, source, m.files, s.m.files, s.moved);
    }
  }

  /** What has not been moved is still in the source, as long as nothing is lost. */
  lemma ImportedRest(h: Host, local: (nat, bool) -> nat, source: nat, a: seq<Slots>, b: seq<Slots>,
                     moved: seq<WorkRecord>)
    requires Imported(h, local, source, a, b, moved, multiset{}) && source < |a| && moved <= Packets(h, a[source])
    ensures source < |b| && Bag(h, b[source]) == multiset(Packets(h, a[source])[|moved|..])
  {
    hide Packets, Held, Delivered;
    var p := Packets(h, a[source]);
    var rest := p[|moved|..];
    assert p == moved + rest;
    assert multiset(p) == multiset(moved) + multiset(rest);
    assert Bag(h, b[source]) == multiset(p) - multiset(moved) == multiset(rest);
  }

  lemma NoBag(h: Host)
    ensures Bag(h, []) == multiset{}
  {
  }

  /** Without errors an import is whole exactly when every packet is recognised and none trips the shrink test. */
  lemma ImportIsWholeIff(e: Setup, source: nat, m: Moment, n: nat)
    requires Names(e.local, |m.files|) && e.limitsOk && source < |m.files| && !IsLocal(e.local, source)
    requires ImportAfter(e, source, m, n).Done? && Clean(e, m.ops, ImportResult(e, source, m, n).next.ops)
    ensures var r, p := ImportResult(e, source, m, n), Packets(e.host, m.files[source]);
      r.moved == p && r.lost == multiset{} <==> (forall d | d in p :: Recognised(d)) && !Trips(p)
  {
    hide Packets, Imported, Recognised, IsLocal, Names, Trips, OneContest, ImportAfter, ImportResult, Clean;
    ImportLaw(e, source, m, n);
    var r, p := ImportResult(e, source, m, n), Packets(e.host, m.files[source]);
    WholeByKeeping(e, source, m, n);
  }

  /** Nothing is left to lose or refuse once all packets of the source have been moved. */
  lemma WholeByKeeping(e: Setup, source: nat, m: Moment, n: nat)
    requires Names(e.local, |m.files|) && e.limitsOk && source < |m.files| && !IsLocal(e.local, source)
    requires ImportAfter(e, source, m, n).Done?
    ensures var r, p := ImportResult(e, source, m, n), Packets(e.host, m.files[source]);
      r.moved == p && Clean(e, m.ops, r.next.ops) ==> r.end == Exhausted
  {
    hide Packets, Imported, Recognised, IsLocal, Names, Trips, OneContest, ImportAfter, Shrinking;
    ImportKeeps(e, source, m, n);
  }

  // ---- From any file, the client's own buffers included ----

  /** Free slots only in front. */
  predicate Packed(s: Slots) {
    forall i | FirstLive(s) <= i < |s| :: s[i] != BLANK
  }

  /** The source file after a pass that saved its front packet, in another buffer or in the source itself. */
  function Passed(e: Setup, source: nat, s: Slots): Slots
    requires FirstLive(s) < |s|
  {
    var d := Switched(e.host, s[FirstLive(s)]);
    if Home(e, d) == source then PutSlots(e.host, GetSlots(s), d, true) else GetSlots(s)
  }

  /** Putting the packet just taken back into a packed file, with counting, gives the same packets in the same order. */
  lemma PutBackRestores(h: Host, s: Slots)
    requires Packed(s) && FirstLive(s) < |s|
    ensures var t := PutSlots(h, GetSlots(s), Switched(h, s[FirstLive(s)]), true);
      Packets(h, t) == Packets(h, s) && Packed(t)
  {
    hide Switched;
    var k := FirstLive(s);
    SwitchThrice(h, s[k]);
    PacketsAt(h, s, k);
    SwitchedIsNotBlank(h, Switched(h, s[k]));
    if k == |s| - 1 {
      PacketsOfBlanks(h, s[..k]);
      OnePacket(h, Switched(h, Switched(h, s[k])));
      assert s[k + 1..] == [];
    } else {
      BackIntoSlot(h, s);
      PacketsUpdate(h, s, k, Switched(h, Switched(h, s[k])));
      FirstLiveIs(s[k := Switched(h, Switched(h, s[k]))], k);
      hide PutSlots, GetSlots, Packets;
    }
  }

  lemma {:induction false} OnePacket(h: Host, r: WorkRecord)
    requires r != BLANK
    ensures Packets(h, [r]) == [Switched(h, r)] && Packed([r])
  {
    hide Switched;
  }

  lemma {:induction false} BackIntoSlot(h: Host, s: Slots)
    requires Packed(s) && FirstLive(s) < |s| - 1
    ensures var k := FirstLive(s);
      PutSlots(h, GetSlots(s), Switched(h, s[k]), true) == s[k := Switched(h, Switched(h, s[k]))]
  {
    hide Switched;
    var k := FirstLive(s);
    var g := s[k := BLANK];
    assert g == GetSlots(s);
    LastBlankIs(g, k);
  }

  lemma {:induction false} LastBlankIs(s: Slots, k: nat)
    requires k < |s| && s[k] == BLANK && forall i | k < i < |s| :: s[i] != BLANK
    ensures LastBlank(s) == k
  {
    assert LastBlank(s) < |s|;
  }

  lemma {:induction false} FirstLiveIs(s: Slots, k: nat)
    requires k < |s| && s[k] != BLANK && forall i | 0 <= i < k :: s[i] == BLANK
    ensures FirstLive(s) == k
  {
  }

  lemma GetKeepsPacked(s: Slots)
    requires Packed(s) && FirstLive(s) < |s|
    ensures Packed(GetSlots(s))
  {
    var k := FirstLive(s);
    if k < |s| - 1 {
      FirstLiveIs(s[k := BLANK], k + 1);
    }
  }

  /** With a free slot behind its packets the last of these is taken, and the front moves on. */
  lemma {:induction false} PutBackBehind(h: Host, s: Slots)
    requires !Packed(s) && FirstLive(s) < |s|
    ensures var k, r := FirstLive(s), Switched(h, Switched(h, s[FirstLive(s)])); var b := LastBlank(s);
      && k < b < |s| && r != BLANK && k < |s| - 1 && GetSlots(s) == s[k := BLANK]
      && PutSlots(h, GetSlots(s), Switched(h, s[k]), true) == s[k := BLANK][b := r]
      && FirstLive(s[k := BLANK][b := r]) > k
  {
    hide Switched;
    var k, b := FirstLive(s), LastBlank(s);
    SwitchedIsNotBlank(h, Switched(h, s[k]));
    var i :| k <= i < |s| && s[i] == BLANK;
    LastBlankIs(s[k := BLANK], b);
    var t := s[k := BLANK][b := Switched(h, Switched(h, s[k]))];
    assert t[b] != BLANK && forall j | 0 <= j <= k :: t[j] == BLANK;
    assert FirstLive(t) < |t|;
  }

  /** A pass takes a packet away, or moves the front on, or leaves a packed file as it is. */
  lemma PassedShrinks(e: Setup, source: nat, s: Slots)
    requires FirstLive(s) < |s|
    ensures var t, d := Passed(e, source, s), Switched(e.host, s[FirstLive(s)]); var q := Packets(e.host, s);
      && q != [] && q[0] == d
      && (Home(e, d) != source ==> Packets(e.host, t) == q[1..])
      && (Home(e, d) == source ==> multiset(Packets(e.host, t)) == multiset(q) && |Packets(e.host, t)| == |q|)
      && (Home(e, d) == source && !Packed(s) ==> |t| == |s| && FirstLive(s) < FirstLive(t) <= |t|)
      && (Home(e, d) == source && Packed(s) ==> Packets(e.host, t) == q && Packed(t))
      && (Packed(s) ==> Packed(t))
  {
    hide Switched, PutSlots, GetSlots, Packets, Home, Packed;
    var h := e.host;
    var d := Switched(h, s[FirstLive(s)]);
    GetTakesFirst(h, s);
    PutAddsOne(h, GetSlots(s), d, true);
    SwitchThrice(h, s[FirstLive(s)]);
    TakenFirst(d, Packets(h, s), Packets(h, GetSlots(s)));
    if Packed(s) {
      PutBackRestores(h, s);
      GetKeepsPacked(s);
    } else {
      PutBackBehind(h, s);
    }
  }

  lemma TakenFirst(d: WorkRecord, q: seq<WorkRecord>, rest: seq<WorkRecord>)
    requires q == [d] + rest
    ensures q != [] && q[0] == d && rest == q[1..] && |q| == |rest| + 1 && multiset(q) == multiset(rest) + multiset{d}
  {
  }

  /** No operation from now on meets an error. */
  ghost predicate Smooth(e: Setup, source: nat, m: Moment) {
    && Names(e.local, |m.files|) && e.limitsOk && source < |m.files|
    && (forall n :: n >= m.ops ==> e.faults(n) == NO_FAULT)
  }

  /** One pass without errors, by the source file and the packets q in it. */
  lemma SmoothStep(e: Setup, source: nat, last: nat, m: Moment, moved: seq<WorkRecord>)
    requires Smooth(e, source, m)
    ensures var s := m.files[source]; var q := Packets(e.host, s);
      var t := ImportStep(e, source, Running(last, m, moved));
      && (q == [] <==> FirstLive(s) == |s|)
      && (t.Running? <==> q != [] && !(last != 0 && last <= Later(q, 0)) && Recognised(q[0]))
      && (t.Running? ==> Smooth(e, source, t.m) && t.last == Later(q, 0) && t.m.files[source] == Passed(e, source, s))
      && (q != [] && last != 0 && last <= Later(q, 0) ==>
            t.Done? && t.end == NotShrinking && t.lost == [q[0]] && Packets(e.host, t.m.files[source]) == q[1..])
  {
    hide Packets, Front, Names, Recognised, Home, GetResult, GetSlots, FirstLive, PutSlots, CountContest, Stored;
    hide TakeEffect, Switched, Passed;
    hide StoreEffect, Packed, Gets, Counted, AfterGet, AfterPut, AfterSave, Saves, Puts;
    StepCases(e, source, Running(last, m, moved));
    SmoothGet(e, source, m);
    if Gets(e, m, source) {
      SmoothCount(e, source, m);
      SmoothSave(e, source, m);
    }
  }

  lemma SmoothGet(e: Setup, source: nat, m: Moment)
    requires Smooth(e, source, m)
    ensures Gets(e, m, source) <==> Packets(e.host, m.files[source]) != []
    ensures Packets(e.host, m.files[source]) == [] <==> FirstLive(m.files[source]) == |m.files[source]|
  {
    hide Packets, Names, TakeEffect, Stored;
    assert e.faults(m.ops) == NO_FAULT;
    GetTakes(e, m, source);
    GetTakesFirst(e.host, m.files[source]);
  }

  lemma SmoothCount(e: Setup, source: nat, m: Moment)
    requires Smooth(e, source, m) && Gets(e, m, source)
    ensures var q := Packets(e.host, m.files[source]);
      && q != [] && Front(e, m, source) == q[0] && Counted(e, m, source) == Later(q, 0)
      && Packets(e.host, AfterGet(e, m, source).files[source]) == q[1..]
  {
    hide Packets, Front, Names, CountContest;
    TakenFront(e, m, source);
    assert e.faults(m.ops + 1) == NO_FAULT;
  }

  /** The save of the packet just taken, into another buffer or back into the source itself. */
  lemma SmoothSave(e: Setup, source: nat, m: Moment)
    requires Smooth(e, source, m) && Gets(e, m, source)
    ensures var data, m1 := Front(e, m, source), AfterGet(e, m, source); var m2 := AfterSave(e, m1, data);
      && FirstLive(m.files[source]) < |m.files[source]|
      && (Saves(e, m1, data) <==> Recognised(data))
      && (Saves(e, m1, data) ==> Smooth(e, source, m2) && m2.files[source] == Passed(e, source, m.files[source]))
  {
    hide Packets, Recognised, GoesOut, PutSlots, GetSlots, FirstLive, Switched, Names;
    var data, m1 := Front(e, m, source), AfterGet(e, m, source);
    GotIsLive(e, m, source);
    GotOps(e, m, source);
    assert e.faults(m1.ops) == NO_FAULT;
    if Recognised(data) {
      HomeInRange(e, m1, data);
    }
  }

  /**
   * From a source file in this state the loop goes on for ever: packets that belong elsewhere go there, those that
   * belong in the source itself go to its last free slot, until the file is packed in front of one of them that has no
   * other of its contest behind it: that one is taken and put back over and over.
   */
  predicate Circles(e: Setup, source: nat, last: nat, s: Slots)
    decreases |Packets(e.host, s)|, |s| - FirstLive(s)
  {
    GetTakesFirst(e.host, s);
    var q := Packets(e.host, s);
    && q != [] && !(last != 0 && last <= Later(q, 0)) && Recognised(q[0])
    && if Home(e, q[0]) == source && Packed(s) then Later(q, 0) == 0
       else (PassedShrinks(e, source, s); Circles(e, source, Later(q, 0), Passed(e, source, s)))
  }

  lemma CirclesUnfolds(e: Setup, source: nat, last: nat, s: Slots)
    ensures var q := Packets(e.host, s);
      && (q == [] <==> FirstLive(s) == |s|)
      && (Circles(e, source, last, s) <==>
            && q != [] && !(last != 0 && last <= Later(q, 0)) && Recognised(q[0])
            && if Home(e, q[0]) == source && Packed(s) then Later(q, 0) == 0
               else Circles(e, source, Later(q, 0), Passed(e, source, s)))
  {
    hide Recognised, Home, CountContest, Packets, Passed, Packed, GetSlots, Switched;
    GetTakesFirst(e.host, s);
  }

  lemma CirclesOn(e: Setup, source: nat, last: nat, s: Slots)
    requires Circles(e, source, last, s)
    ensures var q := Packets(e.host, s);
      && FirstLive(s) < |s| && q != [] && !(last != 0 && last <= Later(q, 0)) && Recognised(q[0])
      && Circles(e, source, Later(q, 0), Passed(e, source, s))
  {
    hide Recognised, Home, CountContest, Packets, Passed, Packed, Circles, Switched;
    CirclesUnfolds(e, source, last, s);
    PassedShrinks(e, source, s);
    CirclesUnfolds(e, source, Later(Packets(e.host, s), 0), Passed(e, source, s));
  }

  ghost predicate Circling(e: Setup, source: nat, s: Importing) {
    s.Running? && Smooth(e, source, s.m) && Circles(e, source, s.last, s.m.files[source])
  }

  lemma CirclingStep(e: Setup, source: nat, s: Importing)
    requires Circling(e, source, s)
    ensures ImportReady(e, source, s.m) && Circling(e, source, ImportStep(e, source, s))
  {
    CirclesOn(e, source, s.last, s.m.files[source]);
    SmoothStarts(e, source, s.m);
    hide Circles, Packets, Recognised, CountContest, ImportStep, Passed, Names;
    SmoothStep(e, source, s.last, s.m, s.moved);
    assert s == Running(s.last, s.m, s.moved);
  }

  lemma {:induction false} CirclesForEver(e: Setup, source: nat, m: Moment, n: nat)
    requires ImportReady(e, source, m) && Circling(e, source, ImportStart(m))
    ensures Circling(e, source, ImportAfter(e, source, m, n))
  {
    hide ImportStep, Circling, ImportReady, ImportStart;
    if n > 0 {
      CirclesForEver(e, source, m, n - 1);
      CirclingStep(e, source, ImportAfter(e, source, m, n - 1));
    }
  }

  /**
   * Otherwise it ends: after the pass whose packet stops it, or the second pass over a packet of a packed file with
   * others of its contest behind.
   */
  lemma {:induction false} OtherwiseEnds(e: Setup, source: nat, m: Moment, k: nat) returns (n: nat)
    requires ImportReady(e, source, m) && ImportAfter(e, source, m, k).Running?
    requires var s := ImportAfter(e, source, m, k);
      Smooth(e, source, s.m) && !Circles(e, source, s.last, s.m.files[source])
    ensures ImportAfter(e, source, m, n).Done?
    decreases var f := ImportAfter(e, source, m, k).m.files[source]; |Packets(e.host, f)|,
              var f := ImportAfter(e, source, m, k).m.files[source]; |f| - FirstLive(f)
  {
    hide ImportStep, Smooth, Packets, Recognised, Home, Later, Circles, Passed, Packed, Switched, CountContest;
    var s := ImportAfter(e, source, m, k);
    var f := s.m.files[source];
    var q := Packets(e.host, f);
    SmoothStep(e, source, s.last, s.m, s.moved);
    CirclesUnfolds(e, source, s.last, f);
    var t := ImportAfter(e, source, m, k + 1);
    if t.Done? {
      return k + 1;
    }
    PassedShrinks(e, source, f);
    if Home(e, q[0]) == source && Packed(f) {
      SmoothStep(e, source, t.last, t.m, t.moved);
      assert ImportAfter(e, source, m, k + 2).Done?;
      n := k + 2;
    } else {
      n := OtherwiseEnds(e, source, m, k + 1);
    }
  }

  lemma NeverEnds(e: Setup, source: nat, m: Moment)
    requires Smooth(e, source, m) && Circles(e, source, 0, m.files[source])
    ensures ImportReady(e, source, m) && forall n :: ImportAfter(e, source, m, n).Running?
  {
    SmoothStarts(e, source, m);
    hide Circles, Smooth, ImportAfter;
    forall n ensures ImportAfter(e, source, m, n).Running? {
      CirclesForEver(e, source, m, n);
    }
  }

  /** Without errors the loop never ends if and only if the source file, as it is at the start, makes it circle. */
  lemma ImportNeverEndsIff(e: Setup, source: nat, m: Moment)
    requires Smooth(e, source, m)
    ensures (forall n :: ImportAfter(e, source, m, n).Running?) <==> Circles(e, source, 0, m.files[source])
  {
    SmoothStarts(e, source, m);
    hide ImportAfter, Smooth, Circles;
    if Circles(e, source, 0, m.files[source]) {
      NeverEnds(e, source, m);
    } else {
      var n := OtherwiseEnds(e, source, m, 0);
      assert !ImportAfter(e, source, m, n).Running?;
    }
  }

  lemma SmoothStarts(e: Setup, source: nat, m: Moment)
    requires Smooth(e, source, m)
    ensures ImportReady(e, source, m) && ImportAfter(e, source, m, 0) == ImportStart(m)
  {
  }

  // ---- Which files make it circle ----

  /** Packet k belongs in the source, is the last of its contest, and nothing ahead of it stops the loop. */
  predicate CirclesAt(e: Setup, source: nat, q: seq<WorkRecord>, k: int)
    requires 0 <= k < |q|
  {
    && Home(e, q[k]) == source && Later(q, k) == 0 && Recognised(q[k])
    && forall i: nat | i < k :: Recognised(q[i]) && Home(e, q[i]) != source && !TripsAfter(q, i)
  }

  /**
   * A file without free slots behind its packets: some packet that belongs in the source itself is the last of its
   * contest, and nothing ahead of it ends the loop before.
   */
  lemma {:induction false} CirclesClosed(e: Setup, source: nat, last: nat, s: Slots)
    requires Packed(s)
    ensures var q := Packets(e.host, s);
      Circles(e, source, last, s) <==>
      q != [] && !(last != 0 && last <= Later(q, 0)) && exists k | 0 <= k < |q| :: CirclesAt(e, source, q, k)
    decreases |Packets(e.host, s)|
  {
    hide Recognised, Home, CountContest, Packets, Passed, Packed, Circles, Switched;
    var q := Packets(e.host, s);
    CirclesUnfolds(e, source, last, s);
    if q != [] {
      PassedShrinks(e, source, s);
      if Home(e, q[0]) == source {
        CirclesAtFront(e, source, q);
      } else {
        CirclesClosed(e, source, Later(q, 0), Passed(e, source, s));
        CirclesBehind(e, source, q);
      }
    }
  }

  lemma CirclesAtFront(e: Setup, source: nat, q: seq<WorkRecord>)
    requires q != [] && Home(e, q[0]) == source
    ensures (exists k | 0 <= k < |q| :: CirclesAt(e, source, q, k)) <==> Later(q, 0) == 0 && Recognised(q[0])
  {
    hide Recognised, Home, CountContest;
    if Later(q, 0) == 0 && Recognised(q[0]) {
      assert CirclesAt(e, source, q, 0);
    }
  }

  lemma CirclesBehind(e: Setup, source: nat, q: seq<WorkRecord>)
    requires q != [] && Home(e, q[0]) != source
    ensures (exists k | 0 <= k < |q| :: CirclesAt(e, source, q, k)) <==>
            && q[1..] != [] && Recognised(q[0]) && !(Later(q, 0) != 0 && Later(q, 0) <= Later(q[1..], 0))
            && exists k | 0 <= k < |q[1..]| :: CirclesAt(e, source, q[1..], k)
  {
    hide Recognised, Home, CountContest;
    var rest := q[1..];
    if |q| > 1 {
      assert TripsAfter(q, 0) <==> Later(q, 0) != 0 && Later(q, 0) <= Later(rest, 0) by {
        assert rest[1..] == q[2..];
      }
    }
    forall k | 0 <= k < |q| && CirclesAt(e, source, q, k)
      ensures k > 0 && CirclesAt(e, source, rest, k - 1) && Recognised(q[0]) && !TripsAfter(q, 0) {
      CirclesLater(e, source, q, k - 1);
    }
    forall k | 0 <= k < |rest| && CirclesAt(e, source, rest, k) && Recognised(q[0]) && !TripsAfter(q, 0)
      ensures CirclesAt(e, source, q, k + 1) {
      CirclesLater(e, source, q, k);
    }
  }

  lemma CirclesLater(e: Setup, source: nat, q: seq<WorkRecord>, k: int)
    requires 0 <= k && k + 1 < |q|
    ensures CirclesAt(e, source, q, k + 1) <==>
            CirclesAt(e, source, q[1..], k) && Recognised(q[0]) && Home(e, q[0]) != source && !TripsAfter(q, 0)
  {
    hide Recognised, Home, CountContest;
    var rest := q[1..];
    assert forall i: nat | i < |rest| :: rest[i] == q[i + 1] && rest[i + 1..] == q[i + 2..];
    assert forall i: nat | i < |rest| :: Later(rest, i) == Later(q, i + 1);
    assert forall i: nat | i + 1 < |rest| :: TripsAfter(rest, i) == TripsAfter(q, i + 1);
    if CirclesAt(e, source, rest, k) && Recognised(q[0]) && Home(e, q[0]) != source && !TripsAfter(q, 0) {
      forall i: nat | i < k + 1 ensures Recognised(q[i]) && Home(e, q[i]) != source && !TripsAfter(q, i) {
        if i > 0 {
          assert Recognised(rest[i - 1]) && !TripsAfter(rest, i - 1);
        }
      }
    }
    if CirclesAt(e, source, q, k + 1) {
      forall i: nat | i < k ensures Recognised(rest[i]) && Home(e, rest[i]) != source && !TripsAfter(rest, i) {
        assert Recognised(q[i + 1]) && !TripsAfter(q, i + 1);
      }
    }
  }

  /** A buffer that holds only what belongs in it, wherever its free slots are: it circles with one packet only. */
  lemma {:induction false} OwnPacketsCircle(e: Setup, source: nat, contest: nat, out: bool, s: Slots)
    requires e.local(contest, out) == source && forall p | p in Packets(e.host, s) :: Matches(p, contest, out)
    ensures Circles(e, source, 0, s) <==> |Packets(e.host, s)| == 1
    decreases |s| - FirstLive(s)
  {
    hide CountContest, Packets, Passed, Packed, Circles, Switched, Matches;
    var q := Packets(e.host, s);
    CirclesUnfolds(e, source, 0, s);
    if q != [] {
      PassedShrinks(e, source, s);
      AllOfContest(q, contest, out);
      var t := Passed(e, source, s);
      var r := Packets(e.host, t);
      assert Home(e, q[0]) == source;
      if !Packed(s) {
        assert forall p | p in r :: p in multiset(q);
        AllOfContest(r, contest, out);
        if |q| == 1 {
          OwnPacketsCircle(e, source, contest, out, t);
        } else {
          CirclesUnfolds(e, source, |q| - 1, t);
        }
      }
    }
  }

  lemma {:induction false} AllOfContest(q: seq<WorkRecord>, contest: nat, out: bool)
    requires forall p | p in q :: Matches(p, contest, out)
    ensures CountContest(q, contest) == |q|
    ensures q != [] ==> Later(q, 0) == |q| - 1 && Recognised(q[0]) && q[0].contest == contest && GoesOut(q[0]) == out
  {
    hide Matches;
    if q != [] {
      MatchesContest(q[0], contest, out);
      AllOfContest(q[1..], contest, out);
    }
  }

  /**
   * In general the free slots matter: two files of three slots with the same two packets, one of them of a contest or
   * state this build does not know, of which one circles and the other does not.
   */
  lemma {:induction false} FreeSlotsDecide(e: Setup, source: nat, x: WorkRecord, y: WorkRecord)
    requires x != BLANK && y != BLANK
    requires var d, u := Switched(e.host, x), Switched(e.host, y);
      Recognised(d) && Home(e, d) == source && u.contest != d.contest && !Recognised(u)
    ensures Packets(e.host, [BLANK, x, y]) == Packets(e.host, [x, y, BLANK])
    ensures Circles(e, source, 0, [BLANK, x, y]) && !Circles(e, source, 0, [x, y, BLANK])
  {
    var h := e.host;
    var r := Switched(h, Switched(h, x));
    TwoPackets(h, x, y);
    SwitchThrice(h, x);
    SwitchedIsNotBlank(h, Switched(h, x));
    TwoPackets(h, y, r);
    hide Recognised, Home, Packets, Circles, Switched, Packed, Passed;
    ThreeSlots(e, source, x, y);
    AloneInFront(e, source, [BLANK, x, y]);
    UnknownInFront(e, source, [x, y, BLANK]);
  }

  lemma {:induction false} ThreeSlots(e: Setup, source: nat, x: WorkRecord, y: WorkRecord)
    requires x != BLANK && y != BLANK && Home(e, Switched(e.host, x)) == source
    ensures var r := Switched(e.host, Switched(e.host, x));
      && Packed([BLANK, x, y]) && !Packed([x, y, BLANK]) && FirstLive([x, y, BLANK]) == 0
      && Passed(e, source, [x, y, BLANK]) == [BLANK, y, r]
  {
    hide Switched, Home, Packets;
    var s := [x, y, BLANK];
    FirstLiveIs([BLANK, x, y], 1);
    FirstLiveIs(s, 0);
    assert s[2] == BLANK;
    PutBackBehind(e.host, s);
    LastBlankIs(s, 2);
  }

  lemma AloneInFront(e: Setup, source: nat, s: Slots)
    requires var q := Packets(e.host, s);
      |q| == 2 && Recognised(q[0]) && Home(e, q[0]) == source && q[1].contest != q[0].contest
    requires Packed(s)
    ensures Circles(e, source, 0, s)
  {
    hide Recognised, Home, Packets, Circles, Switched, Packed, CountContest;
    var q := Packets(e.host, s);
    assert q == [q[0], q[1]];
    NoneLater(q[0], q[1]);
    CirclesUnfolds(e, source, 0, s);
  }

  lemma UnknownInFront(e: Setup, source: nat, s: Slots)
    requires !Packed(s) && FirstLive(s) < |s|
    requires var r := Packets(e.host, Passed(e, source, s)); r != [] && !Recognised(r[0])
    ensures !Circles(e, source, 0, s)
  {
    hide Recognised, Home, Packets, Circles, Switched, Packed, CountContest, Passed;
    CirclesUnfolds(e, source, 0, s);
    CirclesUnfolds(e, source, Later(Packets(e.host, s), 0), Passed(e, source, s));
  }

  lemma NoneLater(d: WorkRecord, u: WorkRecord)
    requires u.contest != d.contest
    ensures Later([d, u], 0) == 0
  {
    assert [d, u][1..] == [u] && [u][1..] == [];
    assert CountContest([u], d.contest) == 0;
  }

  lemma {:induction false} TwoPackets(h: Host, x: WorkRecord, y: WorkRecord)
    requires x != BLANK && y != BLANK
    ensures Packets(h, [BLANK, x, y]) == [Switched(h, x), Switched(h, y)] == Packets(h, [x, y, BLANK])
  {
    hide Switched;
    OneSlot(h, BLANK);
    OneSlot(h, x);
    OneSlot(h, y);
    hide Packets;
    PacketsAppend(h, [BLANK], [x]);
    PacketsAppend(h, [BLANK] + [x], [y]);
    PacketsAppend(h, [x], [y]);
    PacketsAppend(h, [x] + [y], [BLANK]);
    assert [BLANK, x, y] == [BLANK] + [x] + [y] && [x, y, BLANK] == [x] + [y] + [BLANK];
  }

  lemma {:induction false} OneSlot(h: Host, x: WorkRecord)
    ensures Packets(h, [x]) == if x == BLANK then [] else [Switched(h, x)]
  {
    hide Switched;
    assert [x][1..] == [];
  }

  /** Put back behind, the packet just taken is in front again or the one behind it is. */
  lemma {:induction false} FrontAfterPutBack(e: Setup, source: nat, s: Slots)
    requires !Packed(s) && FirstLive(s) < |s| && Home(e, Switched(e.host, s[FirstLive(s)])) == source
    ensures var q, r := Packets(e.host, s), Packets(e.host, Passed(e, source, s));
      q != [] && r != [] && (r[0] == q[0] || (|q| > 1 && r[0] == q[1]))
  {
    hide Packets, Switched, PutSlots, GetSlots, Packed, Home;
    var h, k, b := e.host, FirstLive(s), LastBlank(s);
    PutBackBehind(h, s);
    SwitchThrice(h, s[k]);
    var g, t := s[k := BLANK], Passed(e, source, s);
    GetTakesFirst(h, s);
    GetTakesFirst(h, t);
    var j := FirstLive(t);
    assert t == g[b := Switched(h, Switched(h, s[k]))];
    assert t[b] != BLANK;
    if j != b {
      assert j < b && forall i | 0 <= i < j :: t[i] == g[i];
      FirstLiveIs(g, j);
      GetTakesFirst(h, g);
    }
  }

  /**
   * If the first packet belongs in the source itself and the next is of its contest too, or, in a file without free
   * slots behind its packets, any other behind it is, then it is put back, and at the second pass the shrink test fires
   * and loses one packet of that contest.
   */
  lemma ImportOfOwnBufferLoses(e: Setup, source: nat, m: Moment)
    requires Smooth(e, source, m) && ComesBack(e, source, m.files[source])
    ensures var q := Packets(e.host, m.files[source]);
      var s := ImportAfter(e, source, m, 2);
      && s.Done? && s.end == NotShrinking && |s.lost| == 1 && s.lost[0].contest == q[0].contest
      && multiset(q) == multiset(s.lost) + multiset(Packets(e.host, s.m.files[source]))
      && (Packed(m.files[source]) ==> s.lost == [q[0]])
  {
    SmoothStarts(e, source, m);
    var f, s := m.files[source], ImportStep(e, source, ImportStart(m));
    FirstComesBack(e, source, m);
    hide ImportStep, Smooth, Packets, Recognised, Home, Later, Passed, Switched, Packed, CountContest, ComesBack;
    assert ImportAfter(e, source, m, 1) == s;
    PassedShrinks(e, source, f);
    StillAhead(e, source, f);
    var r := Packets(e.host, Passed(e, source, f));
    SecondLoses(e, source, s.last, s.m, s.moved);
  }

  lemma FirstComesBack(e: Setup, source: nat, m: Moment)
    requires Smooth(e, source, m) && ComesBack(e, source, m.files[source])
    ensures var f, t := m.files[source], ImportStep(e, source, ImportStart(m)); var q := Packets(e.host, f);
      && FirstLive(f) < |f| && q != [] && Home(e, q[0]) == source
      && t.Running? && Smooth(e, source, t.m) && t.last == Later(q, 0) > 0
      && t.m.files[source] == Passed(e, source, f)
  {
    hide ImportStep, Packets, Recognised, Home, Passed, Switched, Packed, CountContest;
    SmoothStep(e, source, 0, m, []);
  }

  lemma SecondLoses(e: Setup, source: nat, last: nat, m: Moment, moved: seq<WorkRecord>)
    requires Smooth(e, source, m) && Packets(e.host, m.files[source]) != []
    requires last != 0 && last <= Later(Packets(e.host, m.files[source]), 0)
    ensures var r, t := Packets(e.host, m.files[source]), ImportStep(e, source, Running(last, m, moved));
      && t.Done? && t.end == NotShrinking && t.lost == [r[0]]
      && multiset(r) == multiset(t.lost) + multiset(Packets(e.host, t.m.files[source]))
  {
    hide ImportStep, Packets, CountContest, Recognised;
    SmoothStep(e, source, last, m, moved);
    var r := Packets(e.host, m.files[source]);
    TakenFirst(r[0], r, r[1..]);
  }

  /** The first packet belongs in the source itself, and after its return one of its contest is in front again. */
  predicate ComesBack(e: Setup, source: nat, s: Slots) {
    var q := Packets(e.host, s);
    && q != [] && Recognised(q[0]) && Home(e, q[0]) == source && Later(q, 0) > 0
    && (Packed(s) || q[1].contest == q[0].contest)
  }

  lemma StillAhead(e: Setup, source: nat, s: Slots)
    requires ComesBack(e, source, s) && FirstLive(s) < |s|
    ensures var q, r := Packets(e.host, s), Packets(e.host, Passed(e, source, s));
      r != [] && r[0].contest == q[0].contest && Later(r, 0) == Later(q, 0)
  {
    hide Packets, Recognised, Home, Passed, Switched, Packed, CountContest;
    var q, r := Packets(e.host, s), Packets(e.host, Passed(e, source, s));
    PassedShrinks(e, source, s);
    if !Packed(s) {
      FrontAfterPutBack(e, source, s);
    }
    CountByBag(q, r, q[0].contest);
    AheadOfRest(q);
    AheadOfRest(r);
  }

  lemma {:induction false} AheadOfRest(q: seq<WorkRecord>)
    requires q != []
    ensures CountContest(q, q[0].contest) == 1 + Later(q, 0)
  {
  }

  /**
   * Importing one of the client's own buffers while it holds what belongs in it, with free slots anywhere: with one
   * packet it never ends, with more it loses one of them at the second pass.
   */
  lemma ImportOfOwnPackets(e: Setup, source: nat, contest: nat, out: bool, m: Moment)
    requires Smooth(e, source, m) && e.local(contest, out) == source
    requires forall p | p in Packets(e.host, m.files[source]) :: Matches(p, contest, out)
    ensures ImportReady(e, source, m)
    ensures var q, s := Packets(e.host, m.files[source]), ImportAfter(e, source, m, 2);
      && ((forall n :: ImportAfter(e, source, m, n).Running?) <==> |q| == 1)
      && (|q| > 1 ==> s.Done? && s.end == NotShrinking && |s.lost| == 1)
      && (|q| > 1 ==> multiset(q) == multiset(s.lost) + multiset(Packets(e.host, s.m.files[source])))
  {
    SmoothStarts(e, source, m);
    var f := m.files[source];
    OwnPacketsCircle(e, source, contest, out, f);
    ImportNeverEndsIff(e, source, m);
    var q := Packets(e.host, f);
    hide ImportAfter, Smooth, Packets, Packed, CountContest, Matches, Circles, Recognised;
    AllOfContest(q, contest, out);
    if |q| > 1 {
      MatchesContest(q[1], contest, out);
      ImportOfOwnBufferLoses(e, source, m);
    }
  }
}
