/** Which buffer a packet belongs in, and the bag of packets held by a set of files (buffbase.cpp). */
module Routing {
  import opened Records
  import opened SlotFile

  /** The packet is of a known contest and carries a known work state. */
  predicate Recognised(d: WorkRecord) {
    d.contest < CONTEST_COUNT
    && (d.resultcode == RESULT_WORKING || d.resultcode == RESULT_NOTHING || d.resultcode == RESULT_FOUND)
  }

  /** Finished work goes to an out-buffer, work still to do to an in-buffer. */
  predicate GoesOut(d: WorkRecord) {
    d.resultcode != RESULT_WORKING
  }

  predicate Matches(d: WorkRecord, contest: nat, out: bool) {
    Recognised(d) && d.contest == contest && GoesOut(d) == out
  }

  /** By the numbers: contests 0 to 6, a code of 0 in their in-buffers, 1 and 2 in their out-buffers. */
  lemma MatchesByCodes(d: WorkRecord, contest: nat, out: bool)
    ensures Recognised(d) <==> d.contest <= 6 && d.resultcode <= 2
    ensures Matches(d, contest, out) <==>
            && d.contest == contest && contest <= 6
            && (if out then d.resultcode == 1 || d.resultcode == 2 else d.resultcode == 0)
  {
  }

  /** A misfit that is recognised belongs in another buffer. */
  lemma Misfiled(d: WorkRecord, contest: nat, out: bool)
    requires Recognised(d) && !Matches(d, contest, out)
    ensures d.contest < CONTEST_COUNT && (d.contest, GoesOut(d)) != (contest, out)
  {
  }

  /** The recognised packets of a sequence that belong in one given buffer, in their order. */
  function Routed(packets: seq<WorkRecord>, contest: nat, out: bool): seq<WorkRecord> {
    if packets == [] then [] else
      var last := packets[|packets| - 1];
      Routed(packets[..|packets| - 1], contest, out) + (if Matches(last, contest, out) then [last] else [])
  }

  lemma RoutedNext(packets: seq<WorkRecord>, p: WorkRecord, contest: nat, out: bool)
    ensures Routed(packets + [p], contest, out)
         == Routed(packets, contest, out) + if Matches(p, contest, out) then [p] else []
  {
    assert (packets + [p])[..|packets|] == packets;
  }

  /** Two states of the files that differ at most in the files of `changed`. */
  ghost predicate SameExcept(a: seq<Slots>, b: seq<Slots>, changed: set<nat>) {
    |a| == |b| && forall i: nat | i < |a| && i !in changed :: a[i] == b[i]
  }

  /** Local file names: every contest has an in-buffer (false) and an out-buffer (true), all different files. */
  ghost predicate Names(local: (nat, bool) -> nat, count: nat) {
    && (forall c: nat, o | c < CONTEST_COUNT :: local(c, o) < count)
    && (forall c1: nat, o1, c2: nat, o2 | c1 < CONTEST_COUNT && c2 < CONTEST_COUNT ::
          local(c1, o1) == local(c2, o2) ==> c1 == c2 && o1 == o2)
  }

  lemma NamesAt(local: (nat, bool) -> nat, count: nat, c: nat, o: bool)
    requires Names(local, count) && c < CONTEST_COUNT
    ensures local(c, o) < count
  {
  }

  lemma NamesDiffer(local: (nat, bool) -> nat, count: nat, c1: nat, o1: bool, c2: nat, o2: bool)
    requires Names(local, count) && c1 < CONTEST_COUNT && c2 < CONTEST_COUNT && (c1, o1) != (c2, o2)
    ensures local(c1, o1) != local(c2, o2)
  {
  }

  lemma SameExceptThen(a: seq<Slots>, b: seq<Slots>, c: seq<Slots>, first: set<nat>, second: set<nat>, both: set<nat>)
    requires SameExcept(a, b, first) && SameExcept(b, c, second) && first <= both && second <= both
    ensures SameExcept(a, c, both)
  {
  }

  lemma {:induction false} RoutedAppend(a: seq<WorkRecord>, b: seq<WorkRecord>, contest: nat, out: bool)
    ensures Routed(a + b, contest, out) == Routed(a, contest, out) + Routed(b, contest, out)
  {
    hide Matches;
    if b == [] {
      assert a + b == a;
    } else {
      var k := |b| - 1;
      assert (a + b)[..|a + b| - 1] == a + b[..k];
      RoutedAppend(a, b[..k], contest, out);
    }
  }

  ghost predicate IsLocal(local: (nat, bool) -> nat, i: nat) {
    exists c: nat, o | c < CONTEST_COUNT :: local(c, o) == i
  }

  /** The files that are none of this client's own buffers are the same in both states. */
  ghost predicate SameNonLocal(local: (nat, bool) -> nat, a: seq<Slots>, b: seq<Slots>) {
    |a| == |b| && forall i: nat | i < |a| && !IsLocal(local, i) :: a[i] == b[i]
  }

  lemma OneLocalFile(local: (nat, bool) -> nat, a: seq<Slots>, b: seq<Slots>, c: nat, o: bool)
    requires c < CONTEST_COUNT && SameExcept(a, b, {local(c, o)})
    ensures SameNonLocal(local, a, b)
  {
    assert IsLocal(local, local(c, o));
  }

  lemma SameNonLocalThen(local: (nat, bool) -> nat, a: seq<Slots>, b: seq<Slots>, c: seq<Slots>)
    requires SameNonLocal(local, a, b) && SameNonLocal(local, b, c)
    ensures SameNonLocal(local, a, c)
  {
  }

  /** Every packet in every file. */
  function Held(h: Host, files: seq<Slots>): multiset<WorkRecord> {
    if files == [] then multiset{} else Bag(h, files[0]) + Held(h, files[1..])
  }

  lemma Cancel<T>(a: multiset<T>, b: multiset<T>, c: multiset<T>)
    requires a + b == c + b
    ensures a == c
  {
    forall x ensures a[x] == c[x] {
      assert (a + b)[x] == (c + b)[x];
    }
  }

  lemma {:induction false} HeldUpdate(h: Host, files: seq<Slots>, i: nat, s: Slots)
    requires i < |files|
    ensures Held(h, files[i := s]) + Bag(h, files[i]) == Held(h, files) + Bag(h, s)
  {
    hide Bag;
    var updated := files[i := s];
    if i == 0 {
      assert updated[1..] == files[1..];
    } else {
      var rest := files[1..];
      assert updated[1..] == rest[i - 1 := s] && updated[0] == files[0];
      HeldUpdate(h, rest, i - 1, s);
      var first, a, b := Bag(h, files[0]), Held(h, updated[1..]), Bag(h, files[i]);
      assert a + b == Held(h, rest) + Bag(h, s);
      assert (first + a) + b == first + (a + b);
    }
  }

  /** Storing a packet in file i. */
  lemma HeldPut(h: Host, files: seq<Slots>, i: nat, d: WorkRecord, counting: bool)
    requires i < |files|
    ensures Held(h, files[i := PutSlots(h, files[i], d, counting)]) == Held(h, files) + multiset{Stored(h, d)}
  {
    hide *;
    var s, one := PutSlots(h, files[i], d, counting), multiset{Stored(h, d)};
    HeldUpdate(h, files, i, s);
    PutAddsOne(h, files[i], d, counting);
    var a, b, c := Held(h, files[i := s]), Bag(h, files[i]), Held(h, files);
    assert a + b == c + (b + one);
    assert a + b == (c + one) + b;
    Cancel(a, b, c + one);
  }

  /** What a get takes out of a file. */
  function Taken(h: Host, s: Slots): multiset<WorkRecord> {
    if FirstLive(s) < |s| then multiset{Switched(h, s[FirstLive(s)])} else multiset{}
  }

  lemma TakenSplitsBag(h: Host, s: Slots)
    ensures Bag(h, s) == Bag(h, GetSlots(s)) + Taken(h, s)
  {
    GetTakesFirst(h, s);
  }

  /** Taking the first packet out of file i, or finding none there. */
  lemma HeldGet(h: Host, files: seq<Slots>, i: nat)
    requires i < |files|
    ensures Held(h, files) == Held(h, files[i := GetSlots(files[i])]) + Taken(h, files[i])
  {
    hide *;
    var s, taken := GetSlots(files[i]), Taken(h, files[i]);
    HeldUpdate(h, files, i, s);
    TakenSplitsBag(h, files[i]);
    var a, b, c := Held(h, files[i := s]), Bag(h, s), Held(h, files);
    assert a + (b + taken) == c + b;
    assert (a + taken) + b == c + b;
    Cancel(a + taken, b, c);
  }

  /** From `a` to `b` the packets `got` (none or one) were taken from the front of file id. */
  ghost predicate TakeEffect(h: Host, a: seq<Slots>, b: seq<Slots>, id: nat, got: seq<WorkRecord>) {
    && id < |a| && SameExcept(a, b, {id})
    && Held(h, a) == Held(h, b) + multiset(got)
    && Packets(h, a[id]) == got + Packets(h, b[id])
  }

  /** From `a` to `b` the packets `put` (none or one) were added to file id. */
  ghost predicate StoreEffect(h: Host, a: seq<Slots>, b: seq<Slots>, id: nat, put: seq<WorkRecord>) {
    && id < |a| && SameExcept(a, b, {id})
    && Held(h, b) == Held(h, a) + multiset(put)
    && multiset(Packets(h, b[id])) == multiset(Packets(h, a[id])) + multiset(put)
    && |Packets(h, b[id])| == |Packets(h, a[id])| + |put|
  }

  lemma GetIsTake(h: Host, files: seq<Slots>, id: nat)
    requires id < |files|
    ensures FirstLive(files[id]) < |files[id]| ==>
      && TakeEffect(h, files, files[id := GetSlots(files[id])], id, [Switched(h, files[id][FirstLive(files[id])])])
      && Stored(h, Switched(h, files[id][FirstLive(files[id])])) == Switched(h, files[id][FirstLive(files[id])])
    ensures FirstLive(files[id]) == |files[id]| ==>
      TakeEffect(h, files, files[id := GetSlots(files[id])], id, []) && GetSlots(files[id]) == []
  {
    hide Held, Packets;
    HeldGet(h, files, id);
    GetTakesFirst(h, files[id]);
    if FirstLive(files[id]) < |files[id]| {
      SwitchThrice(h, files[id][FirstLive(files[id])]);
    } else {
      NoPackets(h);
    }
  }

  lemma NoPackets(h: Host)
    ensures Packets(h, []) == []
  {
  }

  lemma PutIsStore(h: Host, files: seq<Slots>, id: nat, d: WorkRecord, counting: bool)
    requires id < |files|
    ensures StoreEffect(h, files, files[id := PutSlots(h, files[id], d, counting)], id, [Stored(h, d)])
  {
    hide Held, Packets, PutSlots, Stored;
    HeldPut(h, files, id, d, counting);
    PutAddsOne(h, files[id], d, counting);
  }

  lemma NothingTaken(h: Host, files: seq<Slots>, id: nat)
    requires id < |files|
    ensures TakeEffect(h, files, files, id, []) && StoreEffect(h, files, files, id, [])
  {
  }

  ghost predicate Delivered(h: Host, a: seq<Slots>, b: seq<Slots>, id: nat, moved: seq<WorkRecord>, c: nat, o: bool) {
    id < |a| && id < |b| && Bag(h, b[id]) == Bag(h, a[id]) + multiset(Routed(moved, c, o))
  }

  lemma DeliveredStill(h: Host, a: seq<Slots>, b: seq<Slots>, e: seq<Slots>, id: nat, moved: seq<WorkRecord>, c: nat,
                       o: bool)
    requires Delivered(h, a, b, id, moved, c, o) && |e| == |b| && e[id] == b[id]
    ensures Delivered(h, a, e, id, moved, c, o)
  {
  }

  lemma DeliveredIn(h: Host, a: seq<Slots>, b: seq<Slots>, id: nat, moved: seq<WorkRecord>, c: nat, o: bool)
    requires Delivered(h, a, b, id, moved, c, o)
    ensures id < |a| && id < |b|
  {
  }

  lemma DeliveredNext(h: Host, a: seq<Slots>, b: seq<Slots>, d: seq<Slots>, e: seq<Slots>, source: nat, target: nat,
                      id: nat, moved: seq<WorkRecord>, data: WorkRecord, c: nat, o: bool)
    requires Delivered(h, a, b, id, moved, c, o) && id != source
    requires TakeEffect(h, b, d, source, [data]) && StoreEffect(h, d, e, target, [data])
    requires id == target <==> Matches(data, c, o)
    ensures Delivered(h, a, e, id, moved + [data], c, o)
  {
    hide Held, Packets, Routed, Matches;
    RoutedNext(moved, data, c, o);
    assert d[id] == b[id];
    if id != target {
      assert e[id] == d[id];
    }
  }
}
