/** Work records and their conversion between host and stored form (buffpub.cpp, problem.h). */
module Records {
  import opened Machine

  const CONTEST_COUNT: nat := 7
  const OGR_NG: u32 := 4
  const RC5_72: u32 := 5
  const OGR_P2: u32 := 6
  const UNHANDLED: u32 := 0xff

  const RESULT_WORKING: u32 := 0
  const RESULT_NOTHING: u32 := 1
  const RESULT_FOUND: u32 := 2

  const WORK_SIZE: nat := 80
  const ID_SIZE: nat := 64

  function Zeros(n: nat): (z: seq<u8>)
    ensures |z| == n
    ensures forall i | 0 <= i < n :: z[i] == 0
  {
    seq(n, _ => 0)
  }

  type Work = w: seq<u8> | |w| == WORK_SIZE witness seq(WORK_SIZE, _ => 0)
  type Id = s: seq<u8> | |s| == ID_SIZE witness seq(ID_SIZE, _ => 0)

  datatype WorkRecord = WorkRecord(
    work: Work, resultcode: u32, id: Id, contest: u32, cpu: u32, os: u32, build: u32, core: u32)

  /** The record whose every byte is zero: in a buffer file it marks a free slot. */
  const BLANK: WorkRecord := WorkRecord(Zeros(WORK_SIZE), 0, Zeros(ID_SIZE), 0, 0, 0, 0, 0)

  lemma BlankIsAllZero()
    ensures (forall i | 0 <= i < 80 :: BLANK.work[i] == 0) && (forall i | 0 <= i < 64 :: BLANK.id[i] == 0)
    ensures BLANK.resultcode == BLANK.contest == BLANK.cpu == BLANK.os == BLANK.build == BLANK.core == 0
  {
  }

  datatype Host = LittleEndian | BigEndian

  predicate Handled(contest: u32) {
    contest == RC5_72 || contest == OGR_NG || contest == OGR_P2
  }

  function Repeat(width: nat, count: nat): (fields: seq<nat>)
    ensures |fields| == count
    ensures forall i | 0 <= i < count :: fields[i] == width
    ensures Sum(fields) == count * width
  {
    if count == 0 then [] else
      assert ([width] + Repeat(width, count - 1))[1..] == Repeat(width, count - 1);
      [width] + Repeat(width, count - 1)
  }

  function Sum(fields: seq<nat>): nat {
    if fields == [] then 0 else fields[0] + Sum(fields[1..])
  }

  lemma {:induction false} SumAppend(a: seq<nat>, b: seq<nat>)
    ensures Sum(a + b) == Sum(a) + Sum(b)
  {
    if a == [] {
      assert a + b == b;
    } else {
      assert (a + b)[1..] == a[1..] + b;
      SumAppend(a[1..], b);
    }
  }

  /** The widths of the work area's fields, in storage order; opaque ticket and padding bytes have width one. */
  function FieldWidths(contest: u32): seq<nat>
    requires Handled(contest)
  {
    if contest == RC5_72 then Repeat(4, 20)
    else if contest == OGR_NG then Repeat(2, 32) + Repeat(4, 2) + Repeat(1, 8)
    else Repeat(2, 12) + Repeat(4, 4) + Repeat(1, 40)
  }

  lemma FieldWidthsCoverWork(contest: u32)
    requires Handled(contest)
    ensures Sum(FieldWidths(contest)) == WORK_SIZE
  {
    hide Repeat, Sum;
    if contest == OGR_NG {
      SumAppend(Repeat(2, 32), Repeat(4, 2));
      SumAppend(Repeat(2, 32) + Repeat(4, 2), Repeat(1, 8));
    } else if contest == OGR_P2 {
      SumAppend(Repeat(2, 12), Repeat(4, 4));
      SumAppend(Repeat(2, 12) + Repeat(4, 4), Repeat(1, 40));
    }
  }

  function Reversed(s: seq<u8>): (r: seq<u8>)
    ensures |r| == |s|
    ensures forall i | 0 <= i < |s| :: r[i] == s[|s| - 1 - i]
  {
    seq(|s|, i requires 0 <= i < |s| => s[|s| - 1 - i])
  }

  /** What ntohs and ntohl do to a field on this host. */
  function NetworkField(h: Host, field: seq<u8>): (r: seq<u8>)
    ensures |r| == |field|
  {
    if h == LittleEndian then Reversed(field) else field
  }

  function SwapFields(h: Host, bytes: seq<u8>, fields: seq<nat>): (r: seq<u8>)
    requires |bytes| == Sum(fields)
    ensures |r| == |bytes|
  {
    if fields == [] then [] else
      NetworkField(h, bytes[..fields[0]]) + SwapFields(h, bytes[fields[0]..], fields[1..])
  }

  lemma {:induction false} SwapFieldsInvolution(h: Host, bytes: seq<u8>, fields: seq<nat>)
    requires |bytes| == Sum(fields)
    ensures SwapFields(h, SwapFields(h, bytes, fields), fields) == bytes
  {
    if fields != [] {
      var head := NetworkField(h, bytes[..fields[0]]);
      var rest := SwapFields(h, bytes[fields[0]..], fields[1..]);
      assert (head + rest)[..fields[0]] == head && (head + rest)[fields[0]..] == rest;
      SwapFieldsInvolution(h, bytes[fields[0]..], fields[1..]);
      assert NetworkField(h, head) == bytes[..fields[0]];
    }
  }

  function Terminated(r: WorkRecord): WorkRecord {
    r.(id := r.id[ID_SIZE - 1 := 0])
  }

  /** __switch_byte_order as a function of the source record; both directions are the same operation. */
  function Switched(h: Host, r: WorkRecord): WorkRecord {
    var t := Terminated(r);
    if Handled(t.contest) then
      FieldWidthsCoverWork(t.contest);
      t.(work := SwapFields(h, t.work, FieldWidths(t.contest)))
    else t.(contest := UNHANDLED)
  }

  /** The number a field holds on a host. */
  function FieldValue(h: Host, field: seq<u8>): nat {
    if field == [] then 0
    else if h == LittleEndian then field[0] + 256 * FieldValue(h, field[1..])
    else field[|field| - 1] + 256 * FieldValue(h, field[..|field| - 1])
  }

  lemma {:induction false} NetworkFieldValue(h: Host, field: seq<u8>)
    ensures FieldValue(BigEndian, NetworkField(h, field)) == FieldValue(h, field)
  {
    if h == LittleEndian && field != [] {
      var r := Reversed(field);
      assert r[..|r| - 1] == Reversed(field[1..]);
      NetworkFieldValue(h, field[1..]);
    }
  }

  /** Which stretches of the work area each contest's packet declares as numbers (problem.h's union, packed). */
  predicate IsField(contest: u32, offset: nat, width: nat) {
    if contest == RC5_72 then width == 4 && offset % 4 == 0 && offset < 80
    else if contest == OGR_NG then
      || (width == 2 && offset % 2 == 0 && offset < 64)
      || (width == 4 && offset % 4 == 0 && 64 <= offset < 72)
      || (width == 1 && 72 <= offset < 80)
    else
      && contest == OGR_P2
      && (|| (width == 2 && offset % 2 == 0 && offset < 24)
          || (width == 4 && offset % 4 == 0 && 24 <= offset < 40)
          || (width == 1 && 40 <= offset < 80))
  }

  lemma RepeatPrefix(width: nat, count: nat, k: nat)
    requires k <= count
    ensures Sum(Repeat(width, count)[..k]) == k * width
  {
    assert Repeat(width, count)[..k] == Repeat(width, k);
  }

  lemma {:induction false} SwapFieldsAppend(h: Host, a: seq<u8>, b: seq<u8>, before: seq<nat>, after: seq<nat>)
    requires |a| == Sum(before) && |b| == Sum(after) && |a + b| == Sum(before + after)
    ensures SwapFields(h, a + b, before + after) == SwapFields(h, a, before) + SwapFields(h, b, after)
  {
    hide NetworkField, SwapFields;
    if before == [] {
      SwapNoFields(h);
      assert a + b == b && before + after == after && a == [];
    } else {
      var w, bytes, fields := before[0], a + b, before + after;
      assert bytes[..w] == a[..w] && bytes[w..] == a[w..] + b;
      assert fields[0] == w && fields[1..] == before[1..] + after;
      SwapFirstField(h, bytes, fields);
      SwapFirstField(h, a, before);
      SwapFieldsAppend(h, a[w..], b, before[1..], after);
      Associate(NetworkField(h, a[..w]), SwapFields(h, a[w..], before[1..]), SwapFields(h, b, after));
    }
  }

  lemma SwapNoFields(h: Host)
    ensures SwapFields(h, [], []) == []
  {
  }

  lemma SwapFirstField(h: Host, bytes: seq<u8>, fields: seq<nat>)
    requires |bytes| == Sum(fields) && fields != []
    ensures SwapFields(h, bytes, fields)
         == NetworkField(h, bytes[..fields[0]]) + SwapFields(h, bytes[fields[0]..], fields[1..])
  {
  }

  lemma Associate(a: seq<u8>, b: seq<u8>, c: seq<u8>)
    ensures a + (b + c) == (a + b) + c
  {
  }

  lemma SwappedMiddle(h: Host, a: seq<u8>, field: seq<u8>, b: seq<u8>, before: seq<nat>, after: seq<nat>)
    requires |a| == Sum(before) && |b| == Sum(after)
    ensures Sum(before + ([|field|] + after)) == |a + (field + b)|
    ensures SwapFields(h, a + (field + b), before + ([|field|] + after))
         == SwapFields(h, a, before) + (NetworkField(h, field) + SwapFields(h, b, after))
  {
    var fields := [|field|] + after;
    assert fields[1..] == after && (field + b)[..|field|] == field && (field + b)[|field|..] == b;
    SumAppend(before, fields);
    SwapFieldsAppend(h, a, field + b, before, fields);
  }

  lemma {:induction false} SumSplit(fields: seq<nat>, k: nat)
    requires k < |fields|
    ensures fields == fields[..k] + ([fields[k]] + fields[k + 1..])
    ensures Sum(fields) == Sum(fields[..k]) + fields[k] + Sum(fields[k + 1..])
  {
    var tail := [fields[k]] + fields[k + 1..];
    assert fields == fields[..k] + tail;
    SumAppend(fields[..k], tail);
    assert tail[1..] == fields[k + 1..];
  }

  lemma SwappedSplit(h: Host, bytes: seq<u8>, fields: seq<nat>, k: nat, at: nat) returns (left: seq<u8>, right: seq<u8>)
    requires |bytes| == Sum(fields) && k < |fields| && at == Sum(fields[..k])
    ensures at + fields[k] <= |bytes| && |left| == at
    ensures SwapFields(h, bytes, fields) == left + (NetworkField(h, bytes[at..at + fields[k]]) + right)
  {
    hide SwapFields;
    SumSplit(fields, k);
    var before, w, after := fields[..k], fields[k], fields[k + 1..];
    var a, field, b := bytes[..at], bytes[at..at + w], bytes[at + w..];
    assert bytes == a + (field + b);
    SwappedMiddle(h, a, field, b, before, after);
    left, right := SwapFields(h, a, before), SwapFields(h, b, after);
  }

  lemma MiddleSlice(whole: seq<u8>, a: seq<u8>, middle: seq<u8>, b: seq<u8>)
    requires whole == a + (middle + b)
    ensures whole[|a|..|a| + |middle|] == middle
  {
  }

  lemma SwappedField(h: Host, bytes: seq<u8>, fields: seq<nat>, k: nat, at: nat)
    requires |bytes| == Sum(fields) && k < |fields| && at == Sum(fields[..k])
    ensures at + fields[k] <= |bytes|
    ensures SwapFields(h, bytes, fields)[at..at + fields[k]] == NetworkField(h, bytes[at..at + fields[k]])
  {
    hide *;
    var left, right := SwappedSplit(h, bytes, fields, k, at);
    MiddleSlice(SwapFields(h, bytes, fields), left, NetworkField(h, bytes[at..at + fields[k]]), right);
  }

  lemma FieldIndexIn(n2: nat, n4: nat, n1: nat, width: nat, j: nat) returns (k: nat)
    requires (width == 2 && j < n2) || (width == 4 && j < n4) || (width == 1 && j < n1)
    ensures var fields := Repeat(2, n2) + Repeat(4, n4) + Repeat(1, n1);
      && k < |fields| && fields[k] == width
      && Sum(fields[..k]) == j * width + if width == 2 then 0 else if width == 4 then 2 * n2 else 2 * n2 + 4 * n4
  {
    hide Repeat, Sum;
    var twos, fours, ones := Repeat(2, n2), Repeat(4, n4), Repeat(1, n1);
    if width == 2 {
      k := j;
      RepeatPrefix(2, n2, j);
      assert (twos + fours + ones)[..k] == twos[..j];
    } else if width == 4 {
      k := n2 + j;
      RepeatPrefix(4, n4, j);
      SumAppend(twos, fours[..j]);
      assert (twos + fours + ones)[..k] == twos + fours[..j];
    } else {
      k := n2 + n4 + j;
      RepeatPrefix(1, n1, j);
      SumAppend(twos, fours);
      SumAppend(twos + fours, ones[..j]);
      assert (twos + fours + ones)[..k] == twos + fours + ones[..j];
    }
  }

  /** The field of the declared layout that starts at `offset`. */
  lemma FieldIndex(contest: u32, offset: nat, width: nat) returns (k: nat)
    requires IsField(contest, offset, width)
    ensures k < |FieldWidths(contest)| && FieldWidths(contest)[k] == width
    ensures Sum(FieldWidths(contest)[..k]) == offset
  {
    hide Repeat, Sum;
    if contest == RC5_72 {
      k := offset / 4;
      RepeatPrefix(4, 20, k);
    } else if contest == OGR_NG {
      k := FieldIndexIn(32, 2, 8, width,
        if width == 2 then offset / 2 else if width == 4 then (offset - 64) / 4 else offset - 72);
    } else {
      k := FieldIndexIn(12, 4, 40, width,
        if width == 2 then offset / 2 else if width == 4 then (offset - 24) / 4 else offset - 40);
    }
  }

  /** A stored number is in network order: any host stores the same bytes for the same value. */
  lemma StoredFieldValue(h: Host, r: WorkRecord, offset: nat, width: nat)
    requires IsField(r.contest, offset, width)
    ensures offset + width <= WORK_SIZE
    ensures FieldValue(BigEndian, Switched(h, r).work[offset..offset + width])
         == FieldValue(h, r.work[offset..offset + width])
  {
    FieldWidthsCoverWork(r.contest);
    var k := FieldIndex(r.contest, offset, width);
    SwappedField(h, r.work, FieldWidths(r.contest), k, offset);
    NetworkFieldValue(h, r.work[offset..offset + width]);
  }

  /** Host to stored form and back gives the record again, NUL-terminated, when its contest is handled. */
  lemma SwitchRoundTrip(h: Host, r: WorkRecord)
    ensures Switched(h, Switched(h, r)) == if Handled(r.contest) then Terminated(r)
                                           else Terminated(r).(contest := UNHANDLED)
  {
    if Handled(r.contest) {
      FieldWidthsCoverWork(r.contest);
      SwapFieldsInvolution(h, r.work, FieldWidths(r.contest));
    }
    assert Terminated(r).id[ID_SIZE - 1 := 0] == Terminated(r).id;
  }

  /** A record that was read from a file survives being stored and read again, whatever its contest. */
  lemma SwitchThrice(h: Host, r: WorkRecord)
    ensures Switched(h, Switched(h, Switched(h, r))) == Switched(h, r)
  {
    SwitchRoundTrip(h, Switched(h, r));
    assert Terminated(r).id[ID_SIZE - 1 := 0] == Terminated(r).id;
  }

  /** What a conversion leaves alone, field by field; the contests this build handles are 4, 5 and 6. */
  lemma SwitchKeepsFields(h: Host, r: WorkRecord)
    ensures var t := Switched(h, r);
      && t.id[..63] == r.id[..63] && t.id[63] == 0
      && t.resultcode == r.resultcode && t.cpu == r.cpu && t.os == r.os && t.build == r.build && t.core == r.core
      && (if 4 <= r.contest <= 6 then t.contest == r.contest else t.contest == 255 && t.work == r.work)
  {
  }

  /** What a reader gets back: every field as it was, but for the end of the id and a contest not handled. */
  lemma StoredKeepsFields(h: Host, r: WorkRecord)
    ensures var t := Switched(h, Switched(h, r));
      && t.work == r.work && t.id[..63] == r.id[..63] && t.id[63] == 0
      && t.resultcode == r.resultcode && t.cpu == r.cpu && t.os == r.os && t.build == r.build && t.core == r.core
      && t.contest == if 4 <= r.contest <= 6 then r.contest else 255
  {
    SwitchRoundTrip(h, r);
  }

  /** A converted record is never taken for a free slot. */
  lemma SwitchedIsNotBlank(h: Host, r: WorkRecord)
    ensures Switched(h, r) != BLANK
  {
    assert Switched(h, r).contest != BLANK.contest;
  }

  /** A record in memory that __switch_byte_order overwrites field by field. */
  class RecordCell {
    var rec: WorkRecord

    constructor (rec: WorkRecord)
      ensures this.rec == rec
    {
      this.rec := rec;
    }
  }

  /** Swapping the field at `at` moves the boundary between swapped and unswapped bytes past it. */
  lemma SwapOneField(h: Host, done: seq<u8>, rest: seq<u8>, fields: seq<nat>)
    requires fields != [] && |rest| == Sum(fields)
    ensures done + SwapFields(h, rest, fields)
         == (done + NetworkField(h, rest[..fields[0]])) + SwapFields(h, rest[fields[0]..], fields[1..])
  {
  }

  /** The field-by-field loop over the work area. */
  method SwapWork(h: Host, source: seq<u8>, fields: seq<nat>) returns (work: seq<u8>)
    requires |source| == Sum(fields)
    ensures work == SwapFields(h, source, fields)
  {
    var done, rest, i := [], source, 0;
    assert [] + SwapFields(h, source, fields) == SwapFields(h, source, fields);
    while i < |fields|
      invariant 0 <= i <= |fields| && |rest| == Sum(fields[i..])
      invariant done + SwapFields(h, rest, fields[i..]) == SwapFields(h, source, fields)
    {
      SwapOneField(h, done, rest, fields[i..]);
      assert fields[i..][1..] == fields[i + 1..];
      done := done + NetworkField(h, rest[..fields[i]]);
      rest := rest[fields[i]..];
      i := i + 1;
    }
    work := done + rest;
  }

  /** The conversion itself; `dest` may be the same cell as `source`. */
  method SwitchByteOrder(h: Host, dest: RecordCell, source: RecordCell)
    modifies dest
    ensures dest.rec == Switched(h, old(source.rec))
  {
    if dest != source {
      dest.rec := source.rec;
    }
    dest.rec := dest.rec.(id := dest.rec.id[ID_SIZE - 1 := 0]);
    if Handled(dest.rec.contest) {
      FieldWidthsCoverWork(dest.rec.contest);
      var work := SwapWork(h, dest.rec.work, FieldWidths(dest.rec.contest));
      dest.rec := dest.rec.(work := work);
    } else {
      dest.rec := dest.rec.(contest := UNHANDLED);
    }
  }
}
