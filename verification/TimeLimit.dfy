/** The time limit in the configuration file (confrwv.cpp): "[hh:]mm[:ss]" read, "h:mm" written. */
module TimeLimit {
  import opened Machine
  import opened Options

  predicate IsDigit(c: char) { '0' <= c <= '9' }
  predicate IsSpace(c: char) { c == ' ' || '\t' <= c <= '\r' }

  function Digit(c: char): nat
    requires IsDigit(c)
  {
    c as int - '0' as int
  }

  predicate Digits(s: string) { forall k | 0 <= k < |s| :: IsDigit(s[k]) }
  predicate Spaces(s: string) { forall k | 0 <= k < |s| :: IsSpace(s[k]) }

  /** The value of a string of digits. */
  function Number(s: string): nat
    requires Digits(s)
  {
    if s == "" then 0 else 10 * Number(s[..|s| - 1]) + Digit(s[|s| - 1])
  }

  // ---- What a time is ----

  const HOURS_LIMIT := 596523

  /** Fields the parser stores: at most three, seven digits in the first and two in the others. */
  predicate WellFormed(fields: seq<string>) {
    && 1 <= |fields| <= 3
    && (forall k | 0 <= k < |fields| :: Digits(fields[k]))
    && |fields[0]| <= 7
    && (forall k | 1 <= k < |fields| :: |fields[k]| <= 2)
  }

  function Field(fields: seq<string>, k: nat): nat
    requires WellFormed(fields)
  {
    if k < |fields| then Number(fields[k]) else 0
  }

  /** Seconds in h hours, m minutes and s seconds, as an int holds them, or -1 if out of range. */
  function Seconds(h: nat, m: nat, s: nat): int {
    if h > HOURS_LIMIT || m > 59 || s > 59 then -1 else I32(((h * 60) + m) * 60 + s)
  }

  /** Out of range are 596524 hours, 60 minutes or 60 seconds and more. */
  lemma SecondsOutOfRange(h: nat, m: nat, s: nat)
    ensures h >= 596524 || m >= 60 || s >= 60 <==> Seconds(h, m, s) == -1
  {
  }

  /** The white space of C: blank, tab, newline, vertical tab, form feed and carriage return. */
  lemma SpacesAre(c: char)
    ensures IsSpace(c) <==> c as int in {9, 10, 11, 12, 13, 32}
  {
  }

  /** One field is minutes; two are hours and minutes; three are hours, minutes and seconds. */
  function Meaning(fields: seq<string>): int
    requires WellFormed(fields)
  {
    if |fields| == 1 then Field(fields, 0) * 60 else Seconds(Field(fields, 0), Field(fields, 1), Field(fields, 2))
  }

  function Join(fields: seq<string>): string
    requires |fields| > 0
  {
    if |fields| == 1 then fields[0] else Join(fields[..|fields| - 1]) + ":" + fields[|fields| - 1]
  }

  // ---- The parser ----

  predicate InBody(c: char) { c == ':' || IsDigit(c) }

  predicate Body(s: string) { forall k | 0 <= k < |s| :: InBody(s[k]) }

  /** A colon begins a new field, anything else goes on with the last. */
  function Extended(before: seq<string>, c: char): seq<string>
    requires |before| > 0
  {
    if c == ':' then before + [""] else before[|before| - 1 := before[|before| - 1] + [c]]
  }

  /** The parts of a string between its colons. */
  function Fields(s: string): (r: seq<string>)
    ensures |r| > 0
  {
    if s == "" then [""] else Extended(Fields(s[..|s| - 1]), s[|s| - 1])
  }

  function SkipSpaces(s: string): string {
    if s != "" && IsSpace(s[0]) then SkipSpaces(s[1..]) else s
  }

  function BodyLength(s: string): (n: nat)
    ensures n <= |s|
  {
    if s != "" && InBody(s[0]) then 1 + BodyLength(s[1..]) else 0
  }

  function SkipZeros(s: string): string {
    if s != "" && s[0] == '0' then SkipZeros(s[1..]) else s
  }

  /** "Hours with a decimal point": what follows the point, and the minutes its two digits stand for. */
  function Hundredths(s: string): (int, string) {
    if |s| >= 2 && IsDigit(s[0]) && IsDigit(s[1]) then ((Digit(s[0]) * 10 + Digit(s[1])) * 60 / 100, SkipZeros(s[2..]))
    else (0, SkipZeros(s))
  }

  function Parsed(source: string, oldStyle: bool): int {
    var s := SkipSpaces(source);
    var fields := Fields(s[..BodyLength(s)]);
    if !WellFormed(fields) then -1 else ParsedRest(fields, s[BodyLength(s)..], oldStyle)
  }

  function ParsedRest(fields: seq<string>, rest: string, oldStyle: bool): int
    requires WellFormed(fields)
  {
    if oldStyle && |fields| == 1 && rest != "" && rest[0] == '.' then
      var (minutes, after) := Hundredths(rest[1..]);
      if Spaces(after) then Seconds(Field(fields, 0), minutes, 0) else -1
    else if Spaces(rest) then Meaning(fields)
    else -1
  }

  lemma {:induction false} SkipSpacesKeeps(s: string)
    ensures SkipSpaces(s) == "" <==> Spaces(s)
  {
    if s != "" && IsSpace(s[0]) {
      SkipSpacesKeeps(s[1..]);
      assert s == [s[0]] + s[1..];
    }
  }

  lemma {:induction false} BodyIsLongest(s: string)
    ensures var n := BodyLength(s); Body(s[..n]) && (n < |s| ==> !InBody(s[n]))
  {
    if s != "" && InBody(s[0]) {
      BodyIsLongest(s[1..]);
      var m := BodyLength(s[1..]);
      assert s[..m + 1] == [s[0]] + s[1..][..m];
    }
  }

  lemma {:induction false} BodyLengthIs(s: string, n: nat)
    requires n <= |s| && Body(s[..n]) && (n < |s| ==> !InBody(s[n]))
    ensures BodyLength(s) == n
  {
    if n > 0 {
      assert s[..n][0] == s[0];
      assert s[1..][..n - 1] == s[..n][1..];
      BodyLengthIs(s[1..], n - 1);
    }
  }

  lemma {:induction false} FieldsSnoc(s: string, c: char)
    ensures Fields(s + [c]) == Extended(Fields(s), c)
  {
    assert (s + [c])[..|s|] == s;
  }

  /** If a prefix has too many or too long fields, so has the whole. */
  lemma {:induction false} WellFormedPrefix(s: string, k: nat)
    requires k <= |s| && WellFormed(Fields(s))
    ensures WellFormed(Fields(s[..k]))
    decreases |s| - k
  {
    if k < |s| {
      WellFormedPrefix(s, k + 1);
      assert s[..k + 1] == s[..k] + [s[k]];
      FieldsSnoc(s[..k], s[k]);
      FieldsShrink(Fields(s[..k]), s[k]);
    } else {
      assert s[..k] == s;
    }
  }

  lemma {:induction false} FieldsShrink(before: seq<string>, c: char)
    requires |before| > 0 && WellFormed(Extended(before, c))
    ensures WellFormed(before)
  {
    var after := Extended(before, c);
    forall k | 0 <= k < |before| ensures Digits(before[k]) && |before[k]| <= |after[k]| {
      assert Digits(after[k]);
      if c != ':' && k == |before| - 1 {
        assert before[k] == after[k][..|before[k]|];
      }
    }
  }

  /** When appending a character keeps the fields well formed. */
  lemma {:induction false} FieldsGrow(before: seq<string>, c: char)
    requires WellFormed(before) && InBody(c)
    ensures var last := before[|before| - 1];
      WellFormed(Extended(before, c)) <==>
      (if c == ':' then |before| <= 2 else |last| + 1 <= 7 && (|before| == 1 || |last| + 1 <= 2))
  {
    var last, after := before[|before| - 1], Extended(before, c);
    if c != ':' {
      assert Digits(last + [c]);
      assert after[|before| - 1] == last + [c];
    }
  }

  lemma {:induction false} NumberSnoc(s: string, c: char)
    requires Digits(s) && IsDigit(c)
    ensures Digits(s + [c]) && Number(s + [c]) == 10 * Number(s) + Digit(c)
  {
    assert (s + [c])[..|s|] == s;
  }

  /** Ten to the length, at most. */
  function PowerOfTen(n: nat): nat { if n == 0 then 1 else 10 * PowerOfTen(n - 1) }

  lemma {:induction false} NumberBound(s: string)
    requires Digits(s)
    ensures Number(s) < PowerOfTen(|s|)
    ensures |s| <= 2 ==> Number(s) <= 99
    ensures |s| <= 7 ==> Number(s) <= 9999999
  {
    NumberBelow(s);
    assert PowerOfTen(2) == 100 && PowerOfTen(7) == 10000000;
    PowersGrow(|s|, 2);
    PowersGrow(|s|, 7);
  }

  lemma {:induction false} NumberBelow(s: string)
    requires Digits(s)
    ensures Number(s) < PowerOfTen(|s|)
  {
    if s != "" {
      NumberBelow(s[..|s| - 1]);
    }
  }

  lemma {:induction false} PowersGrow(a: nat, b: nat)
    ensures a <= b ==> PowerOfTen(a) <= PowerOfTen(b)
  {
    if a < b {
      PowersGrow(a, b - 1);
    }
  }

  /** The parser's variables after k characters of the body of s. */
  predicate Scanned(s: string, k: nat, hms: seq<int>, colcount: nat, fieldlen: nat) {
    && k <= BodyLength(s) && |hms| == 3
    && var fields := Fields(s[..k]);
    && WellFormed(fields) && colcount == |fields| - 1 && fieldlen == |fields[colcount]|
    && (forall j | 0 <= j < 3 :: hms[j] == Field(fields, j))
  }

  lemma {:induction false} ScanStart(s: string)
    ensures Scanned(s, 0, [0, 0, 0], 0, 0)
  {
  }

  /** A colon: one more field, unless there are three already. */
  lemma {:induction false} ScanColon(s: string, k: nat, hms: seq<int>, colcount: nat, fieldlen: nat)
    requires Scanned(s, k, hms, colcount, fieldlen) && k < |s| && s[k] == ':'
    ensures k < BodyLength(s)
    ensures colcount >= 2 ==> !WellFormed(Fields(s[..BodyLength(s)]))
    ensures colcount < 2 ==> Scanned(s, k + 1, hms, colcount + 1, 0)
  {
    ScanOne(s, k);
    FieldsGrow(Fields(s[..k]), ':');
    if colcount >= 2 {
      if WellFormed(Fields(s[..BodyLength(s)])) {
        WellFormedPrefix(s[..BodyLength(s)], k + 1);
      }
    }
  }

  predicate Full(colcount: nat, fieldlen: nat) {
    fieldlen + 1 > 7 || (colcount != 0 && fieldlen + 1 > 2)
  }

  /** A digit: appended to the last field, unless that is full. */
  lemma {:induction false} ScanDigit(s: string, k: nat, hms: seq<int>, colcount: nat, fieldlen: nat)
    requires Scanned(s, k, hms, colcount, fieldlen) && k < |s| && IsDigit(s[k])
    ensures k < BodyLength(s) && colcount < 3
    ensures Full(colcount, fieldlen) ==> !WellFormed(Fields(s[..BodyLength(s)]))
    ensures !Full(colcount, fieldlen) ==>
      Scanned(s, k + 1, hms[colcount := hms[colcount] * 10 + Digit(s[k])], colcount, fieldlen + 1)
  {
    hide Digit, Fields, BodyLength, Field;
    ScanOne(s, k);
    var before := Fields(s[..k]);
    FieldsGrow(before, s[k]);
    FieldsOfDigit(before, s[k]);
    hide Extended, WellFormed;
    if Full(colcount, fieldlen) && WellFormed(Fields(s[..BodyLength(s)])) {
      WellFormedPrefix(s[..BodyLength(s)], k + 1);
    }
  }

  lemma {:induction false} FieldsOfDigit(before: seq<string>, c: char)
    requires WellFormed(before) && IsDigit(c)
    ensures |Extended(before, c)| == |before| && |Extended(before, c)[|before| - 1]| == |before[|before| - 1]| + 1
    ensures WellFormed(Extended(before, c)) ==>
      forall j: nat ::
        Field(Extended(before, c), j)
        == if j == |before| - 1 then 10 * Field(before, j) + Digit(c) else Field(before, j)
  {
    NumberSnoc(before[|before| - 1], c);
  }

  lemma {:induction false} ScanOne(s: string, k: nat)
    requires k <= BodyLength(s) && k < |s| && InBody(s[k])
    ensures k < BodyLength(s) && s[..BodyLength(s)][..k + 1] == s[..k + 1] && Body(s[..BodyLength(s)])
    ensures Fields(s[..k + 1]) == Extended(Fields(s[..k]), s[k])
  {
    BodyIsLongest(s);
    assert s[..k + 1] == s[..k] + [s[k]];
    FieldsSnoc(s[..k], s[k]);
  }

  lemma {:induction false} BodyChar(s: string, k: nat)
    requires k < BodyLength(s)
    ensures InBody(s[k])
  {
    BodyIsLongest(s);
    assert s[..BodyLength(s)][k] == s[k];
  }

  lemma {:induction false} ScanEnd(s: string, k: nat, hms: seq<int>, colcount: nat, fieldlen: nat)
    requires Scanned(s, k, hms, colcount, fieldlen) && (k < |s| ==> !InBody(s[k]))
    ensures k == BodyLength(s) && WellFormed(Fields(s[..k])) && colcount == |Fields(s[..k])| - 1
    ensures hms == [Field(Fields(s[..k]), 0), Field(Fields(s[..k]), 1), Field(Fields(s[..k]), 2)]
    ensures 0 <= hms[0] <= 9999999 && 0 <= hms[1] <= 99 && 0 <= hms[2] <= 99
    ensures colcount == 0 ==> hms[2] == 0
  {
    BodyIsLongest(s);
    if k < BodyLength(s) {
      BodyChar(s, k);
    }
    var fields := Fields(s[..k]);
    forall j | 0 <= j < |fields| ensures Number(fields[j]) <= 9999999 && (j > 0 ==> Number(fields[j]) <= 99) {
      NumberBound(fields[j]);
    }
  }

  lemma {:induction false} SkipSpace(s: string, i: nat)
    requires i <= |s|
    ensures SkipSpaces(s[i..]) == if i < |s| && IsSpace(s[i]) then SkipSpaces(s[i + 1..]) else s[i..]
  {
    if i < |s| {
      assert s[i..][1..] == s[i + 1..];
    }
  }

  lemma {:induction false} SkipZero(s: string, i: nat)
    requires i <= |s|
    ensures SkipZeros(s[i..]) == if i < |s| && s[i] == '0' then SkipZeros(s[i + 1..]) else s[i..]
  {
    if i < |s| {
      assert s[i..][1..] == s[i + 1..];
    }
  }

  /** The end of the parse, by what follows the body. */
  lemma {:induction false} ParsedAfterBody(source: string, start: nat, i: nat, oldStyle: bool)
    requires start <= i <= |source| && source[start..] == SkipSpaces(source) && BodyLength(source[start..]) == i - start
    ensures var fields := Fields(source[start..][..i - start]);
      Parsed(source, oldStyle) == if WellFormed(fields) then ParsedRest(fields, source[i..], oldStyle) else -1
  {
    assert source[start..][i - start..] == source[i..];
  }

  lemma {:induction false} RefusedFields(source: string, start: nat, oldStyle: bool)
    requires start <= |source| && source[start..] == SkipSpaces(source)
    requires !WellFormed(Fields(source[start..][..BodyLength(source[start..])]))
    ensures Parsed(source, oldStyle) == -1
  {
  }

  lemma {:induction false} PointRest(source: string, i: nat, fields: seq<string>)
    requires WellFormed(fields) && |fields| == 1 && i < |source| && source[i] == '.'
    ensures var pair := i + 2 < |source| && IsDigit(source[i + 1]) && IsDigit(source[i + 2]);
      var minutes := if pair then (Digit(source[i + 1]) * 10 + Digit(source[i + 2])) * 60 / 100 else 0;
      var after := SkipZeros(source[if pair then i + 3 else i + 1..]);
      && ParsedRest(fields, source[i..], true) == (if Spaces(after) then Seconds(Field(fields, 0), minutes, 0) else -1)
      && 0 <= minutes <= 59
  {
    assert source[i..][1..] == source[i + 1..];
    if i + 2 < |source| {
      assert source[i + 1..][2..] == source[i + 3..];
    }
  }

  lemma {:induction false} PlainRest(source: string, i: nat, fields: seq<string>, oldStyle: bool)
    requires WellFormed(fields) && i <= |source| && !(oldStyle && |fields| == 1 && i < |source| && source[i] == '.')
    ensures ParsedRest(fields, source[i..], oldStyle) == if Spaces(source[i..]) then Meaning(fields) else -1
  {
  }

  method PastSpaces(source: string, from: nat) returns (i: nat)
    requires from <= |source|
    ensures from <= i <= |source| && source[i..] == SkipSpaces(source[from..])
  {
    hide *;
    i := from;
    SkipSpace(source, i);
    while i < |source| && IsSpace(source[i])
      invariant from <= i <= |source| && SkipSpaces(source[from..]) == SkipSpaces(source[i..])
      invariant SkipSpaces(source[i..]) == if i < |source| && IsSpace(source[i]) then SkipSpaces(source[i + 1..])
                                           else source[i..]
    {
      i := i + 1;
      SkipSpace(source, i);
    }
  }

  method PastZeros(source: string, from: nat) returns (i: nat)
    requires from <= |source|
    ensures from <= i <= |source| && source[i..] == SkipZeros(source[from..])
  {
    hide *;
    i := from;
    SkipZero(source, i);
    while i < |source| && source[i] == '0'
      invariant from <= i <= |source| && SkipZeros(source[from..]) == SkipZeros(source[i..])
      invariant SkipZeros(source[i..]) == if i < |source| && source[i] == '0' then SkipZeros(source[i + 1..])
                                          else source[i..]
    {
      i := i + 1;
      SkipZero(source, i);
    }
  }

  /** The loop over digits and colons: it stops after them, or as soon as they cannot be a time. */
  method ScanFields(source: string, start: nat, hms: array<int>) returns (refused: bool, colcount: nat, i: nat,
                    ghost fieldlen: nat)
    requires start <= |source| && hms.Length == 3 && hms[..] == [0, 0, 0]
    modifies hms
    ensures refused <==> !WellFormed(Fields(source[start..][..BodyLength(source[start..])]))
    ensures !refused ==> start <= i <= |source| && i - start == BodyLength(source[start..])
    ensures !refused ==> Scanned(source[start..], i - start, hms[..], colcount, fieldlen)
  {
    hide *;
    refused, colcount, i := false, 0, start;
    var length := 0;
    ghost var s := source[start..];
    ScanStart(s);
    while i < |source| && (source[i] == ':' || IsDigit(source[i]))
      invariant start <= i <= |source| && Scanned(s, i - start, hms[..], colcount, length)
    {
      ghost var before := hms[..];
      if source[i] == ':' {
        ScanColon(s, i - start, before, colcount, length);
        length := 0;
        colcount := colcount + 1;
        if colcount > 2 {
          return true, colcount, i, length;
        }
      } else {
        ScanDigit(s, i - start, before, colcount, length);
        FullIs(colcount, length);
        length := length + 1;
        if length > 7 || (colcount != 0 && length > 2) {
          return true, colcount, i, length;
        }
        hms[colcount] := hms[colcount] * 10;
        hms[colcount] := hms[colcount] + Digit(source[i]);
        assert hms[..] == before[colcount := before[colcount] * 10 + Digit(source[i])];
      }
      i := i + 1;
    }
    InBodyIs(source, i);
    ScanEnd(s, i - start, hms[..], colcount, length);
    fieldlen := length;
  }

  /** `source` is the text before the terminating NUL. */
  method ParseTimestring(source: string, oldStyle: bool) returns (seconds: int)
    ensures seconds == Parsed(source, oldStyle)
  {
    hide *;
    var hms := new int[3];
    hms[0], hms[1], hms[2] := 0, 0, 0;
    assert source[0..] == source;
    var i := PastSpaces(source, 0);
    ghost var start := i;
    var refused, colcount;
    ghost var fieldlen;
    assert hms[..] == [0, 0, 0];
    refused, colcount, i, fieldlen := ScanFields(source, i, hms);
    if refused {
      RefusedFields(source, start, oldStyle);
      return -1;
    }
    FieldValues(source, start, i, hms[..], colcount, fieldlen, oldStyle);
    ghost var fields := Fields(source[start..][..i - start]);
    var h, m, s := hms[0], hms[1], hms[2];
    if i < |source| && source[i] == '.' && colcount == 0 && oldStyle {
      PointRest(source, i, fields);
      colcount := colcount + 1;
      i := i + 1;
      if i + 1 < |source| && IsDigit(source[i]) && IsDigit(source[i + 1]) {
        m := (Digit(source[i]) * 10 + Digit(source[i + 1])) * 60 / 100;
        i := i + 2;
      }
      i := PastZeros(source, i);
    } else {
      PlainRest(source, i, fields, oldStyle);
    }
    SkipSpacesKeeps(source[i..]);
    i := PastSpaces(source, i);
    if i < |source| {
      return -1;
    }
    if colcount == 0 {
      return h * 60;
    }
    SecondsOf(h, m, s);
    if h > HOURS_LIMIT || m > 59 || s > 59 {
      return -1;
    }
    return I32((h * 60 + m) * 60 + s);
  }

  lemma {:induction false} FieldValues(source: string, start: nat, i: nat, hms: seq<int>, colcount: nat, fieldlen: nat,
                                       oldStyle: bool)
    requires start <= i <= |source| && source[start..] == SkipSpaces(source) && i - start == BodyLength(source[start..])
    requires Scanned(source[start..], i - start, hms, colcount, fieldlen)
    ensures var fields := Fields(source[start..][..i - start]);
      && WellFormed(fields) && colcount == |fields| - 1 && |hms| == 3 && 0 <= hms[0] && 0 <= hms[1] && 0 <= hms[2]
      && hms[0] == Field(fields, 0) && hms[1] == Field(fields, 1) && hms[2] == Field(fields, 2)
      && (colcount == 0 ==> hms[1] == hms[2] == 0)
      && Parsed(source, oldStyle) == ParsedRest(fields, source[i..], oldStyle)
      && Meaning(fields) == if colcount == 0 then hms[0] * 60 else Seconds(hms[0], hms[1], hms[2])
  {
    ParsedAfterBody(source, start, i, oldStyle);
  }

  lemma {:induction false} FullIs(colcount: nat, fieldlen: nat)
    ensures Full(colcount, fieldlen) <==> fieldlen + 1 > 7 || (colcount != 0 && fieldlen + 1 > 2)
  {
  }

  lemma {:induction false} InBodyIs(source: string, i: nat)
    ensures i < |source| ==> (InBody(source[i]) <==> source[i] == ':' || IsDigit(source[i]))
  {
  }

  lemma {:induction false} SecondsOf(h: nat, m: nat, s: nat)
    ensures Seconds(h, m, s) == if h > HOURS_LIMIT || m > 59 || s > 59 then -1 else I32((h * 60 + m) * 60 + s)
  {
  }

  // ---- Which texts are times ----

  lemma {:induction false} FieldsAppend(s: string, f: string)
    requires Digits(f)
    ensures var before := Fields(s); Fields(s + f) == before[|before| - 1 := before[|before| - 1] + f]
  {
    var before := Fields(s);
    if f == "" {
      assert s + f == s && before[|before| - 1] + f == before[|before| - 1];
    } else {
      var g, c := f[..|f| - 1], f[|f| - 1];
      FieldsAppend(s, g);
      assert s + f == (s + g) + [c] && g + [c] == f;
      FieldsSnoc(s + g, c);
      assert (before[|before| - 1] + g) + [c] == before[|before| - 1] + f;
    }
  }

  lemma {:induction false} FieldsOfJoin(fields: seq<string>)
    requires |fields| > 0 && forall k | 0 <= k < |fields| :: Digits(fields[k])
    ensures Fields(Join(fields)) == fields && Body(Join(fields))
  {
    hide Fields, Body, Digits;
    var n := |fields| - 1;
    var f := fields[n];
    if n == 0 {
      FieldsOfOne(f);
      assert [f] == fields;
    } else {
      var before := fields[..n];
      assert fields == before + [f] && Join(fields) == Join(before) + ":" + f;
      hide Join;
      FieldsOfJoin(before);
      FieldsOfMore(Join(before), f);
    }
  }

  lemma {:induction false} FieldsOfOne(f: string)
    requires Digits(f)
    ensures Fields(f) == [f] && Body(f)
  {
    assert Fields("") == [""];
    FieldsAppend("", f);
    hide Fields;
    assert "" + f == f && [""][0 := f] == [f];
  }

  lemma {:induction false} FieldsOfMore(s: string, f: string)
    requires Digits(f) && Body(s)
    ensures Fields(s + ":" + f) == Fields(s) + [f] && Body(s + ":" + f)
  {
    FieldsSnoc(s, ':');
    FieldsAppend(s + ":", f);
    hide Fields;
    var before := Fields(s);
    assert "" + f == f && (before + [""])[|before| := f] == before + [f];
  }

  lemma {:induction false} JoinOfFields(s: string)
    ensures Join(Fields(s)) == s
  {
    if s != "" {
      var t, c := s[..|s| - 1], s[|s| - 1];
      hide Fields, Join;
      JoinOfFields(t);
      JoinOfSnoc(t, c);
      assert t + [c] == s;
    } else {
      assert Fields("") == [""];
    }
  }

  lemma {:induction false} JoinOfSnoc(t: string, c: char)
    requires Join(Fields(t)) == t
    ensures Join(Fields(t + [c])) == t + [c]
  {
    FieldsSnoc(t, c);
    hide Fields;
    JoinExtended(Fields(t), c);
    hide Join, Extended;
  }

  lemma {:induction false} JoinExtended(before: seq<string>, c: char)
    requires |before| > 0
    ensures Join(Extended(before, c)) == Join(before) + [c]
  {
    var n := |before| - 1;
    if c == ':' {
      assert Extended(before, c)[..n + 1] == before;
      assert Join(before) + ":" + "" == Join(before) + ":";
    } else {
      assert Extended(before, c)[..n] == before[..n];
      if n > 0 {
        assert Join(before[..n]) + ":" + (before[n] + [c]) == Join(before[..n]) + ":" + before[n] + [c];
      }
    }
  }

  lemma {:induction false} SkipLeading(pre: string, s: string)
    requires Spaces(pre)
    ensures SkipSpaces(pre + s) == SkipSpaces(s)
  {
    if pre == "" {
      assert pre + s == s;
    } else {
      assert (pre + s)[1..] == pre[1..] + s;
      SkipLeading(pre[1..], s);
    }
  }

  /** Spaces, well-formed fields between colons, and spaces. */
  predicate Spells(source: string, pre: string, fields: seq<string>, post: string) {
    WellFormed(fields) && Spaces(pre) && Spaces(post) && source == pre + Join(fields) + post
  }

  lemma {:induction false} SpelledBody(fields: seq<string>, post: string)
    requires WellFormed(fields) && Spaces(post)
    ensures var s := SkipSpaces(Join(fields) + post);
      BodyLength(s) == |Join(fields)| <= |s| && s[..BodyLength(s)] == Join(fields) && Spaces(s[BodyLength(s)..])
  {
    var body := Join(fields);
    FieldsOfJoin(fields);
    if body == "" {
      assert body + post == post;
      SkipSpacesKeeps(post);
    } else {
      var s := body + post;
      assert InBody(body[0]) && s[0] == body[0];
      assert s[..|body|] == body && s[|body|..] == post;
      BodyLengthIs(s, |body|);
    }
  }

  /** Every text so spelled means what its fields mean, old-style hours allowed or not. */
  lemma {:induction false} SpelledMeans(source: string, pre: string, fields: seq<string>, post: string, oldStyle: bool)
    requires Spells(source, pre, fields, post)
    ensures Parsed(source, oldStyle) == Meaning(fields)
  {
    var body := Join(fields);
    assert source == pre + (body + post);
    SkipLeading(pre, body + post);
    SpelledBody(fields, post);
    FieldsOfJoin(fields);
    hide SkipSpaces, BodyLength, Fields, Join, Meaning, Seconds;
  }

  lemma {:induction false} SkippedSpaces(s: string) returns (pre: string)
    ensures Spaces(pre) && s == pre + SkipSpaces(s)
  {
    if s != "" && IsSpace(s[0]) {
      var rest := SkippedSpaces(s[1..]);
      pre := [s[0]] + rest;
    } else {
      pre := "";
    }
  }

  /**
   * The grammar: a text is a time exactly when it is at most three fields between colons, the first of up to seven
   * digits and the others of up to two, with spaces around, and in range; and it then stands for their value.
   */
  lemma {:induction false} TimesAreSpelled(source: string, value: int)
    requires value != -1
    ensures Parsed(source, false) == value <==>
            exists pre, fields, post :: Spells(source, pre, fields, post) && Meaning(fields) == value
  {
    hide Meaning, Parsed, Spells;
    if Parsed(source, false) == value {
      var pre, fields, post := AcceptedIsSpelled(source);
    }
    forall pre, fields, post | Spells(source, pre, fields, post)
      ensures WellFormed(fields) && Parsed(source, false) == Meaning(fields) {
      SpelledMeans(source, pre, fields, post, false);
      SpelledIsWellFormed(source, pre, fields, post);
    }
  }

  predicate Zeros(s: string) { forall k | 0 <= k < |s| :: s[k] == '0' }

  lemma {:induction false} SkipLeadingZeros(zeros: string, s: string)
    requires Zeros(zeros) && (s == "" || s[0] != '0')
    ensures SkipZeros(zeros + s) == s
  {
    if zeros == "" {
      assert zeros + s == s;
    } else {
      assert (zeros + s)[1..] == zeros[1..] + s;
      SkipLeadingZeros(zeros[1..], s);
    }
  }

  /** The old style: hours, a point, two digits for hundredths of an hour, and any number of zeros. */
  lemma {:induction false} DecimalHours(hours: string, a: char, b: char, zeros: string, post: string)
    requires Digits(hours) && |hours| <= 7 && IsDigit(a) && IsDigit(b) && Zeros(zeros) && Spaces(post)
    ensures Parsed(hours + ("." + [a, b] + (zeros + post)), true) ==
            Seconds(Number(hours), (Digit(a) * 10 + Digit(b)) * 60 / 100, 0)
  {
    var rest := "." + [a, b] + (zeros + post);
    var s := hours + rest;
    assert s[..|hours|] == hours && s[|hours|..] == rest && rest[0] == '.';
    FieldsOfOne(hours);
    BodyLengthIs(s, |hours|);
    assert !IsSpace(s[0]);
    assert rest[1..][2..] == zeros + post;
    SkipLeadingZeros(zeros, post);
    hide BodyLength, Fields, Seconds, SkipZeros, Number;
  }

  lemma {:induction false} SpelledIsWellFormed(source: string, pre: string, fields: seq<string>, post: string)
    requires Spells(source, pre, fields, post)
    ensures WellFormed(fields)
  {
  }

  lemma {:induction false} AcceptedIsSpelled(source: string) returns (pre: string, fields: seq<string>, post: string)
    requires Parsed(source, false) != -1
    ensures WellFormed(fields) && Spells(source, pre, fields, post) && Meaning(fields) == Parsed(source, false)
  {
    pre := SkippedSpaces(source);
    var s := SkipSpaces(source);
    var n := BodyLength(s);
    hide Meaning, SkipSpaces, BodyLength, Fields, Join;
    fields, post := Fields(s[..n]), s[n..];
    JoinOfFields(s[..n]);
    assert s[..n] + s[n..] == s && pre + s[..n] + s[n..] == pre + s;
  }

  /** A value in range is never negative up to 596523:14:07, the last second an int can hold; after that it wraps. */
  lemma SecondsSign(h: nat, m: nat, s: nat)
    requires h <= HOURS_LIMIT && m <= 59 && s <= 59
    ensures (h * 60 + m) * 60 + s < TWO_31 <==> Seconds(h, m, s) >= 0
    ensures Seconds(h, m, s) >= 0 ==> Seconds(h, m, s) == h * 3600 + m * 60 + s
    ensures Seconds(h, m, s) != -1
  {
  }

  // ---- The printer ----

  function DigitChar(d: nat): char
    requires d < 10
  {
    ('0' as int + d) as char
  }

  function Decimal(n: nat): string {
    if n < 10 then [DigitChar(n)] else Decimal(n / 10) + [DigitChar(n % 10)]
  }

  /** What "%u:%02u" makes of a number of minutes. */
  function Printed(minutes: int): string {
    var u := U32(minutes);
    Decimal(u / 60) + ":" + [DigitChar(u % 60 / 10), DigitChar(u % 60 % 10)]
  }

  lemma {:induction false} DecimalNumber(n: nat)
    ensures Digits(Decimal(n)) && Number(Decimal(n)) == n
    ensures PowerOfTen(|Decimal(n)| - 1) <= n || n == 0
  {
    if n >= 10 {
      DecimalNumber(n / 10);
      NumberSnoc(Decimal(n / 10), DigitChar(n % 10));
    } else {
      NumberSnoc("", DigitChar(n));
      assert "" + [DigitChar(n)] == Decimal(n);
    }
  }

  lemma {:induction false} DecimalLength(n: nat)
    ensures |Decimal(n)| <= 7 <==> n <= 9999999
  {
    DecimalNumber(n);
    if |Decimal(n)| <= 7 {
      NumberBound(Decimal(n));
    } else {
      PowersGrow(7, |Decimal(n)| - 1);
      assert PowerOfTen(7) == 10000000;
    }
  }

  lemma {:induction false} TwoDigits(n: nat)
    requires n < 100
    ensures var s := [DigitChar(n / 10), DigitChar(n % 10)]; Digits(s) && Number(s) == n
  {
    NumberSnoc("", DigitChar(n / 10));
    NumberSnoc([DigitChar(n / 10)], DigitChar(n % 10));
    assert "" + [DigitChar(n / 10)] == [DigitChar(n / 10)];
    assert [DigitChar(n / 10)] + [DigitChar(n % 10)] == [DigitChar(n / 10), DigitChar(n % 10)];
  }

  const LAST_MINUTE := 35791394 // 596523:14

  /** What the parser makes of a printed number of minutes: 60 times it, or nothing from 596523:15 on. */
  lemma {:induction false} PrintedParses(minutes: int)
    ensures var u := U32(minutes);
      if u <= LAST_MINUTE then Parsed(Printed(minutes), false) == u * 60 else Parsed(Printed(minutes), false) < 0
  {
    var u := U32(minutes);
    var h, m := u / 60, u % 60;
    var fields := [Decimal(h), [DigitChar(m / 10), DigitChar(m % 10)]];
    DecimalNumber(h);
    DecimalLength(h);
    TwoDigits(m);
    assert u == h * 60 + m;
    assert Join(fields) == Printed(minutes) by {
      assert fields[..1] == [Decimal(h)];
      assert Join([Decimal(h)]) == Decimal(h);
    }
    PrintedFields(Printed(minutes), fields, h, m);
  }

  lemma {:induction false} PrintedFields(text: string, fields: seq<string>, h: nat, m: nat)
    requires |fields| == 2 && Digits(fields[0]) && Digits(fields[1]) && |fields[1]| == 2 && text == Join(fields)
    requires Number(fields[0]) == h && Number(fields[1]) == m < 60 && (|fields[0]| <= 7 <==> h <= 9999999)
    ensures if h * 60 + m <= LAST_MINUTE then Parsed(text, false) == (h * 60 + m) * 60 else Parsed(text, false) < 0
  {
    hide Join, Digits, Number, Fields;
    if WellFormed(fields) {
      assert "" + Join(fields) + "" == Join(fields);
      assert Spells(text, "", fields, "");
      SpelledMeans(text, "", fields, "", false);
      if h <= HOURS_LIMIT {
        SecondsSign(h, m, 0);
      }
    } else {
      hide Parsed;
      LongHoursRefused(text, fields);
    }
  }

  lemma {:induction false} LongHoursRefused(text: string, fields: seq<string>)
    requires |fields| > 0 && (forall k | 0 <= k < |fields| :: Digits(fields[k])) && !WellFormed(fields)
    requires text == Join(fields)
    ensures Parsed(text, false) < 0
  {
    FieldsOfJoin(fields);
    assert text[..|text|] == text;
    BodyLengthIs(text, |text|);
    if text != "" {
      assert InBody(text[0]);
    }
  }

  // ---- The configuration entry ----

  /** An int, as the value written, the default and the clock's seconds are. */
  predicate IsInt(x: int) { -TWO_31 <= x < TWO_31 }

  /** The entry after `minutes` has been written; "" is a missing one, and it stays missing for the default. */
  function Written(entry: string, minutes: int, default: int): string {
    var m := if minutes < 0 then default else minutes;
    if m != default || entry != "" then Printed(m) else entry
  }

  /** Seconds left of the limit when part of it has run already; a limit that is used up leaves one second. */
  function Remaining(seconds: int, elapsed: Option<int>): int {
    if elapsed.None? || seconds <= 0 then seconds
    else if U32(elapsed.value) >= U32(seconds) then 1
    else seconds - elapsed.value
  }

  function Minutes(entry: string, default: int, elapsed: Option<int>): int {
    if entry == "" || Parsed(entry, false) < 0 then default
    else CDiv(I32(Remaining(Parsed(entry, false), elapsed) + 59), 60)
  }

  class TimeLimitEntry {
    var entry: string

    constructor ()
      ensures entry == ""
    {
      entry := "";
    }

    /** __readwrite_minutes with a value to write. */
    method Write(value: int, default: int)
      requires IsInt(value) && IsInt(default)
      modifies this
      ensures entry == Written(old(entry), value, default)
    {
      var minutes := value;
      if minutes < 0 {
        minutes := default;
      }
      if minutes != default || entry != "" {
        entry := Printed(minutes);
      }
    }

    /** __readwrite_minutes without: `elapsed` is CliClock's answer if the bias applies and the clock works. */
    method Read(default: int, elapsed: Option<int>) returns (minutes: int)
      requires IsInt(default) && (elapsed.Some? ==> IsInt(elapsed.value))
      ensures minutes == Minutes(entry, default, elapsed)
    {
      if entry != "" {
        var seconds := ParseTimestring(entry, false);
        if seconds >= 0 {
          if elapsed.Some? && seconds > 0 {
            if U32(elapsed.value) >= U32(seconds) {
              seconds := 1;
            } else {
              seconds := seconds - elapsed.value;
            }
          }
          return CDiv(I32(seconds + 59), 60);
        }
      }
      return default;
    }
  }

  lemma RoundUp(minutes: int)
    requires 0 <= minutes <= LAST_MINUTE
    ensures CDiv(I32(minutes * 60 + 59), 60) == if minutes == LAST_MINUTE then -35791393 else minutes
  {
  }

  /**
   * A number of minutes that is written comes back exactly if it is at most 35791393, or is the default and either
   * was not stored or is not 35791394. At 35791394 the rounding overflows; above it the text cannot be read.
   */
  lemma {:induction false} WrittenComesBackIff(entry: string, value: int, default: int)
    requires IsInt(value) && IsInt(default)
    ensures var m := if value < 0 then default else value;
      Minutes(Written(entry, value, default), default, None) == m <==>
      (m == default && entry == "") || 0 <= m < LAST_MINUTE || (m == default && m != LAST_MINUTE)
  {
    hide Parsed, Printed, I32, CDiv, U32;
    var m := if value < 0 then default else value;
    U32Cases(m);
    PrintedParses(m);
    PrintedIsSome(m);
    if 0 <= m <= LAST_MINUTE {
      RoundUp(m);
    }
  }

  lemma {:induction false} PrintedIsSome(minutes: int)
    ensures Printed(minutes) != ""
  {
  }

  /** A limit of 0 stays 0, which stands for none, however long the client has run. */
  lemma NoLimitStaysNone(entry: string, default: int, elapsed: Option<int>)
    requires entry != "" && Parsed(entry, false) == 0
    ensures Minutes(entry, default, elapsed) == 0
  {
    hide Parsed;
  }

  /**
   * A limit that is read is the least number of minutes that covers what is left of it, and never 0: a limit that
   * has been used up does not turn into none.
   */
  lemma {:induction false} ReadCoversRemaining(entry: string, default: int, elapsed: Option<int>)
    requires entry != "" && 0 < Parsed(entry, false) <= TWO_31 - 60
    requires elapsed.Some? ==> 0 <= elapsed.value < TWO_31
    ensures var left := Remaining(Parsed(entry, false), elapsed); var m := Minutes(entry, default, elapsed);
      && m >= 1 && (m - 1) * 60 < left <= m * 60
      && (elapsed.Some? && elapsed.value < Parsed(entry, false) ==> left == Parsed(entry, false) - elapsed.value)
      && (elapsed.Some? && elapsed.value >= Parsed(entry, false) ==> m == 1)
  {
    hide Parsed;
    var seconds := Parsed(entry, false);
    U32Cases(seconds);
    if elapsed.Some? {
      U32Cases(elapsed.value);
    }
    hide U32;
  }
}
