/** base64.cpp: the encoding of RFC 4648 section 4, and a decoder that skips foreign characters and works in place. */
module Base64 {
  import opened Machine
  import opened Options

  const PAD: u8 := 61

  /** The alphabet: A-Z, a-z, 0-9, + and /. */
  function Letter(v: int): u8
    requires 0 <= v < 64
  {
    if v < 26 then 65 + v
    else if v < 52 then 97 + (v - 26)
    else if v < 62 then 48 + (v - 52)
    else if v == 62 then 43
    else 47
  }

  /** The value of a character of the alphabet, and -1 for any other. */
  function LetterValue(c: u8): int {
    if 65 <= c <= 90 then c - 65
    else if 97 <= c <= 122 then c - 97 + 26
    else if 48 <= c <= 57 then c - 48 + 52
    else if c == 43 then 62
    else if c == 47 then 63
    else -1
  }

  lemma LettersAreDistinct(v: int)
    requires 0 <= v < 64
    ensures LetterValue(Letter(v)) == v && Letter(v) != PAD
  {
  }

  /** The 64 letters and the padding character, in the code of their standard. */
  lemma AlphabetIs(v: int)
    requires 0 <= v < 64
    ensures v <= 25 ==> Letter(v) == 'A' as int + v
    ensures 26 <= v <= 51 ==> Letter(v) == 'a' as int + (v - 26)
    ensures 52 <= v <= 61 ==> Letter(v) == '0' as int + (v - 52)
    ensures Letter(62) == '+' as int && Letter(63) == '/' as int && PAD == '=' as int
  {
  }

  // ---- Encoding ----

  /** The four letters of three bytes; a missing byte counts as 0. */
  function First(a: u8): u8 { Letter(a / 4) }
  function Second(a: u8, b: u8): u8 { Letter(a % 4 * 16 + b / 16) }
  function Third(b: u8, c: u8): u8 { Letter(b % 16 * 4 + c / 64) }
  function Fourth(c: u8): u8 { Letter(c % 64) }

  function Encoded(x: seq<u8>): seq<u8> {
    if |x| == 0 then []
    else if |x| == 1 then [First(x[0]), Second(x[0], 0), PAD, PAD]
    else if |x| == 2 then [First(x[0]), Second(x[0], x[1]), Third(x[1], 0), PAD]
    else Quad(x) + Encoded(x[3..])
  }

  function Quad(x: seq<u8>): seq<u8>
    requires |x| >= 3
  {
    [First(x[0]), Second(x[0], x[1]), Third(x[1], x[2]), Fourth(x[2])]
  }

  /** Four letters are the four digits, most significant first, of the number that three bytes are. */
  lemma QuadIsNumber(x: seq<u8>)
    requires |x| >= 3
    ensures var q := Quad(x);
      var a: int, b: int, c: int := x[0], x[1], x[2];
      && |q| == 4 && (forall i | 0 <= i < 4 :: 0 <= LetterValue(q[i]) < 64)
      && ((LetterValue(q[0]) * 64 + LetterValue(q[1])) * 64 + LetterValue(q[2])) * 64 + LetterValue(q[3])
         == (a * 256 + b) * 256 + c
  {
    var a, b, c := x[0], x[1], x[2];
    LettersAreDistinct(a / 4);
    LettersAreDistinct(a % 4 * 16 + b / 16);
    LettersAreDistinct(b % 16 * 4 + c / 64);
    LettersAreDistinct(c % 64);
    hide Letter, LetterValue;
  }

  /** The examples of section 10 of RFC 4648: the encodings of f, fo, foo and foobar. */
  lemma {:induction false} KnownEncodings()
    ensures Encoded([]) == []
    ensures Encoded([102]) == [90, 103, 61, 61]
    ensures Encoded([102, 111]) == [90, 109, 56, 61]
    ensures Encoded([102, 111, 111]) == [90, 109, 57, 118]
    ensures Encoded([102, 111, 111, 98, 97, 114]) == [90, 109, 57, 118, 89, 109, 70, 121]
  {
    assert Encoded([102, 111, 111]) == Quad([102, 111, 111]) + Encoded([]);
    assert [102, 111, 111, 98, 97, 114][3..] == [98, 97, 114] && [98, 97, 114][3..] == [];
    assert Encoded([98, 97, 114]) == Quad([98, 97, 114]) + Encoded([]);
  }

  function EncodedLength(n: nat): nat {
    (n + 2) / 3 * 4
  }

  lemma {:induction false} EncodedLengthStep(n: nat)
    ensures EncodedLength(n) == if n == 0 then 0 else if n < 3 then 4 else 4 + EncodedLength(n - 3)
  {
  }

  lemma {:induction false} EncodedSize(x: seq<u8>)
    ensures |Encoded(x)| == EncodedLength(|x|)
  {
    EncodedLengthStep(|x|);
    hide EncodedLength, First, Second, Third, Fourth;
    if |x| >= 3 {
      EncodedSize(x[3..]);
    }
  }

  predicate Printable(c: u8) {
    LetterValue(c) >= 0 || c == PAD
  }

  /** Only letters and padding come out, and padding only in the last two places. */
  lemma {:induction false} EncodedAlphabet(x: seq<u8>, k: nat)
    requires k < |Encoded(x)|
    ensures Printable(Encoded(x)[k])
    ensures Encoded(x)[k] == PAD ==> k >= |Encoded(x)| - 2
  {
    hide LetterValue;
    if |x| >= 3 {
      EncodedSize(x[3..]);
      if k >= 4 {
        EncodedAlphabet(x[3..], k - 4);
      }
    }
    forall v | 0 <= v < 64 ensures Printable(Letter(v)) && Letter(v) != PAD {
      LettersAreDistinct(v);
    }
    hide Letter;
  }

  /** A buffer whose first bytes have been replaced. */
  function Overlaid(was: seq<u8>, start: seq<u8>): seq<u8>
    requires |start| <= |was|
  {
    start + was[|start|..]
  }

  /** The same, with a NUL after those bytes if there is room. */
  function Terminated(was: seq<u8>, start: seq<u8>, room: nat): seq<u8>
    requires |start| <= room <= |was|
  {
    Overlaid(was, if |start| < room then start + [0] else start)
  }

  lemma TerminatedIs(was: seq<u8>, text: seq<u8>, room: nat)
    requires |text| <= room <= |was|
    ensures Terminated(was, text, room) == Overlaid(was, if |text| < room then text + [0] else text)
  {
  }

  lemma OverlaidMore(was: seq<u8>, start: seq<u8>, c: u8)
    requires |start| < |was|
    ensures Overlaid(was, start)[|start| := c] == Overlaid(was, start + [c])
  {
  }

  lemma FourMore(start: seq<u8>, q: seq<u8>)
    requires |q| == 4
    ensures start + [q[0]] + [q[1]] + [q[2]] + [q[3]] == start + q
  {
  }

  /** The first i bytes have been encoded into text. */
  predicate Encoding(x: seq<u8>, i: nat, text: seq<u8>) {
    i <= |x| && text + Encoded(x[i..]) == Encoded(x)
  }

  lemma EncodingStart(x: seq<u8>)
    ensures Encoding(x, 0, [])
  {
    assert x[0..] == x;
  }

  lemma EncodingQuad(x: seq<u8>, i: nat, text: seq<u8>)
    requires Encoding(x, i, text) && i + 2 < |x|
    ensures |text| + 4 <= |Encoded(x)|
    ensures Encoding(x, i + 3, text + [First(x[i]), Second(x[i], x[i + 1]),
                                      Third(x[i + 1], x[i + 2]), Fourth(x[i + 2])])
  {
    hide *;
    var head, tail := Quad(x[i..]), Encoded(x[i + 3..]);
    QuadFirst(x, i);
    assert text + (head + tail) == (text + head) + tail;
    EncodingIs(x, i, text);
    EncodingIs(x, i + 3, text + head);
  }

  lemma {:induction false} QuadFirst(x: seq<u8>, i: nat)
    requires i + 2 < |x|
    ensures Encoded(x[i..]) == Quad(x[i..]) + Encoded(x[i + 3..])
    ensures Quad(x[i..]) == [First(x[i]), Second(x[i], x[i + 1]), Third(x[i + 1], x[i + 2]), Fourth(x[i + 2])]
  {
    hide First, Second, Third, Fourth;
    assert x[i..][3..] == x[i + 3..];
  }

  lemma {:induction false} EncodingIs(x: seq<u8>, i: nat, text: seq<u8>)
    requires i <= |x|
    ensures Encoding(x, i, text) <==> text + Encoded(x[i..]) == Encoded(x)
  {
  }

  lemma EncodingEnd(x: seq<u8>, i: nat, text: seq<u8>)
    requires Encoding(x, i, text) && |x| <= i + 2
    ensures i == |x| ==> text == Encoded(x)
    ensures i + 1 == |x| ==> Encoded(x) == text + [First(x[i]), Second(x[i], 0), PAD, PAD]
    ensures i + 2 == |x| ==>
      Encoded(x) == text + [First(x[i]), Second(x[i], x[i + 1]), Third(x[i + 1], 0), PAD]
  {
    if i == |x| {
      assert text + [] == text;
    }
  }

  /** Shifts and masks of bytes are written as divisions and remainders. */
  method Encode(outbuf: array<u8>, inbuf: array<u8>, outbuflen: nat, inbuflen: nat) returns (rc: int)
    requires outbuf != inbuf && outbuflen <= outbuf.Length && inbuflen <= inbuf.Length
    requires EncodedLength(inbuflen) < TWO_31
    modifies outbuf
    ensures |Encoded(old(inbuf[..inbuflen]))| == EncodedLength(inbuflen)
    ensures outbuflen < EncodedLength(inbuflen) ==> rc == -1 && outbuf[..] == Terminated(old(outbuf[..]), [], outbuflen)
    ensures outbuflen >= EncodedLength(inbuflen) ==>
      && rc == EncodedLength(inbuflen)
      && outbuf[..] == Terminated(old(outbuf[..]), Encoded(old(inbuf[..inbuflen])), outbuflen)
  {
    assert EncodedLength(inbuflen) == (inbuflen + 2) / 3 * 4;
    hide *;
    var outlen, errors := 0, 0;
    ghost var x, was, text := inbuf[..inbuflen], outbuf[..], [];
    EncodedSize(x);
    OverlaidNothing(was);
    if outbuflen < (inbuflen + 2) / 3 * 4 {
      errors := errors + 1;
    } else if inbuflen != 0 {
      var i, left := 0, inbuflen;
      EncodingStart(x);
      while left > 2
        invariant 0 <= i && left == inbuflen - i && 0 <= left
        invariant outlen == |text| <= outbuflen && Encoding(x, i, text)
        invariant outbuf[..] == Overlaid(was, text)
        invariant forall k | 0 <= k < inbuflen :: inbuf[k] == x[k]
      {
        EncodingQuad(x, i, text);
        var b0, b1, b2 := inbuf[i], inbuf[i + 1], inbuf[i + 2];
        outlen, text := WriteFour(outbuf, outlen, First(b0), Second(b0, b1), Third(b1, b2), Fourth(b2), was, text);
        i := i + 3;
        left := left - 3;
      }
      EncodingEnd(x, i, text);
      if left == 1 {
        var b0 := inbuf[i];
        outlen, text := WriteFour(outbuf, outlen, First(b0), Second(b0, 0), PAD, PAD, was, text);
      } else if left == 2 {
        var b0, b1 := inbuf[i], inbuf[i + 1];
        outlen, text := WriteFour(outbuf, outlen, First(b0), Second(b0, b1), Third(b1, 0), PAD, was, text);
      }
    }
    assert errors == 0 ==> text == Encoded(x);
    assert errors != 0 ==> text == [];
    TerminatedIs(was, text, outbuflen);
    if outlen < outbuflen {
      OverlaidMore(was, text, 0);
      outbuf[outlen] := 0;
    }
    return if errors != 0 then -1 else outlen;
  }

  /** Four times `*outbuf++ = c`. */
  method WriteFour(outbuf: array<u8>, outlen: nat, c0: u8, c1: u8, c2: u8, c3: u8, ghost was: seq<u8>,
                   ghost text: seq<u8>)
    returns (next: nat, ghost more: seq<u8>)
    requires outlen + 4 <= outbuf.Length == |was| && outlen == |text| && outbuf[..] == Overlaid(was, text)
    modifies outbuf
    ensures next == outlen + 4 && more == text + [c0, c1, c2, c3] && next == |more|
    ensures outbuf[..] == Overlaid(was, more)
  {
    hide *;
    next, more := WriteByte(outbuf, outlen, c0, was, text);
    next, more := WriteByte(outbuf, next, c1, was, more);
    next, more := WriteByte(outbuf, next, c2, was, more);
    next, more := WriteByte(outbuf, next, c3, was, more);
    FourMore(text, [c0, c1, c2, c3]);
  }

  lemma OverlaidNothing(was: seq<u8>)
    ensures Overlaid(was, []) == was
  {
  }

  // ---- Decoding ----

  type Sextet = v: int | 0 <= v < 64

  /** The values of the letters before the first padding character; anything else is skipped. */
  function Sextets(s: seq<u8>): seq<Sextet> {
    if s == [] || s[0] == PAD then []
    else if LetterValue(s[0]) >= 0 then [LetterValue(s[0])] + Sextets(s[1..])
    else Sextets(s[1..])
  }

  function Group(a: Sextet, b: Sextet, c: Sextet, d: Sextet): seq<u8> {
    [a * 4 + b / 16, b % 16 * 16 + c / 4, c % 4 * 64 + d]
  }

  /** The bytes of the whole groups of four. */
  function Groups(v: seq<Sextet>): seq<u8> {
    if |v| < 4 then [] else Group(v[0], v[1], v[2], v[3]) + Groups(v[4..])
  }

  /** The bytes of a last, padded group. */
  function Tail(v: seq<Sextet>): seq<u8>
    requires |v| < 4
  {
    if |v| < 2 then [] else Group(v[0], v[1], if |v| == 3 then v[2] else 0, 0)[..|v| - 1]
  }

  function Pending(v: seq<Sextet>): seq<Sextet> { v[|v| - |v| % 4..] }

  /** What a text stands for: whole groups, and a shorter last one only if padding says so and it holds a byte. */
  function Decoded(s: seq<u8>): Option<seq<u8>> {
    var v := Sextets(s);
    if if PAD in s then |v| % 4 == 1 else |v| % 4 != 0 then None
    else Some(Groups(v) + Tail(Pending(v)))
  }

  predicate Fits(s: seq<u8>, room: nat) {
    Decoded(s).Some? && |Decoded(s).value| <= room
  }

  /** What the decoder leaves in the buffer: everything, or when it fails, the whole groups there was room for. */
  function Written(s: seq<u8>, room: nat): seq<u8> {
    var v := Sextets(s);
    GroupsSize(v);
    if Fits(s, room) then Decoded(s).value
    else Groups(v)[..(if |v| / 4 <= room / 3 then |v| / 4 else room / 3) * 3]
  }

  lemma {:induction false} QuarterOf(n: nat)
    ensures n / 4 * 3 == if n < 4 then 0 else 3 + (n - 4) / 4 * 3
  {
  }

  lemma {:induction false} GroupsSize(v: seq<Sextet>)
    ensures |Groups(v)| == |v| / 4 * 3
  {
    QuarterOf(|v|);
    if |v| >= 4 {
      GroupsSize(v[4..]);
    }
  }

  lemma {:induction false} GroupsSplit(v: seq<Sextet>, w: seq<Sextet>)
    requires |v| % 4 == 0
    ensures Groups(v + w) == Groups(v) + Groups(w)
  {
    if v == [] {
      assert v + w == w;
    } else {
      assert (v + w)[4..] == v[4..] + w;
      GroupsSplit(v[4..], w);
    }
  }

  lemma {:induction false} GroupsWhole(v: seq<Sextet>)
    ensures Groups(v[..|v| - |v| % 4]) == Groups(v)
  {
    var k := |v| - |v| % 4;
    assert v[..k] + v[k..] == v;
    GroupsSplit(v[..k], v[k..]);
    assert Groups(v[k..]) == [];
    hide Groups;
  }

  /** The accumulated bits after the letters of an unfinished group. */
  function Shifted(p: seq<Sextet>): nat
    requires |p| < 4
  {
    if |p| == 0 then 0 else (Shifted(p[..|p| - 1]) + p[|p| - 1] as int) * 64
  }

  /** The decoder has read s[..pos], found the letters v and written text. */
  predicate Reading(s: seq<u8>, pos: nat, v: seq<Sextet>, bits: int, count: int, text: seq<u8>) {
    && |v| <= pos <= |s| && PAD !in s[..pos]
    && Sextets(s) == v + Sextets(s[pos..])
    && count == |v| % 4 && bits == Shifted(Pending(v))
    && text == Groups(v)
  }

  predicate Finished(s: seq<u8>, room: nat, failed: bool, text: seq<u8>) {
    failed == !Fits(s, room) && text == Written(s, room)
  }

  lemma {:induction false} BeginReading(s: seq<u8>)
    ensures Reading(s, 0, [], 0, 0, [])
  {
    assert s[0..] == s;
  }

  lemma {:induction false} SextetsHead(s: seq<u8>, pos: nat)
    requires pos < |s|
    ensures s[pos] == PAD ==> Sextets(s[pos..]) == []
    ensures s[pos] != PAD && LetterValue(s[pos]) < 0 ==> Sextets(s[pos..]) == Sextets(s[pos + 1..])
    ensures s[pos] != PAD && LetterValue(s[pos]) >= 0 ==>
      Sextets(s[pos..]) == [LetterValue(s[pos])] + Sextets(s[pos + 1..])
    ensures s[pos] != PAD && PAD !in s[..pos] ==> PAD !in s[..pos + 1]
  {
    hide LetterValue;
    assert s[pos..][1..] == s[pos + 1..];
    assert s[..pos + 1] == s[..pos] + [s[pos]];
  }

  lemma {:induction false} SkipChar(s: seq<u8>, pos: nat, v: seq<Sextet>, bits: int, count: int, text: seq<u8>)
    requires Reading(s, pos, v, bits, count, text) && pos < |s| && s[pos] != PAD && LetterValue(s[pos]) < 0
    ensures Reading(s, pos + 1, v, bits, count, text)
  {
    SextetsHead(s, pos);
    hide Sextets, LetterValue, Groups;
  }

  lemma {:induction false} TakeLetter(s: seq<u8>, pos: nat, v: seq<Sextet>, bits: int, count: int, text: seq<u8>,
                                      d: Sextet)
    requires Reading(s, pos, v, bits, count, text) && pos < |s| && s[pos] != PAD && LetterValue(s[pos]) == d
    ensures PAD !in s[..pos + 1] && |v + [d]| <= pos + 1 && Sextets(s) == (v + [d]) + Sextets(s[pos + 1..])
  {
    SextetsHead(s, pos);
    hide Sextets, LetterValue, Groups;
    assert v + ([d] + Sextets(s[pos + 1..])) == (v + [d]) + Sextets(s[pos + 1..]);
  }

  lemma {:induction false} TakeEarlyLetter(s: seq<u8>, pos: nat, v: seq<Sextet>, bits: int, count: int, text: seq<u8>,
                                           d: Sextet)
    requires Reading(s, pos, v, bits, count, text) && pos < |s| && s[pos] != PAD && LetterValue(s[pos]) == d
    requires count < 3
    ensures Reading(s, pos + 1, v + [d], (bits + d) * 64, count + 1, text) && 0 <= (bits + d) * 64 < TWO_32
  {
    TakeLetter(s, pos, v, bits, count, text, d);
    hide Sextets, LetterValue, Groups;
    PendingMore(v, d);
    GroupsWhole(v);
    GroupsWhole(v + [d]);
    ShiftedBound(Pending(v + [d]));
  }

  lemma {:induction false} PendingMore(v: seq<Sextet>, d: Sextet)
    requires |v| % 4 < 3
    ensures Pending(v + [d]) == Pending(v) + [d] && (v + [d])[..|v + [d]| - |v + [d]| % 4] == v[..|v| - |v| % 4]
    ensures |v + [d]| % 4 == |v| % 4 + 1
    ensures Shifted(Pending(v + [d])) == (Shifted(Pending(v)) + d as int) * 64
  {
    var k := |v| - |v| % 4;
    assert |v + [d]| - |v + [d]| % 4 == k;
    assert (v + [d])[k..] == v[k..] + [d];
    assert (v[k..] + [d])[..|v| % 4] == v[k..];
  }

  lemma {:induction false} ShiftedBound(p: seq<Sextet>)
    requires |p| < 4
    ensures |p| <= 1 ==> Shifted(p) <= 64 * 63
    ensures |p| <= 2 ==> Shifted(p) < 64 * 64 * 64
    ensures Shifted(p) < 64 * 64 * 64 * 64
  {
    if p != [] {
      ShiftedBound(p[..|p| - 1]);
    }
  }

  /** The three bytes of a finished group, as the code shifts them out. */
  function ThreeBytes(bits: int): seq<u8> {
    [bits / 65536 % 256, bits / 256 % 256, bits % 256]
  }

  lemma {:induction false} BytesOf(a: int, b: int, c: int, d: int)
    requires 0 <= a < 64 && 0 <= b < 64 && 0 <= c < 64 && 0 <= d < 64
    ensures ThreeBytes(((a * 64 + b) * 64 + c) * 64 + d) == Group(a, b, c, d)
  {
    BytesFrom(a * 4 + b / 16, b % 16 * 16 + c / 4, c % 4 * 64 + d);
  }

  lemma {:induction false} BytesFrom(x: int, y: int, z: int)
    requires 0 <= x < 256 && 0 <= y < 256 && 0 <= z < 256
    ensures ThreeBytes(x * 65536 + y * 256 + z) == [x, y, z]
  {
    var n := x * 65536 + y * 256 + z;
    assert n / 256 == x * 256 + y;
    assert n / 65536 == x;
  }

  lemma {:induction false} ShiftedThree(p: seq<Sextet>)
    requires 2 <= |p| <= 3
    ensures var two := (p[0] as int * 64 + p[1] as int) * 64;
      Shifted(p) == if |p| == 2 then two else (two + p[2] as int) * 64
  {
    var q := p[..2];
    assert p[..|p| - 1] == if |p| == 3 then q else p[..1];
    assert q[..1] == p[..1] && p[..1][..0] == [];
    assert Shifted(p[..1]) == p[0] as int * 64;
    assert Shifted(q) == (p[0] as int * 64 + p[1] as int) * 64;
  }

  lemma {:induction false} AppendThree(text: seq<u8>, bits: int)
    ensures text + ThreeBytes(bits) == text + [bits / 65536 % 256] + [bits / 256 % 256] + [bits % 256]
  {
  }

  lemma {:induction false} TakeFourthLetter(s: seq<u8>, pos: nat, v: seq<Sextet>, bits: int, count: int, text: seq<u8>,
                                            d: Sextet)
    requires Reading(s, pos, v, bits, count, text) && pos < |s| && s[pos] != PAD && LetterValue(s[pos]) == d
    requires count == 3
    ensures Reading(s, pos + 1, v + [d], 0, 0, text + ThreeBytes(bits + d)) && 0 <= bits + d < TWO_32
  {
    TakeLetter(s, pos, v, bits, count, text, d);
    hide Sextets, LetterValue, Groups;
    PendingFull(v, d);
    var p, start := Pending(v), v[..|v| - 3];
    ShiftedThree(p);
    BytesOf(p[0], p[1], p[2], d);
    GroupsWhole(v);
    GroupsSplit(start, p + [d]);
    OneGroup(p, d);
    hide Pending, ThreeBytes, Group;
  }

  lemma {:induction false} PendingFull(v: seq<Sextet>, d: Sextet)
    requires |v| % 4 == 3
    ensures |Pending(v)| == 3 && v + [d] == v[..|v| - 3] + (Pending(v) + [d])
    ensures |v + [d]| % 4 == 0 && |v[..|v| - 3]| % 4 == 0 && Pending(v + [d]) == []
  {
  }

  lemma {:induction false} OneGroup(p: seq<Sextet>, d: Sextet)
    requires |p| == 3
    ensures Groups(p + [d]) == Group(p[0], p[1], p[2], d)
  {
    assert (p + [d])[4..] == [];
  }

  /** How many bytes a reading has written: never more than it has read. */
  lemma {:induction false} ReadingSize(s: seq<u8>, pos: nat, v: seq<Sextet>, bits: int, count: int, text: seq<u8>)
    requires Reading(s, pos, v, bits, count, text)
    ensures |text| == |v| / 4 * 3 && |text| + count <= pos && count == |v| % 4
  {
    GroupsSize(v);
  }

  lemma {:induction false} DecodedSize(s: seq<u8>)
    ensures var n := |Sextets(s)|;
      Decoded(s).Some? ==> |Decoded(s).value| == n / 4 * 3 + (if n % 4 == 0 then 0 else n % 4 - 1)
  {
    GroupsSize(Sextets(s));
  }

  /** No room for another group: the reading ends with what it has written. */
  lemma {:induction false} NoRoom(s: seq<u8>, pos: nat, v: seq<Sextet>, bits: int, count: int, text: seq<u8>, d: Sextet,
                                  room: nat)
    requires Reading(s, pos, v, bits, count, text) && pos < |s| && s[pos] != PAD && LetterValue(s[pos]) == d
    requires count == 3
    requires |text| <= room < |text| + 3
    ensures Finished(s, room, true, text)
  {
    TakeLetter(s, pos, v, bits, count, text, d);
    hide LetterValue, Sextets, Groups, Tail, Pending;
    ReadingSize(s, pos, v, bits, count, text);
    DecodedSize(s);
    MoreGroups(Sextets(s), v, d, Sextets(s[pos + 1..]));
    assert !Fits(s, room);
    assert room / 3 == |v| / 4;
  }

  lemma {:induction false} MoreGroups(all: seq<Sextet>, v: seq<Sextet>, d: Sextet, rest: seq<Sextet>)
    requires |v| % 4 == 3 && all == (v + [d]) + rest
    ensures |all| / 4 >= |v| / 4 + 1 && |Groups(all)| >= |v| / 4 * 3 && Groups(all)[..|v| / 4 * 3] == Groups(v)
  {
    hide Groups;
    var k := |v| - 3;
    assert all == v[..k] + all[k..];
    GroupsSplit(v[..k], all[k..]);
    GroupsWhole(v);
    GroupsSize(v);
  }

  /** The text ends without padding. */
  lemma {:induction false} EndOfText(s: seq<u8>, v: seq<Sextet>, bits: int, count: int, text: seq<u8>, room: nat)
    requires Reading(s, |s|, v, bits, count, text) && |text| <= room
    ensures Finished(s, room, count != 0, text)
  {
    assert s[..|s|] == s;
    assert Sextets(s) == v;
    ReadingSize(s, |s|, v, bits, count, text);
    hide Sextets, Groups;
    assert |v| / 4 <= room / 3;
    assert text[..|v| / 4 * 3] == text;
    if count == 0 {
      assert Pending(v) == [];
      assert Groups(v) + [] == Groups(v);
    }
  }

  lemma {:induction false} Over1024(n: int, x: int, rest: int)
    requires n == x * 1024 + rest && 0 <= rest < 1024 && 0 <= x < 256
    ensures n / 1024 % 256 == x
  {
  }

  lemma {:induction false} FirstByte(a: int, b: int)
    requires 0 <= a < 64 && 0 <= b < 64
    ensures Group(a, b, 0, 0)[..1] == [(a * 64 + b) * 64 / 1024 % 256]
  {
    var x, r := a * 4 + b / 16, b % 16;
    assert b == b / 16 * 16 + r;
    Over1024((a * 64 + b) * 64, x, r * 64);
    assert Group(a, b, 0, 0)[..1] == [x];
  }

  lemma {:induction false} TailBytes(p: seq<Sextet>)
    requires |p| < 4
    ensures |p| < 2 ==> Tail(p) == []
    ensures |p| == 2 ==> Tail(p) == [Shifted(p) / 1024 % 256]
    ensures |p| == 3 ==> Tail(p) == ThreeBytes(Shifted(p))[..2]
  {
    if |p| >= 2 {
      ShiftedThree(p);
      hide Shifted;
      if |p| == 2 {
        FirstByte(p[0], p[1]);
      } else {
        BytesOf(p[0], p[1], p[2], 0);
      }
    }
  }

  /** Padding: the last group is written if it holds a byte and there is room for it. */
  lemma {:induction false} EndAtPadding(s: seq<u8>, pos: nat, v: seq<Sextet>, bits: int, count: int, text: seq<u8>,
                                        room: nat)
    requires Reading(s, pos, v, bits, count, text) && pos < |s| && s[pos] == PAD && |text| <= room
    ensures count < 2 ==> Finished(s, room, count == 1, text)
    ensures count == 2 ==>
      if |text| + 1 > room then Finished(s, room, true, text) else Finished(s, room, false, text + [bits / 1024 % 256])
    ensures count == 3 ==>
      if |text| + 2 > room then Finished(s, room, true, text)
      else Finished(s, room, false, text + [bits / 65536 % 256] + [bits / 256 % 256])
  {
    assert s[pos..][0] == PAD;
    assert Sextets(s) == v;
    assert PAD in s;
    TailBytes(Pending(v));
    ReadingSize(s, pos, v, bits, count, text);
    hide Sextets, Groups;
    assert |v| / 4 <= room / 3;
    assert text[..|v| / 4 * 3] == text;
    assert text + [] == text;
    assert text + [bits / 65536 % 256] + [bits / 256 % 256] == text + [bits / 65536 % 256, bits / 256 % 256];
  }

  /**
   * The buffers may be the same array: never more bytes are written than have been read, so the outcome is the
   * same function of the old text either way.
   */
  method Decode(outbuf: array<u8>, inbuf: array<u8>, outbuflen: nat, inbuflen: nat) returns (rc: int)
    requires outbuflen <= outbuf.Length && inbuflen <= inbuf.Length && outbuflen < TWO_31
    modifies outbuf
    ensures |Written(old(inbuf[..inbuflen]), outbuflen)| <= outbuflen
    ensures rc == if Fits(old(inbuf[..inbuflen]), outbuflen) then |Decoded(old(inbuf[..inbuflen])).value| else -1
    ensures outbuf[..] == Terminated(old(outbuf[..]), Written(old(inbuf[..inbuflen]), outbuflen), outbuflen)
  {
    hide *;
    ghost var s, was, text, v := inbuf[..inbuflen], outbuf[..], [], [];
    var decoder := DecoderTable();
    var readPos, bits, charCount, outlen, errors := 0, 0, 0, 0, 0;
    OverlaidNothing(was);
    BeginReading(s);
    while errors == 0
      invariant readPos <= inbuflen && outlen == |text| <= outbuflen
      invariant outbuf[..] == Overlaid(was, text)
      invariant errors == 0 ==> Reading(s, readPos, v, bits, charCount, text)
      invariant errors != 0 ==> Finished(s, outbuflen, true, text)
      invariant forall k | readPos <= k < inbuflen :: inbuf[k] == s[k]
      invariant forall c: u8 :: decoder[c] == LetterValue(c) + 1
      decreases errors == 0, inbuflen - readPos
    {
      ReadingSize(s, readPos, v, bits, charCount, text);
      if readPos == inbuflen {
        EndOfText(s, v, bits, charCount, text, outbuflen);
        if charCount != 0 {
          errors := errors + 1;
        }
        break;
      }
      var c := inbuf[readPos];
      readPos := readPos + 1;
      if c == PAD {
        EndAtPadding(s, readPos - 1, v, bits, charCount, text, outbuflen);
        if charCount == 1 {
          errors := errors + 1;
        } else if charCount == 2 {
          if outbuflen - outlen < 1 {
            errors := errors + 1;
          } else {
            outlen, text := WriteByte(outbuf, outlen, bits / 1024 % 256, was, text);
          }
        } else if charCount == 3 {
          if outbuflen - outlen < 2 {
            errors := errors + 1;
          } else {
            outlen, text := WriteByte(outbuf, outlen, bits / 65536 % 256, was, text);
            outlen, text := WriteByte(outbuf, outlen, bits / 256 % 256, was, text);
          }
        }
        break;
      } else if decoder[c] != 0 {
        LetterRange(c);
        var d: Sextet := decoder[c] as int - 1;
        if charCount + 1 < 4 {
          TakeEarlyLetter(s, readPos - 1, v, bits, charCount, text, d);
          bits := (bits + d) * 64;
          charCount := charCount + 1;
          v := v + [d];
        } else if outbuflen - outlen < 3 {
          NoRoom(s, readPos - 1, v, bits, charCount, text, d, outbuflen);
          errors := errors + 1;
        } else {
          TakeFourthLetter(s, readPos - 1, v, bits, charCount, text, d);
          bits := bits + d;
          AppendThree(text, bits);
          outlen, text := WriteByte(outbuf, outlen, bits / 65536 % 256, was, text);
          outlen, text := WriteByte(outbuf, outlen, bits / 256 % 256, was, text);
          outlen, text := WriteByte(outbuf, outlen, bits % 256, was, text);
          bits := 0;
          charCount := 0;
          v := v + [d];
        }
      } else {
        SkipChar(s, readPos - 1, v, bits, charCount, text);
      }
    }
    Verdict(s, outbuflen, errors != 0, text, was);
    if outlen < outbuflen {
      OverlaidMore(was, text, 0);
      outbuf[outlen] := 0;
    }
    return if errors != 0 then -1 else outlen;
  }

  /** One `outbuf[outlen++] = c`. */
  method WriteByte(outbuf: array<u8>, outlen: nat, c: u8, ghost was: seq<u8>, ghost text: seq<u8>)
    returns (next: nat, ghost more: seq<u8>)
    requires outlen < outbuf.Length == |was| && outlen == |text| && outbuf[..] == Overlaid(was, text)
    modifies outbuf
    ensures next == outlen + 1 && more == text + [c] && next == |more|
    ensures outbuf[..] == Overlaid(was, more)
    ensures forall k | outlen < k < outbuf.Length :: outbuf[k] == old(outbuf[k])
  {
    OverlaidMore(was, text, c);
    outbuf[outlen] := c;
    return outlen + 1, text + [c];
  }

  lemma {:induction false} LetterRange(c: u8)
    ensures -1 <= LetterValue(c) < 64
  {
  }

  /** What the end of a reading says, in the terms of the method. */
  lemma {:induction false} Verdict(s: seq<u8>, room: nat, failed: bool, text: seq<u8>, was: seq<u8>)
    requires Finished(s, room, failed, text) && |text| <= room <= |was|
    ensures text == Written(s, room) && failed == !Fits(s, room) && (!failed ==> text == Decoded(s).value)
    ensures Terminated(was, text, room) == Overlaid(was, if |text| < room then text + [0] else text)
  {
    hide Decoded;
  }

  /** The inverse of the alphabet, off by one so that 0 marks a foreign character. */
  method DecoderTable() returns (decoder: array<u8>)
    ensures fresh(decoder) && decoder.Length == 256
    ensures forall c: u8 :: decoder[c] == LetterValue(c) + 1
  {
    decoder := new u8[256](_ => 0);
    var v := 63;
    while v >= 0
      invariant -1 <= v <= 63
      invariant forall c: u8 :: decoder[c] == if LetterValue(c) > v then LetterValue(c) + 1 else 0
    {
      decoder[Letter(v)] := v + 1;
      v := v - 1;
    }
  }

  // ---- What the two do together ----

  /** The letters of a quad come first, and the rest follows. */
  lemma {:induction false} SextetsOfQuad(a: Sextet, b: Sextet, c: Sextet, d: Sextet, rest: seq<u8>)
    ensures Sextets([Letter(a), Letter(b), Letter(c), Letter(d)] + rest) == [a, b, c, d] + Sextets(rest)
    ensures PAD in [Letter(a), Letter(b), Letter(c), Letter(d)] + rest <==> PAD in rest
  {
    LettersAreDistinct(a);
    LettersAreDistinct(b);
    LettersAreDistinct(c);
    LettersAreDistinct(d);
    hide Letter, LetterValue;
    var s := [Letter(a), Letter(b), Letter(c), Letter(d)] + rest;
    SextetsHead(s, 0);
    SextetsHead(s, 1);
    SextetsHead(s, 2);
    SextetsHead(s, 3);
    assert s[0..] == s && s[4..] == rest;
    hide Sextets;
  }

  /** A leading quad contributes its three bytes, whatever follows. */
  lemma {:induction false} DecodedQuad(a: Sextet, b: Sextet, c: Sextet, d: Sextet, rest: seq<u8>)
    ensures var s := [Letter(a), Letter(b), Letter(c), Letter(d)] + rest;
      && Decoded(s).None? == Decoded(rest).None?
      && (Decoded(s).Some? ==> Decoded(s).value == Group(a, b, c, d) + Decoded(rest).value)
  {
    SextetsOfQuad(a, b, c, d, rest);
    var v, w := [a, b, c, d] + Sextets(rest), Sextets(rest);
    assert v[4..] == w;
    assert Pending(v) == Pending(w);
    hide Sextets, Letter, Group;
  }

  lemma {:induction false} QuadIsGroup(x: seq<u8>)
    requires |x| >= 3
    ensures Group(x[0] / 4, x[0] % 4 * 16 + x[1] / 16, x[1] % 16 * 4 + x[2] / 64, x[2] % 64) == x[..3]
  {
  }

  /** Decoding an encoding gives back every byte sequence. */
  lemma {:induction false} RoundTrip(x: seq<u8>)
    ensures Decoded(Encoded(x)) == Some(x)
  {
    if |x| >= 3 {
      RoundTrip(x[3..]);
      QuadIsGroup(x);
      DecodedQuad(x[0] / 4, x[0] % 4 * 16 + x[1] / 16, x[1] % 16 * 4 + x[2] / 64, x[2] % 64, Encoded(x[3..]));
      hide Group, Decoded, Letter;
      assert x == x[..3] + x[3..];
    } else {
      LastRoundTrip(x);
    }
  }

  lemma {:induction false} LastRoundTrip(x: seq<u8>)
    requires |x| < 3
    ensures Decoded(Encoded(x)) == Some(x)
  {
    var e := Encoded(x);
    if |x| > 0 {
      var a, b := x[0] / 4, x[0] % 4 * 16 + if |x| == 2 then x[1] / 16 else 0;
      LettersAreDistinct(a);
      LettersAreDistinct(b);
      SextetsHead(e, 0);
      SextetsHead(e, 1);
      SextetsHead(e, 2);
      if |x| == 2 {
        LettersAreDistinct(x[1] % 16 * 4);
        SextetsHead(e, 3);
      }
      assert e[0..] == e && PAD == e[3] && PAD in e;
      if |x| == 1 {
        assert Sextets(e) == [x[0] / 4, x[0] % 4 * 16];
        LastOne(x, e);
      } else {
        assert Sextets(e) == [x[0] / 4, x[0] % 4 * 16 + x[1] / 16, x[1] % 16 * 4];
        LastTwo(x, e);
      }
    } else {
      DecodedNothing();
    }
  }

  lemma {:induction false} DecodedNothing()
    ensures Decoded([]) == Some([])
  {
    var v := Sextets([]);
    assert v == [] && Pending(v) == [];
    assert Groups(v) + Tail(Pending(v)) == [];
  }

  lemma {:induction false} SplitByte(a: int, b: int)
    requires 0 <= a < 256 && 0 <= b < 256
    ensures a / 4 * 4 + (a % 4 * 16 + b / 16) / 16 == a && (a % 4 * 16 + b / 16) % 16 == b / 16
    ensures a / 16 * 16 + a % 16 * 4 / 4 == a
  {
  }

  lemma {:induction false} LastOne(x: seq<u8>, e: seq<u8>)
    requires |x| == 1 && PAD in e && Sextets(e) == [x[0] / 4, x[0] % 4 * 16]
    ensures Decoded(e) == Some(x)
  {
    hide Sextets;
    LastGroup(e);
    hide Decoded, Tail;
    OneByte(x[0]);
    assert x == [x[0]];
  }

  lemma {:induction false} LastTwo(x: seq<u8>, e: seq<u8>)
    requires |x| == 2 && PAD in e && Sextets(e) == [x[0] / 4, x[0] % 4 * 16 + x[1] / 16, x[1] % 16 * 4]
    ensures Decoded(e) == Some(x)
  {
    hide Sextets;
    LastGroup(e);
    hide Decoded, Tail;
    TwoBytes(x[0], x[1]);
    assert x == [x[0], x[1]];
  }

  lemma {:induction false} OneByte(a: u8)
    ensures Tail([a / 4, a % 4 * 16]) == [a]
  {
    SplitByte(a, 0);
    TailOfTwo(a / 4, a % 4 * 16);
    hide Tail;
  }

  lemma {:induction false} TwoBytes(a: u8, b: u8)
    ensures Tail([a / 4, a % 4 * 16 + b / 16, b % 16 * 4]) == [a, b]
  {
    SplitByte(a, b);
    SplitByte(b, 0);
    TailOfThree(a / 4, a % 4 * 16 + b / 16, b % 16 * 4);
    hide Tail;
  }

  /** A padded text of two or three letters is its last group. */
  lemma {:induction false} LastGroup(e: seq<u8>)
    requires PAD in e && 2 <= |Sextets(e)| < 4
    ensures Decoded(e) == Some(Tail(Sextets(e)))
  {
    var v := Sextets(e);
    assert Pending(v) == v && Groups(v) == [];
    hide Sextets, Tail, Groups, Pending;
    assert [] + Tail(v) == Tail(v);
  }

  lemma {:induction false} TailOfTwo(a: Sextet, b: Sextet)
    ensures Tail([a, b]) == [a as int * 4 + b as int / 16]
  {
  }

  lemma {:induction false} TailOfThree(a: Sextet, b: Sextet, c: Sextet)
    ensures Tail([a, b, c]) == [a as int * 4 + b as int / 16, b as int % 16 * 16 + c as int / 4]
  {
  }

  /** Different data have different encodings. */
  lemma EncodingIsInjective(x: seq<u8>, y: seq<u8>)
    requires Encoded(x) == Encoded(y)
    ensures x == y
  {
    RoundTrip(x);
    RoundTrip(y);
  }

  /** Without the characters that are neither letters nor padding. */
  function Stripped(s: seq<u8>): seq<u8> {
    if s == [] then [] else if Printable(s[0]) then [s[0]] + Stripped(s[1..]) else Stripped(s[1..])
  }

  lemma {:induction false} StrippedSextets(s: seq<u8>)
    ensures Sextets(Stripped(s)) == Sextets(s)
    ensures PAD in Stripped(s) <==> PAD in s
  {
    hide LetterValue;
    if s != [] {
      StrippedSextets(s[1..]);
      assert s == [s[0]] + s[1..];
      assert ([s[0]] + Stripped(s[1..]))[1..] == Stripped(s[1..]);
    }
  }

  /** Line breaks, spaces and anything else foreign, anywhere in the text, make no difference. */
  lemma ForeignCharactersAreIgnored(s: seq<u8>, x: seq<u8>)
    ensures Decoded(Stripped(s)) == Decoded(s)
    ensures Stripped(s) == Encoded(x) ==> Decoded(s) == Some(x)
  {
    StrippedSextets(s);
    RoundTrip(x);
    hide Sextets, Groups, Stripped, Encoded;
  }

  /**
   * An encoding that was cut short is refused exactly when the cut is inside a quad, except when all it lost is
   * the second of two padding characters. A cut between quads gives the data up to there.
   */
  lemma {:induction false} TruncationIsDetected(x: seq<u8>, k: nat)
    requires k < |Encoded(x)|
    ensures Decoded(Encoded(x)[..k]).None? <==> k % 4 != 0 && !(|x| % 3 == 1 && k == |Encoded(x)| - 1)
    ensures k % 4 == 0 ==> k / 4 * 3 <= |x| && Decoded(Encoded(x)[..k]) == Some(x[..k / 4 * 3])
  {
    hide Decoded, Encoded;
    EncodedSize(x);
    if k < 4 {
      hide EncodedLength;
      FirstQuadCut(x, k);
      SmallSize(x, k);
    } else {
      EncodedSize(x[3..]);
      CutSizes(|x|, k);
      hide EncodedLength;
      TruncationIsDetected(x[3..], k - 4);
      CutAfterQuad(x, k);
      if k % 4 == 0 {
        assert x[..3] + x[3..][..(k - 4) / 4 * 3] == x[..k / 4 * 3];
      }
    }
  }

  lemma {:induction false} CutSizes(n: nat, k: nat)
    requires 4 <= k < EncodedLength(n)
    ensures n >= 3 && EncodedLength(n) == 4 + EncodedLength(n - 3)
    ensures k / 4 * 3 == 3 + (k - 4) / 4 * 3 && k % 4 == (k - 4) % 4 && n % 3 == (n - 3) % 3
    ensures k % 4 == 0 ==> k / 4 * 3 <= n
  {
  }

  lemma {:induction false} SmallSize(x: seq<u8>, k: nat)
    requires k < 4 && k < EncodedLength(|x|)
    ensures |x| > 0 && (k == EncodedLength(|x|) - 1 <==> k == 3 && |x| <= 3)
  {
  }

  lemma {:induction false} CutAfterQuad(x: seq<u8>, k: nat)
    requires |x| >= 3 && 4 <= k < |Encoded(x)| && |Encoded(x)| == 4 + |Encoded(x[3..])|
    ensures var cut := Decoded(Encoded(x[3..])[..k - 4]);
      Decoded(Encoded(x)[..k]) == if cut.None? then None else Some(x[..3] + cut.value)
  {
    QuadIsGroup(x);
    DecodedQuad(x[0] / 4, x[0] % 4 * 16 + x[1] / 16, x[1] % 16 * 4 + x[2] / 64, x[2] % 64, Encoded(x[3..])[..k - 4]);
    hide Decoded, Letter, Group;
    assert Encoded(x)[..k] == Quad(x) + Encoded(x[3..])[..k - 4];
  }

  lemma {:induction false} FirstQuadCut(x: seq<u8>, k: nat)
    requires k < 4 && k < |Encoded(x)|
    ensures Decoded(Encoded(x)[..k]).None? <==> k != 0 && !(|x| == 1 && k == 3)
    ensures k == 0 ==> Decoded(Encoded(x)[..k]) == Some([])
  {
    var s := Encoded(x)[..k];
    if k > 0 {
      FirstLetters(x);
      SextetsHead(s, 0);
    }
    if k > 1 {
      SextetsHead(s, 1);
    }
    if k > 2 {
      SextetsHead(s, 2);
    }
    assert s[0..] == s && s[k..] == [];
    DecodedNothing();
    assert k == 0 ==> s == [];
    hide Letter, LetterValue, Encoded, Groups, Tail, Pending, Group;
    assert PAD in s <==> k == 3 && |x| == 1;
    assert |Sextets(s)| == if k == 3 && |x| == 1 then 2 else k;
  }

  lemma {:induction false} FirstLetters(x: seq<u8>)
    requires |x| > 0
    ensures |Encoded(x)| >= 4
    ensures var e := Encoded(x);
      && LetterValue(e[0]) >= 0 && e[0] != PAD && LetterValue(e[1]) >= 0 && e[1] != PAD
      && (e[2] == PAD <==> |x| == 1) && (e[2] != PAD ==> LetterValue(e[2]) >= 0)
  {
    LettersAreDistinct(x[0] / 4);
    LettersAreDistinct(x[0] % 4 * 16 + if |x| >= 2 then x[1] / 16 else 0);
    if |x| >= 2 {
      LettersAreDistinct(x[1] % 16 * 4 + if |x| >= 3 then x[2] / 64 else 0);
    }
  }

  /** A text never decodes to more than three quarters of its length, so in-place decoding always has room. */
  lemma {:induction false} InPlaceAlwaysHasRoom(s: seq<u8>)
    ensures Decoded(s).Some? ==> 4 * |Decoded(s).value| <= 3 * |s|
    ensures Fits(s, |s|) <==> Decoded(s).Some?
  {
    DecodedSize(s);
    SextetsCount(s);
    hide Sextets;
  }

  lemma {:induction false} SextetsCount(s: seq<u8>)
    ensures |Sextets(s)| + (if PAD in s then 1 else 0) <= |s|
  {
    if s != [] {
      SextetsCount(s[1..]);
      assert s == [s[0]] + s[1..];
    }
  }
}
