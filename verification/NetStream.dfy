/**
 * The typed byte stream of the network module: little-endian integers, floats by their bits,
 * and strings with a 16-bit length, written to and read from one buffer.
 */
module NetStream {
  import opened Basics
  import opened Bytes

  type u16 = x: int | 0 <= x < 0x1_0000
  type u32 = x: int | 0 <= x < 0x1_0000_0000

  // ----- what is on the wire

  /** A C string is its bytes up to the first zero, or all of them when there is none: the
      terminating zero follows. */
  datatype Value =
    | VU8(n8: byte)
    | VU16(n16: u16)
    | VU32(n32: u32)
    | VF32(bits: u32)
    | VString(text: seq<byte>, maxLen: u16)

  /** What a reader asks for; for a string, the size of its buffer. */
  datatype Kind = KU8 | KU16 | KU32 | KF32 | KString(room: u16)

  datatype Shown = Number(n: nat) | Text(s: seq<byte>)

  function TextLength(text: seq<byte>, maxLen: u16, n: nat): (len: nat)
    requires n <= |text| && (n == 0 || n < maxLen)
    ensures n <= len <= |text| && (len == n || len < maxLen)
    decreases |text| - n
  {
    if n < maxLen - 1 && n < |text| && text[n] != 0 then TextLength(text, maxLen, n + 1) else n
  }

  /** The part of a string that is sent: cut at the first zero and at maxLen - 1 bytes. */
  function Cut(text: seq<byte>, maxLen: u16): (s: seq<byte>)
    ensures |s| < 0x1_0000 && (|s| == 0 || |s| < maxLen)
  {
    text[..TextLength(text, maxLen, 0)]
  }

  lemma {:induction false} TextLengthIs(text: seq<byte>, maxLen: u16, n: nat)
    requires n <= |text| && (n == 0 || n < maxLen)
    ensures var e := TextLength(text, maxLen, n);
            && 0 !in text[n..e]
            && (e == |text| || text[e] == 0 || e + 1 >= maxLen)
    decreases |text| - n
  {
    if n < maxLen - 1 && n < |text| && text[n] != 0 {
      TextLengthIs(text, maxLen, n + 1);
      var e := TextLength(text, maxLen, n + 1);
      assert text[n..e] == [text[n]] + text[n + 1..e];
    }
  }

  /** What is sent is the longest beginning of the text without a zero byte that leaves room
      for the terminating zero in maxLen bytes. */
  lemma CutIsLongest(text: seq<byte>, maxLen: u16)
    ensures var s := Cut(text, maxLen);
            && s <= text && 0 !in s
            && (|s| == |text| || text[|s|] == 0 || |s| + 1 >= maxLen)
  {
    TextLengthIs(text, maxLen, 0);
    assert text[0..|Cut(text, maxLen)|] == Cut(text, maxLen);
  }

  /** A text without zero bytes that is shorter than maxLen is sent whole. */
  lemma ShortTextIsWhole(text: seq<byte>, maxLen: u16)
    requires 0 !in text && |text| < maxLen
    ensures Cut(text, maxLen) == text
  {
    CutIsLongest(text, maxLen);
    forall k | 0 <= k < |text|
      ensures text[k] != 0
    {
      assert text[k] in text;
    }
    assert text[..|text|] == text;
  }

  function Bytes16(n: u16): (s: seq<byte>) {
    [Low(n), High(n)]
  }

  function Bytes32(n: u32): (s: seq<byte>) {
    [n % 256, n / 256 % 256, n / 65536 % 256, n / 16777216]
  }

  /** Numbers travel with their lowest byte first. */
  lemma LowestFirst(n: u32)
    ensures |Bytes32(n)| == 4 && LittleEndian(Bytes32(n)) == n
    ensures n < 0x1_0000 ==> |Bytes16(n)| == 2 && LittleEndian(Bytes16(n)) == n
  {
    if n < 0x1_0000 {
      LowFirst(n);
    }
    FourBytes(n % 256, n / 256 % 256, n / 65536 % 256, n / 16777216);
    Digits32(n);
  }

  lemma FourBytes(b0: byte, b1: byte, b2: byte, b3: byte)
    ensures LittleEndian([b0, b1, b2, b3]) == U32(b0, b1, b2, b3)
  {
    assert [b0, b1, b2, b3][1..] == [b1, b2, b3];
    assert [b1, b2, b3][1..] == [b2, b3];
    assert [b2, b3][1..] == [b3];
    assert [b3][1..] == [];
    assert LittleEndian([]) == 0;
    assert LittleEndian([b3]) == b3;
    assert LittleEndian([b2, b3]) == b2 + 256 * b3;
  }

  function Wire(v: Value): seq<byte> {
    match v
    case VU8(n) => [n]
    case VU16(n) => Bytes16(n)
    case VU32(n) => Bytes32(n)
    case VF32(n) => Bytes32(n)
    case VString(text, maxLen) => Bytes16(|Cut(text, maxLen)|) + Cut(text, maxLen)
  }

  function WireAll(vs: seq<Value>): seq<byte> {
    if vs == [] then [] else Wire(vs[0]) + WireAll(vs[1..])
  }

  // ----- reading

  function Read8(data: seq<byte>, pos: nat): (nat, nat) {
    if pos + 1 > |data| then (0, pos) else (data[pos], pos + 1)
  }

  function Read16(data: seq<byte>, pos: nat): (nat, nat) {
    if pos + 2 > |data| then (0, pos) else (U16(data[pos], data[pos + 1]), pos + 2)
  }

  function U32(b0: byte, b1: byte, b2: byte, b3: byte): (n: nat)
    ensures n < 0x1_0000_0000
  {
    b0 as int + 256 * b1 + 65536 * b2 + 16777216 * b3
  }

  function Read32(data: seq<byte>, pos: nat): (nat, nat) {
    if pos + 4 > |data| then (0, pos)
    else (U32(data[pos], data[pos + 1], data[pos + 2], data[pos + 3]), pos + 4)
  }

  /** A string is cut to the reader's buffer, but always passed over whole. A length that
      points past the end has been consumed all the same. */
  function ReadText(data: seq<byte>, pos: nat, room: u16): (seq<byte>, nat) {
    if room == 0 then ([], pos)
    else
      var (len, p) := Read16(data, pos);
      if len == 0 || p + len > |data| then ([], p)
      else (data[p..p + if len < room - 1 then len else room - 1], p + len)
  }

  function Read(kind: Kind, data: seq<byte>, pos: nat): (Shown, nat) {
    match kind
    case KU8 => var (n, p) := Read8(data, pos); (Number(n), p)
    case KU16 => var (n, p) := Read16(data, pos); (Number(n), p)
    case KU32 => var (n, p) := Read32(data, pos); (Number(n), p)
    case KF32 => var (n, p) := Read32(data, pos); (Number(n), p)
    case KString(room) => var (s, p) := ReadText(data, pos, room); (Text(s), p)
  }

  function ReadAll(kinds: seq<Kind>, data: seq<byte>, pos: nat): (seq<Shown>, nat) {
    if kinds == [] then ([], pos)
    else
      var (x, p) := Read(kinds[0], data, pos);
      var (xs, q) := ReadAll(kinds[1..], data, p);
      ([x] + xs, q)
  }

  // ----- round trip

  /** What a reader of the kind sees: a number, or as much of the text as its buffer holds
      beside the terminating zero. */
  function Seen(v: Value, kind: Kind): Shown
    requires Fits(kind, v)
  {
    match v
    case VU8(n) => Number(n)
    case VU16(n) => Number(n)
    case VU32(n) => Number(n)
    case VF32(n) => Number(n)
    case VString(text, maxLen) => Text(Beginning(Cut(text, maxLen), kind.room - 1))
  }

  function Beginning(s: seq<byte>, n: nat): (r: seq<byte>)
    ensures r <= s && |r| <= n && (|r| == |s| || |r| == n)
  {
    if |s| <= n then s else s[..n]
  }

  /** The reader asks for the kind that was written, with some room for a string. */
  predicate Fits(kind: Kind, v: Value) {
    match v
    case VU8(_) => kind.KU8?
    case VU16(_) => kind.KU16?
    case VU32(_) => kind.KU32?
    case VF32(_) => kind.KF32?
    case VString(_, _) => kind.KString? && kind.room > 0
  }

  /** A text without zero bytes is seen whole by a reader with more room, if it was not cut. */
  lemma WholeTextSeen(text: seq<byte>, maxLen: u16, room: u16)
    requires 0 !in text && |text| < maxLen && |text| < room
    ensures Seen(VString(text, maxLen), KString(room)) == Text(text)
  {
    ShortTextIsWhole(text, maxLen);
  }

  lemma Digits32(n: u32)
    ensures U32(n % 256, n / 256 % 256, n / 65536 % 256, n / 16777216) == n
  {
    assert n / 65536 == n / 256 / 256;
    assert n / 16777216 == n / 65536 / 256;
  }

  lemma Read16Of(before: seq<byte>, n: u16, after: seq<byte>)
    ensures Read16(before + (Bytes16(n) + after), |before|) == (n, |before| + 2)
  {
    U16RoundTrip(n);
    var data := before + (Bytes16(n) + after);
    assert data[|before|] == Low(n) && data[|before| + 1] == High(n);
  }

  lemma Read32Of(before: seq<byte>, n: u32, after: seq<byte>)
    ensures Read32(before + (Bytes32(n) + after), |before|) == (n, |before| + 4)
  {
    Digits32(n);
    var data := before + (Bytes32(n) + after);
    assert data[|before|..|before| + 4] == Bytes32(n);
    assert forall k :: 0 <= k < 4 ==> data[|before| + k] == Bytes32(n)[k];
  }

  lemma ReadTextOf(before: seq<byte>, s: seq<byte>, after: seq<byte>, room: u16)
    requires 0 < room && |s| < 0x1_0000
    ensures ReadText(before + (Bytes16(|s|) + s + after), |before|, room)
         == (Beginning(s, room - 1), |before| + 2 + |s|)
  {
    var data := before + (Bytes16(|s|) + s + after);
    assert Bytes16(|s|) + s + after == Bytes16(|s|) + (s + after);
    Read16Of(before, |s|, s + after);
    assert data[|before| + 2..|before| + 2 + |s|] == s;
    var n := if |s| < room - 1 then |s| else room - 1;
    assert data[|before| + 2..|before| + 2 + n] == s[..n];
  }

  /** Wherever a value lies in the buffer, reading its kind there shows it and ends right
      behind it, also when a string is longer than the reader's buffer. */
  lemma ReadBack(before: seq<byte>, v: Value, after: seq<byte>, kind: Kind)
    requires Fits(kind, v)
    ensures Read(kind, before + (Wire(v) + after), |before|) == (Seen(v, kind), |before| + |Wire(v)|)
  {
    hide Cut, Read16, Read32, ReadText, Bytes16, Bytes32, Beginning;
    match v
    case VU8(n) =>
    case VU16(n) => Read16Of(before, n, after);
      Length16(n);
    case VU32(n) => Read32Of(before, n, after);
      Length32(n);
    case VF32(n) => Read32Of(before, n, after);
      Length32(n);
    case VString(text, maxLen) => ReadTextOf(before, Cut(text, maxLen), after, kind.room);
      Length16(|Cut(text, maxLen)|);
  }

  /** How many bytes the kind takes up in front. */
  function Width(kind: Kind): nat {
    match kind
    case KU8 => 1
    case KU16 => 2
    case KU32 => 4
    case KF32 => 4
    case KString(_) => 2
  }

  /** A read fails exactly at the end of the data, with zero or no text, and does not move; but
      of a string whose length is there and whose text is not, the length is consumed. */
  lemma ReadAtEnd(kind: Kind, data: seq<byte>, pos: nat)
    requires pos <= |data|
    ensures pos + Width(kind) > |data| ==>
              Read(kind, data, pos) == (if kind.KString? then Text([]) else Number(0), pos)
    ensures pos + Width(kind) <= |data| && !kind.KString? ==> Read(kind, data, pos).1 == pos + Width(kind)
    ensures kind.KString? && pos + 2 <= |data| ==>
              if kind.room == 0 then Read(kind, data, pos) == (Text([]), pos)
              else var len := U16(data[pos], data[pos + 1]);
                   if pos + 2 + len > |data| then Read(kind, data, pos) == (Text([]), pos + 2)
                   else Read(kind, data, pos).1 == pos + 2 + len
  {
    hide U16;
  }

  lemma Length16(n: u16)
    ensures |Bytes16(n)| == 2
  {
  }

  lemma Length32(n: u32)
    ensures |Bytes32(n)| == 4
  {
  }

  /** The reader asks for the kinds that were written. */
  ghost predicate AllFit(kinds: seq<Kind>, vs: seq<Value>) {
    |kinds| == |vs| && forall k :: 0 <= k < |vs| ==> Fits(kinds[k], vs[k])
  }

  lemma AllFitCons(kinds: seq<Kind>, vs: seq<Value>)
    requires AllFit(kinds, vs) && vs != []
    ensures kinds != [] && Fits(kinds[0], vs[0]) && AllFit(kinds[1..], vs[1..])
  {
    hide Fits;
    var ks, ws := kinds[1..], vs[1..];
    assert forall k :: 0 <= k < |ws| ==> ks[k] == kinds[k + 1] && ws[k] == vs[k + 1];
  }

  function SeenAll(vs: seq<Value>, kinds: seq<Kind>): seq<Shown>
    requires AllFit(kinds, vs)
  {
    if vs == [] then [] else
      AllFitCons(kinds, vs);
      [Seen(vs[0], kinds[0])] + SeenAll(vs[1..], kinds[1..])
  }

  lemma WireCons(vs: seq<Value>, kinds: seq<Kind>)
    requires vs != [] && AllFit(kinds, vs)
    ensures WireAll(vs) == Wire(vs[0]) + WireAll(vs[1..])
    ensures kinds != [] && Fits(kinds[0], vs[0]) && AllFit(kinds[1..], vs[1..])
    ensures SeenAll(vs, kinds) == [Seen(vs[0], kinds[0])] + SeenAll(vs[1..], kinds[1..])
  {
    AllFitCons(kinds, vs);
    hide Wire, Seen, Fits;
  }

  lemma NothingRead(kinds: seq<Kind>, vs: seq<Value>, data: seq<byte>, pos: nat)
    requires AllFit(kinds, vs) && vs == []
    ensures ReadAll(kinds, data, pos) == (SeenAll(vs, kinds), pos) && WireAll(vs) == []
  {
  }

  /** Stream round trip: reading the same kinds from the bytes written shows the same values
      and ends where writing ended, whatever follows and however small the readers' buffers
      are, as long as they hold a terminating zero. */
  lemma {:induction false} StreamRoundTrip(before: seq<byte>, vs: seq<Value>, kinds: seq<Kind>, after: seq<byte>)
    requires AllFit(kinds, vs)
    ensures ReadAll(kinds, before + (WireAll(vs) + after), |before|)
         == (SeenAll(vs, kinds), |before| + |WireAll(vs)|)
    decreases |vs|
  {
    hide *;
    if vs == [] {
      NothingRead(kinds, vs, before + (WireAll(vs) + after), |before|);
    } else {
      var w, rest := Wire(vs[0]), WireAll(vs[1..]);
      WireCons(vs, kinds);
      Regroup(before, w, rest, after);
      ReadBack(before, vs[0], rest + after, kinds[0]);
      StreamRoundTrip(before + w, vs[1..], kinds[1..], after);
      ReadAllStep(kinds, before + (WireAll(vs) + after), |before|);
    }
  }

  lemma ReadAllStep(kinds: seq<Kind>, data: seq<byte>, pos: nat)
    requires kinds != []
    ensures var (x, p) := Read(kinds[0], data, pos);
            var (xs, q) := ReadAll(kinds[1..], data, p);
            ReadAll(kinds, data, pos) == ([x] + xs, q)
  {
  }

  lemma {:induction false} WireAllAppend(vs: seq<Value>, v: Value)
    ensures WireAll(vs + [v]) == WireAll(vs) + Wire(v)
    decreases |vs|
  {
    if vs == [] {
      assert vs + [v] == [v] && [v][1..] == [];
    } else {
      WireAllAppend(vs[1..], v);
      assert (vs + [v])[1..] == vs[1..] + [v];
      ConcatAssoc(Wire(vs[0]), WireAll(vs[1..]), Wire(v));
    }
  }

  lemma Regroup(a: seq<byte>, b: seq<byte>, c: seq<byte>, d: seq<byte>)
    ensures a + ((b + c) + d) == a + (b + (c + d)) == (a + b) + (c + d)
  {
    assert (b + c) + d == b + (c + d);
    ConcatAssoc(a, b, c + d);
  }

  /** A float is written like the number that its bits are. */
  lemma SameWire(vs: seq<Value>, bits: u32)
    ensures WireAll(vs + [VU32(bits)]) == WireAll(vs + [VF32(bits)])
  {
    WireAllAppend(vs, VU32(bits));
    WireAllAppend(vs, VF32(bits));
  }

  lemma StringWire(text: seq<byte>, maxLen: u16)
    ensures var n := |Cut(text, maxLen)|;
            && |Bytes16(n)| == 2 && Wire(VU16(n)) == Bytes16(n)
            && Wire(VString(text, maxLen)) == Bytes16(n) + Cut(text, maxLen)
  {
  }

  // ----- the program

  method MeasureText(text: seq<byte>, maxLen: u16) returns (len: nat)
    ensures len <= |text| && len == |Cut(text, maxLen)| && text[..len] == Cut(text, maxLen)
  {
    len := 0;
    while len < maxLen - 1 && len < |text| && text[len] != 0
      invariant len <= |text| && (len == 0 || len < maxLen)
      invariant TextLength(text, maxLen, len) == TextLength(text, maxLen, 0)
    {
      len := len + 1;
    }
  }

  class Stream {
    const buf: array<byte>
    const isRead: bool
    var pos: nat
    var overflow: bool

    /** The values written so far, the lengths of strings whose text did not fit, and the
        values written before the first of those. */
    ghost var written: seq<Value>
    ghost var torn: nat
    ghost var intact: seq<Value>

    ghost predicate Valid()
      reads this, buf
    {
      && pos <= buf.Length
      && (!isRead ==>
            && |WireAll(written)| + 2 * torn == pos
            && intact <= written && (torn == 0 ==> intact == written)
            && |WireAll(intact)| <= pos && WireAll(intact) == buf[..|WireAll(intact)|])
    }

    constructor (buf: array<byte>, isRead: bool)
      ensures Valid() && this.buf == buf && this.isRead == isRead && pos == 0 && !overflow
      ensures written == [] && torn == 0 && intact == []
    {
      this.buf, this.isRead := buf, isRead;
      pos, overflow, written, torn, intact := 0, false, [], 0, [];
    }

    /** The bytes written are those of the values written, exactly when no string was cut off
        after its length; a failed write of any other kind does no harm. */
    lemma BytesIffNotTorn()
      requires Valid() && !isRead
      ensures buf[..pos] == WireAll(written) <==> torn == 0
    {
      hide WireAll;
    }

    /** All values written before the first such string read back, whatever follows them; if
        there is none, these are all values, and reading ends where writing did. */
    lemma WrittenReadsBack(kinds: seq<Kind>)
      requires Valid() && !isRead && AllFit(kinds, intact)
      ensures ReadAll(kinds, buf[..], 0) == (SeenAll(intact, kinds), |WireAll(intact)|)
      ensures torn == 0 ==> ReadAll(kinds, buf[..], 0) == (SeenAll(written, kinds), pos)
    {
      hide WireAll, ReadAll, SeenAll, AllFit;
      var n := |WireAll(intact)|;
      assert buf[..] == [] + (WireAll(intact) + buf[n..]);
      StreamRoundTrip([], intact, kinds, buf[n..]);
    }

    /** Note a value whose bytes have just been appended to the bytes of `before`. */
    ghost method Note(v: Value, before: seq<byte>)
      requires !isRead && pos <= buf.Length && |before| <= pos && buf[..pos] == before + Wire(v)
      requires |WireAll(written)| + 2 * torn == |before|
      requires intact <= written && (torn == 0 ==> intact == written)
      requires |WireAll(intact)| <= |before| && WireAll(intact) == before[..|WireAll(intact)|]
      modifies this`written, this`intact
      ensures Valid() && written == old(written) + [v]
      ensures intact == if torn == 0 then old(intact) + [v] else old(intact)
    {
      WireAllAppend(written, v);
      hide WireAll, Wire;
      ghost var n := |WireAll(intact)|;
      assert buf[..n] == before[..n] by {
        assert buf[..n] == buf[..pos][..n];
      }
      if torn == 0 {
        assert before[..n] == before;
        intact := intact + [v];
      }
      written := written + [v];
    }

    /** Append bytes, or record an overflow and write nothing. */
    method Append(bytes: seq<byte>) returns (ok: bool)
      requires pos <= buf.Length
      modifies this`pos, this`overflow, buf
      ensures pos <= buf.Length
      ensures ok <==> !isRead && old(pos) + |bytes| <= buf.Length
      ensures if ok then pos == old(pos) + |bytes| && buf[..pos] == old(buf[..pos]) + bytes
                         && buf[pos..] == old(buf[pos + |bytes|..]) && overflow == old(overflow)
              else pos == old(pos) && buf[..] == old(buf[..]) && overflow == (old(overflow) || !isRead)
    {
      if isRead {
        return false;
      }
      if pos + |bytes| > buf.Length {
        overflow := true;
        return false;
      }
      Emit(buf, pos, bytes);
      pos := pos + |bytes|;
      ok := true;
    }

    method WriteU8(n: byte) returns (ok: bool)
      requires Valid()
      modifies this, buf
      ensures Valid() && Written(VU8(n), ok, old(pos), old(buf[..]), old(overflow))
      ensures Noted(VU8(n), ok, old(written), old(torn), old(intact))
    {
      hide WireAll;
      ghost var before := buf[..pos];
      ok := Append([n]);
      if ok {
        Note(VU8(n), before);
      }
    }

    method WriteU16(n: u16) returns (ok: bool)
      requires Valid()
      modifies this, buf
      ensures Valid() && Written(VU16(n), ok, old(pos), old(buf[..]), old(overflow))
      ensures Noted(VU16(n), ok, old(written), old(torn), old(intact))
    {
      hide WireAll;
      ghost var before := buf[..pos];
      ok := Append([Low(n), High(n)]);
      if ok {
        Note(VU16(n), before);
      }
    }

    method WriteU32(n: u32) returns (ok: bool)
      requires Valid()
      modifies this, buf
      ensures Valid() && Written(VU32(n), ok, old(pos), old(buf[..]), old(overflow))
      ensures Noted(VU32(n), ok, old(written), old(torn), old(intact))
    {
      hide WireAll;
      ghost var before := buf[..pos];
      ok := Append([n % 256, n / 256 % 256, n / 65536 % 256, n / 16777216]);
      if ok {
        Note(VU32(n), before);
      }
    }

    method WriteF32(bits: u32) returns (ok: bool)
      requires Valid()
      modifies this, buf
      ensures Valid() && Written(VF32(bits), ok, old(pos), old(buf[..]), old(overflow))
      ensures Noted(VF32(bits), ok, old(written), old(torn), old(intact))
    {
      SameWire(written, bits);
      SameWire(intact, bits);
      hide WireAll;
      ghost var values, whole := written, intact;
      ok := WriteU32(bits);
      if ok {
        written := values + [VF32(bits)];
        intact := if torn == 0 then whole + [VF32(bits)] else whole;
      }
    }

    method WriteString(text: seq<byte>, maxLen: u16) returns (ok: bool)
      requires Valid()
      modifies this, buf
      ensures Valid()
      ensures ok <==> !isRead && old(pos) + |Wire(VString(text, maxLen))| <= buf.Length
      ensures ok || isRead || old(pos) + 2 > buf.Length ==>
                && Written(VString(text, maxLen), ok, old(pos), old(buf[..]), old(overflow))
                && Noted(VString(text, maxLen), ok, old(written), old(torn), old(intact))
      // A length that fits stays in the stream even when its text does not.
      ensures !ok && !isRead && old(pos) + 2 <= buf.Length ==>
                && pos == old(pos) + 2 && overflow
                && buf[..pos] == old(buf[..pos]) + Bytes16(|Cut(text, maxLen)|)
                && buf[pos..] == old(buf[pos + 2..])
                && torn == old(torn) + 1 && written == old(written) && intact == old(intact)
    {
      var len := MeasureText(text, maxLen);
      hide WireAll, Wire, Cut, Bytes16;
      ghost var b, p, values, whole := buf[..], pos, written, intact;
      ok := WriteU16(len);
      StringWire(text, maxLen);
      if !ok {
        return;
      }
      written, intact := values, whole;
      assert buf[..pos] == b[..p] + Bytes16(len) && buf[pos..] == b[pos..];
      assert buf[..|WireAll(whole)|] == b[..|WireAll(whole)|] by {
        assert buf[..|WireAll(whole)|] == buf[..pos][..|WireAll(whole)|];
      }
      ok := Append(text[..len]);
      if ok {
        ConcatAssoc(b[..p], Bytes16(len), text[..len]);
        assert buf[..pos] == b[..p] + Wire(VString(text, maxLen));
        assert buf[pos..] == b[pos..];
        Note(VString(text, maxLen), b[..p]);
      } else {
        torn := torn + 1;
      }
    }

    method ReadU8() returns (n: byte)
      requires Valid()
      modifies this`pos
      ensures Valid()
      ensures (n as nat, pos) == if isRead then Read8(buf[..], old(pos)) else (0, old(pos))
    {
      if !isRead || pos + 1 > buf.Length {
        return 0;
      }
      n := buf[pos];
      pos := pos + 1;
    }

    method ReadU16() returns (n: u16)
      requires Valid()
      modifies this`pos
      ensures Valid()
      ensures (n as nat, pos) == if isRead then Read16(buf[..], old(pos)) else (0, old(pos))
    {
      if !isRead || pos + 2 > buf.Length {
        return 0;
      }
      n := U16(buf[pos], buf[pos + 1]);
      pos := pos + 2;
    }

    method ReadU32() returns (n: u32)
      requires Valid()
      modifies this`pos
      ensures Valid()
      ensures (n as nat, pos) == if isRead then Read32(buf[..], old(pos)) else (0, old(pos))
    {
      if !isRead || pos + 4 > buf.Length {
        return 0;
      }
      n := U32(buf[pos], buf[pos + 1], buf[pos + 2], buf[pos + 3]);
      pos := pos + 4;
    }

    method ReadF32() returns (bits: u32)
      requires Valid()
      modifies this`pos
      ensures Valid()
      ensures (bits as nat, pos) == if isRead then Read32(buf[..], old(pos)) else (0, old(pos))
    {
      bits := ReadU32();
    }

    /** Read a string into the caller's buffer, with its terminating zero. */
    method ReadString(dst: array<byte>, room: u16) returns (n: nat)
      requires Valid() && room <= dst.Length && dst != buf
      modifies this`pos, dst
      ensures Valid()
      ensures var (s, p) := if isRead then ReadText(buf[..], old(pos), room) else ([], old(pos));
              && pos == p && n == |s|
              && (room == 0 ==> dst[..] == old(dst[..]))
              && (room > 0 ==> n < room && dst[..n] == s && dst[n] == 0 && dst[n + 1..] == old(dst[n + 1..]))
    {
      if room == 0 {
        return 0;
      }
      var len := ReadU16();
      if len == 0 || pos + len > buf.Length {
        dst[0] := 0;
        return 0;
      }
      n := if len < room - 1 then len else room - 1;
      Emit(dst, 0, buf[pos..pos + n]);
      dst[n] := 0;
      pos := pos + len;
    }

    /** The record of what was written, after a write that may have failed. */
    ghost predicate Noted(v: Value, ok: bool, values: seq<Value>, tears: nat, whole: seq<Value>)
      reads this
    {
      && torn == tears
      && written == (if ok then values + [v] else values)
      && intact == if ok && tears == 0 then whole + [v] else whole
    }

    /** The state after writing a value at position p of buffer b: the wire bytes appended, or
        nothing but the overflow mark. */
    ghost predicate Written(v: Value, ok: bool, p: nat, b: seq<byte>, over: bool)
      reads this, buf
    {
      && (ok <==> !isRead && p + |Wire(v)| <= |b|)
      && |b| == buf.Length && p <= |b|
      && if ok then pos == p + |Wire(v)| && buf[..pos] == b[..p] + Wire(v) && buf[pos..] == b[pos..]
                    && overflow == over
         else pos == p && buf[..] == b && overflow == (over || !isRead)
    }
  }
}
