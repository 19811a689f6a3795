/**
 * The run-length compressor for assets. Two records: a zero tag with a 16-bit length and that
 * many literal bytes, or a one tag with a byte and a 16-bit repeat count.
 */
module RleCodec {
  import opened Basics
  import opened Bytes

  const MAX_CHUNK := 65535
  const MIN_RUN := 4

  // ----- the compressed form of a byte sequence

  /** Length of the run of equal bytes that starts at i, as far as the encoder counts it. */
  function RunFrom(src: seq<byte>, i: nat, run: nat): (r: nat)
    requires i + run <= |src| && 1 <= run <= MAX_CHUNK
    requires forall k :: i <= k < i + run ==> src[k] == src[i]
    ensures run <= r <= MAX_CHUNK && i + r <= |src|
    ensures forall k :: i <= k < i + r ==> src[k] == src[i]
    decreases |src| - run
  {
    if i + run < |src| && src[i + run] == src[i] && run < MAX_CHUNK then RunFrom(src, i, run + 1) else run
  }

  predicate Quad(src: seq<byte>, i: nat) {
    i + 3 < |src| && src[i] == src[i + 1] && src[i + 1] == src[i + 2] && src[i + 2] == src[i + 3]
  }

  /** Four equal bytes make a run, and a run of four starts with four equal bytes. */
  lemma QuadIsRun(src: seq<byte>, i: nat)
    requires i < |src|
    ensures RunFrom(src, i, 1) >= MIN_RUN <==> Quad(src, i)
  {
    if Quad(src, i) {
      assert RunFrom(src, i, 1) == RunFrom(src, i, 2) == RunFrom(src, i, 3) == RunFrom(src, i, 4);
    }
  }

  /** End of the literal that starts at `start`, scanned up to i. */
  function LitEnd(src: seq<byte>, start: nat, i: nat): (e: nat)
    requires start <= i <= |src| && i - start < MAX_CHUNK
    ensures i <= e <= |src| && e - start <= MAX_CHUNK
    ensures e == |src| || Quad(src, e) || e - start == MAX_CHUNK
    decreases |src| - i
  {
    if i == |src| || Quad(src, i) then i
    else if i + 1 - start >= MAX_CHUNK then i + 1
    else LitEnd(src, start, i + 1)
  }

  function RunRecord(b: byte, n: nat): seq<byte> {
    [1, b, Low(n), High(n)]
  }

  function LitRecord(lit: seq<byte>): seq<byte> {
    [0, Low(|lit|), High(|lit|)] + lit
  }

  /** The lengths and counts in the records are 16-bit words, lowest byte first. */
  lemma RecordLengths(b: byte, n: nat, lit: seq<byte>)
    requires n <= MAX_CHUNK && |lit| <= MAX_CHUNK
    ensures LittleEndian(RunRecord(b, n)[2..]) == n && |RunRecord(b, n)| == 4
    ensures LittleEndian(LitRecord(lit)[1..3]) == |lit| && LitRecord(lit)[3..] == lit
  {
    LowFirst(n);
    LowFirst(|lit|);
    assert RunRecord(b, n)[2..] == [Low(n), High(n)];
    assert LitRecord(lit)[1..3] == [Low(|lit|), High(|lit|)];
  }

  /** Position after the first record of the encoding of src[i..]. */
  function RecordEnd(src: seq<byte>, i: nat): (e: nat)
    requires i < |src|
    ensures i < e <= |src| && e - i <= MAX_CHUNK
  {
    QuadIsRun(src, i);
    var run := RunFrom(src, i, 1);
    if run >= MIN_RUN then i + run else LitEnd(src, i, i)
  }

  /** First record of the encoding of src[i..]. */
  function Record(src: seq<byte>, i: nat): (r: seq<byte>)
    requires i < |src|
  {
    var e := RecordEnd(src, i);
    if RunFrom(src, i, 1) >= MIN_RUN then RunRecord(src[i], e - i) else LitRecord(src[i..e])
  }

  function EncodeFrom(src: seq<byte>, i: nat): seq<byte>
    requires i <= |src|
    decreases |src| - i
  {
    if i == |src| then [] else Record(src, i) + EncodeFrom(src, RecordEnd(src, i))
  }

  function Encode(src: seq<byte>): seq<byte> {
    EncodeFrom(src, 0)
  }

  lemma EncodeStep(src: seq<byte>, i: nat)
    requires i <= |src|
    ensures i == |src| ==> EncodeFrom(src, i) == []
    ensures i < |src| ==> EncodeFrom(src, i) == Record(src, i) + EncodeFrom(src, RecordEnd(src, i))
  {
  }

  // ----- decoding

  function Repeat(b: byte, n: nat): (s: seq<byte>)
    ensures |s| == n && forall k :: 0 <= k < n ==> s[k] == b
  {
    seq(n, _ => b)
  }

  /** The bytes that the first record stands for and the length of the record, if it is well
      formed and the bytes fit into `room`. */
  function DecodeRecord(data: seq<byte>, room: nat): (r: Option<(seq<byte>, nat)>)
    requires data != []
    ensures r.Some? ==> |r.value.0| <= room && 0 < r.value.1 <= |data|
  {
    if data[0] == 0 then
      if |data| < 3 then None
      else
        var n := U16(data[1], data[2]);
        if |data| < 3 + n || room < n then None else Some((data[3..3 + n], 3 + n))
    else if data[0] == 1 then
      if |data| < 4 then None
      else
        var n := U16(data[2], data[3]);
        if room < n then None else Some((Repeat(data[1], n), 4))
    else None
  }

  /** The bytes that `data` stands for, if it is well formed and they fit into `room`. */
  function Decode(data: seq<byte>, room: nat): Option<seq<byte>>
    decreases |data|
  {
    if data == [] then Some([])
    else
      match DecodeRecord(data, room)
      case None => None
      case Some((chunk, n)) => Prepend(chunk, Decode(data[n..], room - |chunk|))
  }

  /** Decoding goes on behind a well-formed first record. */
  lemma DecodeFirst(data: seq<byte>, room: nat, chunk: seq<byte>, n: nat)
    requires data != [] && DecodeRecord(data, room) == Some((chunk, n))
    ensures Decode(data, room) == Prepend(chunk, Decode(data[n..], room - |chunk|))
  {
    hide DecodeRecord, Prepend;
  }

  lemma DecodeLit(lit: seq<byte>, rest: seq<byte>, room: nat)
    requires |lit| <= MAX_CHUNK && |lit| <= room
    ensures Decode(LitRecord(lit) + rest, room) == Prepend(lit, Decode(rest, room - |lit|))
  {
    U16RoundTrip(|lit|);
    hide Decode, Low, High, U16;
    var data := LitRecord(lit) + rest;
    assert data[0] == 0 && data[1] == Low(|lit|) && data[2] == High(|lit|);
    assert data[3..3 + |lit|] == lit;
    assert data[3 + |lit|..] == rest;
    DecodeFirst(data, room, lit, 3 + |lit|);
  }

  lemma DecodeRun(b: byte, n: nat, rest: seq<byte>, room: nat)
    requires n <= MAX_CHUNK && n <= room
    ensures Decode(RunRecord(b, n) + rest, room) == Prepend(Repeat(b, n), Decode(rest, room - n))
  {
    U16RoundTrip(n);
    hide Decode, Low, High, U16, Repeat;
    var data := RunRecord(b, n) + rest;
    assert data[0] == 1 && data[1] == b && data[2] == Low(n) && data[3] == High(n);
    assert data[4..] == rest;
    DecodeFirst(data, room, Repeat(b, n), 4);
  }

  /** Every record decodes to the input bytes it was made from. */
  lemma RecordDecodes(src: seq<byte>, i: nat, rest: seq<byte>, room: nat)
    requires i < |src| && RecordEnd(src, i) - i <= room
    ensures var e := RecordEnd(src, i);
            Decode(Record(src, i) + rest, room) == Prepend(src[i..e], Decode(rest, room - (e - i)))
  {
    hide Decode;
    QuadIsRun(src, i);
    var run := RunFrom(src, i, 1);
    if run >= MIN_RUN {
      DecodeRun(src[i], run, rest, room);
      assert Repeat(src[i], run) == src[i..i + run];
    } else {
      DecodeLit(src[i..LitEnd(src, i, i)], rest, room);
    }
  }

  /** Round trip: decoding the encoding gives back the bytes, into any buffer that holds them. */
  lemma {:induction false} RoundTripFrom(src: seq<byte>, i: nat, room: nat)
    requires i <= |src| && |src| - i <= room
    ensures Decode(EncodeFrom(src, i), room) == Some(src[i..])
    decreases |src| - i
  {
    hide Decode, Record, RecordEnd, EncodeFrom;
    EncodeStep(src, i);
    if i == |src| {
      DecodeNothing(room);
      assert src[i..] == [];
    } else {
      var e := RecordEnd(src, i);
      RoundTripFrom(src, e, room - (e - i));
      RecordDecodes(src, i, EncodeFrom(src, e), room);
      PrependSlice(src, i, e);
    }
  }

  lemma DecodeNothing(room: nat)
    ensures Decode([], room) == Some([])
  {
  }

  lemma PrependSlice(src: seq<byte>, i: nat, e: nat)
    requires i <= e <= |src|
    ensures Prepend(src[i..e], Some(src[e..])) == Some(src[i..])
  {
    SliceSplit(src, i, e);
  }

  lemma RoundTrip(src: seq<byte>, room: nat)
    requires |src| <= room
    ensures Decode(Encode(src), room) == Some(src)
  {
    RoundTripFrom(src, 0, room);
    assert src[0..] == src;
  }

  /** Different inputs have different encodings. */
  lemma EncodeInjective(a: seq<byte>, b: seq<byte>)
    requires Encode(a) == Encode(b)
    ensures a == b
  {
    var room := |a| + |b|;
    RoundTrip(a, room);
    RoundTrip(b, room);
  }

  // ----- what the decoder accepts

  /** The two records of the format. */
  datatype Rec = Lit(bytes: seq<byte>) | Run(b: byte, n: nat)

  function Meant(r: Rec): seq<byte> {
    match r
    case Lit(bytes) => bytes
    case Run(b, n) => Repeat(b, n)
  }

  function Written(r: Rec): seq<byte> {
    match r
    case Lit(bytes) => LitRecord(bytes)
    case Run(b, n) => RunRecord(b, n)
  }

  function AllMeant(rs: seq<Rec>): seq<byte> {
    if rs == [] then [] else Meant(rs[0]) + AllMeant(rs[1..])
  }

  function AllWritten(rs: seq<Rec>): seq<byte> {
    if rs == [] then [] else Written(rs[0]) + AllWritten(rs[1..])
  }

  /** Lengths are 16-bit words. */
  predicate LengthsFit(rs: seq<Rec>) {
    forall k :: 0 <= k < |rs| ==> |Meant(rs[k])| <= MAX_CHUNK
  }

  lemma OneRecord(r: Rec, rest: seq<byte>, room: nat)
    requires |Meant(r)| <= MAX_CHUNK && |Meant(r)| <= room
    ensures Decode(Written(r) + rest, room) == Prepend(Meant(r), Decode(rest, room - |Meant(r)|))
  {
    hide Decode, LitRecord, RunRecord;
    match r
    case Lit(bytes) => DecodeLit(bytes, rest, room);
    case Run(b, n) => DecodeRun(b, n, rest, room);
  }

  lemma {:induction false} DecodesRecords(rs: seq<Rec>, room: nat)
    requires LengthsFit(rs) && |AllMeant(rs)| <= room
    ensures Decode(AllWritten(rs), room) == Some(AllMeant(rs))
    decreases |rs|
  {
    hide Decode, Written, Meant;
    if rs == [] {
      DecodeNothing(room);
    } else {
      OneRecord(rs[0], AllWritten(rs[1..]), room);
      DecodesRecords(rs[1..], room - |Meant(rs[0])|);
    }
  }

  lemma BytesOfU16(lo: byte, hi: byte)
    ensures Low(U16(lo, hi)) == lo && High(U16(lo, hi)) == hi
  {
  }

  lemma LitAccepted(data: seq<byte>, room: nat) returns (r: Rec)
    requires data != [] && data[0] == 0 && DecodeRecord(data, room).Some?
    ensures var (chunk, n) := DecodeRecord(data, room).value;
            && Meant(r) == chunk && data[..n] == Written(r) && |chunk| <= MAX_CHUNK
  {
    BytesOfU16(data[1], data[2]);
    hide Low, High;
    var lit := data[3..3 + U16(data[1], data[2])];
    r := Lit(lit);
    assert data[..3 + |lit|] == data[..3] + lit;
    assert data[..3] == [0, data[1], data[2]];
  }

  lemma RunAccepted(data: seq<byte>, room: nat) returns (r: Rec)
    requires data != [] && data[0] != 0 && DecodeRecord(data, room).Some?
    ensures var (chunk, n) := DecodeRecord(data, room).value;
            && Meant(r) == chunk && data[..n] == Written(r) && |chunk| <= MAX_CHUNK
  {
    BytesOfU16(data[2], data[3]);
    hide Low, High;
    r := Run(data[1], U16(data[2], data[3]));
    assert data[..4] == [data[0], data[1], data[2], data[3]];
  }

  /** A record that the decoder takes is one of the format. */
  lemma RecordAccepted(data: seq<byte>, room: nat) returns (r: Rec)
    requires data != [] && DecodeRecord(data, room).Some?
    ensures var (chunk, n) := DecodeRecord(data, room).value;
            && Meant(r) == chunk && data[..n] == Written(r) && |chunk| <= MAX_CHUNK
  {
    hide Meant, Written;
    if data[0] == 0 {
      r := LitAccepted(data, room);
    } else {
      r := RunAccepted(data, room);
    }
  }

  lemma FirstAccepted(data: seq<byte>, room: nat)
    requires data != [] && Decode(data, room).Some?
    ensures DecodeRecord(data, room).Some?
    ensures var (chunk, n) := DecodeRecord(data, room).value;
            var rest := Decode(data[n..], room - |chunk|);
            rest.Some? && Decode(data, room).value == chunk + rest.value
  {
    hide DecodeRecord;
  }

  lemma {:induction false} AcceptedAreRecords(data: seq<byte>, room: nat) returns (rs: seq<Rec>)
    requires Decode(data, room).Some?
    ensures LengthsFit(rs) && data == AllWritten(rs) && Decode(data, room).value == AllMeant(rs)
    ensures |AllMeant(rs)| <= room
    decreases |data|
  {
    hide DecodeRecord, Written, Meant, Decode;
    if data == [] {
      DecodeNothing(room);
      rs := [];
    } else {
      FirstAccepted(data, room);
      var (chunk, n) := DecodeRecord(data, room).value;
      var r := RecordAccepted(data, room);
      var more := AcceptedAreRecords(data[n..], room - |chunk|);
      rs := [r] + more;
      assert rs[1..] == more;
      assert data == data[..n] + data[n..];
    }
  }

  /** The decoder takes exactly the sequences of whole records of the two kinds whose bytes fit
      into the buffer, and gives exactly those bytes; all other data is refused. */
  lemma DecodeIff(data: seq<byte>, room: nat, x: seq<byte>)
    ensures Decode(data, room) == Some(x)
       <==> exists rs: seq<Rec> :: LengthsFit(rs) && AllWritten(rs) == data && AllMeant(rs) == x && |x| <= room
  {
    hide Decode, AllWritten, AllMeant, LengthsFit;
    if Decode(data, room) == Some(x) {
      var rs := AcceptedAreRecords(data, room);
    }
    if rs: seq<Rec> :| LengthsFit(rs) && AllWritten(rs) == data && AllMeant(rs) == x && |x| <= room {
      DecodesRecords(rs, room);
    }
  }

  // ----- size

  /** Worst case 8 bytes out for 5 bytes in, plus 12/5 of a byte; a position where a run
      starts needs no allowance. */
  lemma {:induction false} SizeBoundFrom(src: seq<byte>, i: nat)
    requires i <= |src|
    ensures 5 * |EncodeFrom(src, i)| <= 8 * (|src| - i) + 12
    ensures i == |src| || Quad(src, i) ==> 5 * |EncodeFrom(src, i)| <= 8 * (|src| - i)
    decreases |src| - i
  {
    if i < |src| {
      SizeBoundFrom(src, RecordEnd(src, i));
      QuadIsRun(src, i);
    }
  }

  lemma SizeBound(src: seq<byte>)
    ensures 5 * |Encode(src)| <= 8 * |src| + 12
  {
    SizeBoundFrom(src, 0);
  }

  /** The longest encoding of n bytes. */
  function Worst(n: nat): nat {
    if n == 0 then 0 else 8 * ((n - 1) / 5) + 4 + (n - 1) % 5
  }

  /** A literal and the run behind it, a literal up to the end, and a literal that is cut. */
  lemma WorstCovers(n: nat, lit: nat)
    requires 1 <= lit <= n
    ensures lit + 3 <= Worst(lit) <= Worst(n)
    ensures lit + 4 <= n ==> lit + 3 + 4 + Worst(n - lit - 4) <= Worst(n)
    ensures lit == MAX_CHUNK ==> lit + 3 + Worst(n - lit) <= Worst(n)
  {
  }

  lemma WorstGrows(m: nat, n: nat)
    requires m <= n
    ensures Worst(m) <= Worst(n)
  {
  }

  /** A run takes four bytes, a literal three more than it holds; a literal ends at the end,
      before a run or at the longest length. */
  lemma RecordShape(src: seq<byte>, i: nat)
    requires i < |src|
    ensures var e := RecordEnd(src, i);
            if Quad(src, i) then e >= i + 4 && |Record(src, i)| == 4
            else && |Record(src, i)| == e - i + 3
                 && (e == |src| || Quad(src, e) || e - i == MAX_CHUNK)
  {
    QuadIsRun(src, i);
  }

  lemma {:induction false} WorstBoundFrom(src: seq<byte>, i: nat)
    requires i <= |src|
    ensures |EncodeFrom(src, i)| <= Worst(|src| - i)
    ensures Quad(src, i) ==> |EncodeFrom(src, i)| <= 4 + Worst(|src| - i - 4)
    decreases |src| - i
  {
    hide Worst, Record, RecordEnd, EncodeFrom;
    EncodeStep(src, i);
    if i < |src| {
      var n, e := |src| - i, RecordEnd(src, i);
      RecordShape(src, i);
      WorstBoundFrom(src, e);
      WorstAtEnd();
      if Quad(src, i) {
        WorstGrows(|src| - e, n - 4);
        WorstRun(n);
      } else {
        WorstCovers(n, e - i);
      }
    }
  }

  lemma WorstAtEnd()
    ensures Worst(0) == 0
  {
  }

  lemma WorstRun(n: nat)
    requires n >= 4
    ensures 4 + Worst(n - 4) <= Worst(n)
  {
  }

  /** Blocks of one byte and a run of four, and then up to five bytes without a run. */
  function WorstInput(n: nat): (src: seq<byte>)
    ensures |src| == n
  {
    seq(n, k requires 0 <= k => WorstByte((n - 1) / 5, k))
  }

  function WorstByte(blocks: int, k: nat): (b: byte) {
    if k < 5 * blocks then if k % 5 == 0 then 0 else 1
    else if (k - 5 * blocks) % 2 == 0 then 0 else 2
  }

  lemma WorstBlock(n: nat, i: nat)
    requires i % 5 == 0 && i + 5 <= 5 * ((n - 1) / 5)
    ensures i + 5 < n
    ensures var src := WorstInput(n);
            src[i] != src[i + 1] && Quad(src, i + 1) && src[i + 5] != src[i + 1]
  {
    var src := WorstInput(n);
    assert (i + 5) % 5 == 0;
    assert src[i] == 0 && src[i + 5] == 0;
    assert src[i + 1] == 1 && src[i + 2] == 1 && src[i + 3] == 1 && src[i + 4] == 1;
  }

  lemma WorstTail(n: nat, k: nat)
    requires 5 * ((n - 1) / 5) <= k < n
    ensures !Quad(WorstInput(n), k)
  {
    if k + 1 < n {
      WorstAlternates((n - 1) / 5, k);
    }
  }

  lemma WorstAlternates(blocks: nat, k: nat)
    requires 5 * blocks <= k
    ensures WorstByte(blocks, k) != WorstByte(blocks, k + 1)
  {
  }

  lemma {:induction false} LitToEnd(src: seq<byte>, start: nat, i: nat)
    requires start <= i <= |src| && |src| - start < MAX_CHUNK
    requires forall k :: i <= k < |src| ==> !Quad(src, k)
    ensures LitEnd(src, start, i) == |src|
    decreases |src| - i
  {
    if i < |src| {
      LitToEnd(src, start, i + 1);
    }
  }

  lemma FourAndStop(src: seq<byte>, i: nat)
    requires Quad(src, i) && i + 4 < |src| && src[i + 4] != src[i]
    ensures RunFrom(src, i, 1) == 4
  {
    assert RunFrom(src, i, 4) == 4;
    assert RunFrom(src, i, 3) == 4;
    assert RunFrom(src, i, 2) == 4;
  }

  /** One byte and the run of four behind it take four bytes each. */
  lemma BlockEncodes(src: seq<byte>, i: nat)
    requires i + 5 < |src| && src[i] != src[i + 1] && Quad(src, i + 1) && src[i + 5] != src[i + 1]
    ensures |EncodeFrom(src, i)| == 8 + |EncodeFrom(src, i + 5)|
  {
    QuadIsRun(src, i);
    assert LitEnd(src, i, i) == i + 1 by {
      assert LitEnd(src, i, i + 1) == i + 1;
    }
    FourAndStop(src, i + 1);
    hide RunFrom, LitEnd;
    assert RecordEnd(src, i) == i + 1 && |Record(src, i)| == 4;
    assert RecordEnd(src, i + 1) == i + 5 && |Record(src, i + 1)| == 4;
    EncodeStep(src, i);
    EncodeStep(src, i + 1);
  }

  lemma LastEncodes(src: seq<byte>, i: nat)
    requires i < |src| < i + MAX_CHUNK && forall k :: i <= k < |src| ==> !Quad(src, k)
    ensures |EncodeFrom(src, i)| == |src| - i + 3
  {
    QuadIsRun(src, i);
    LitToEnd(src, i, i);
    hide RunFrom, LitEnd;
    EncodeStep(src, i);
    EncodeStep(src, |src|);
  }

  lemma {:induction false} WorstInputFrom(n: nat, m: nat, i: nat)
    requires i < n && i % 5 == 0 && i + 5 * m == 5 * ((n - 1) / 5)
    ensures |EncodeFrom(WorstInput(n), i)| == 8 * m + n - (i + 5 * m) + 3
    decreases m
  {
    hide WorstInput, EncodeFrom;
    var src := WorstInput(n);
    if m == 0 {
      forall k: nat | i <= k < n
        ensures !Quad(src, k)
      {
        WorstTail(n, k);
      }
      LastEncodes(src, i);
    } else {
      WorstBlock(n, i);
      BlockEncodes(src, i);
      WorstInputFrom(n, m - 1, i + 5);
    }
  }

  /** For every length, the longest encoding has exactly this many bytes. */
  lemma WorstCaseIsExact(n: nat)
    ensures forall src: seq<byte> :: |src| == n ==> |Encode(src)| <= Worst(n)
    ensures |Encode(WorstInput(n))| == Worst(n)
  {
    hide WorstInput, EncodeFrom;
    forall src: seq<byte> | |src| == n
      ensures |Encode(src)| <= Worst(n)
    {
      WorstBoundFrom(src, 0);
    }
    if n > 0 {
      WorstInputFrom(n, (n - 1) / 5, 0);
    } else {
      EncodeStep(WorstInput(n), 0);
    }
  }

  /** The bound 8/5 is reached, allowance included, at every length 5m + 1. */
  lemma SizeBoundIsTight(m: nat)
    ensures var src := WorstInput(5 * m + 1);
            5 * |Encode(src)| == 8 * |src| + 12
  {
    hide WorstInput, Encode;
    WorstCaseIsExact(5 * m + 1);
  }

  // ----- the program

  method EmitLiteral(lit: seq<byte>, out: array<byte>, di: nat)
    requires di + 3 + |lit| <= out.Length
    modifies out
    ensures var n := di + 3 + |lit|;
            out[..n] == old(out[..di]) + LitRecord(lit) && out[n..] == old(out[n..])
  {
    hide Low, High;
    ghost var done := out[..di];
    Emit(out, di, [0, Low(|lit|), High(|lit|)]);
    Emit(out, di + 3, lit);
    ConcatAssoc(done, [0, Low(|lit|), High(|lit|)], lit);
  }

  /** Write the record for src[si..] at position di, unless it does not fit. */
  method CompressRecord(src: seq<byte>, si: nat, out: array<byte>, di: nat) returns (ok: bool, si': nat, di': nat)
    requires si < |src| && di <= out.Length
    modifies out
    ensures var rec, e := Record(src, si), RecordEnd(src, si);
            && (ok <==> di + |rec| <= out.Length)
            && (ok ==> && si' == e && di' == di + |rec|
                       && out[..di'] == old(out[..di]) + rec && out[di'..] == old(out[di'..]))
    ensures !ok ==> out[..] == old(out[..])
  {
    hide RunFrom, LitEnd;
    si', di' := si, di;
    ok := false;
    var cur := src[si];
    var run := CountRun(src, si);
    if run >= MIN_RUN {
      if di + 4 > out.Length {
        return;
      }
      Emit(out, di, [1, cur, Low(run), High(run)]);
      di' := di + 4;
      si' := si + run;
    } else {
      si' := ScanLiteral(src, si);
      var len := si' - si;
      if di + 3 + len > out.Length {
        return;
      }
      EmitLiteral(src[si..si'], out, di);
      di' := di + 3 + len;
    }
    ok := true;
  }

  /** Compress into `out`; -1 when the arguments are empty or the encoding does not fit. */
  method Compress(src: seq<byte>, out: array<byte>) returns (r: int)
    modifies out
    ensures |src| == 0 || out.Length == 0 ==> r == -1 && out[..] == old(out[..])
    ensures |src| > 0 && out.Length > 0 ==>
              if |Encode(src)| > out.Length then r == -1
              else r == CInt(|Encode(src)|) && out[..|Encode(src)|] == Encode(src)
                   && out[|Encode(src)|..] == old(out[|Encode(src)|..])
  {
    if |src| == 0 || out.Length == 0 {
      return -1;
    }
    var si, di := 0, 0;
    ghost var whole := Encode(src);
    assert whole == out[..0] + EncodeFrom(src, 0);
    hide CInt, Record, RecordEnd, EncodeFrom, Encode;
    while si < |src|
      invariant 0 <= si <= |src| && 0 <= di <= out.Length
      invariant whole == out[..di] + EncodeFrom(src, si)
      invariant out[di..] == old(out[di..])
      decreases |src| - si
    {
      EncodeStep(src, si);
      ghost var before, done, rec := out[..], out[..di], Record(src, si);
      var ok, si', di' := CompressRecord(src, si, out, di);
      if !ok {
        return -1;
      }
      ConcatAssoc(done, rec, EncodeFrom(src, si'));
      ShorterSuffix(before, old(out[..]), di, di');
      si, di := si', di';
    }
    EncodeStep(src, si);
    assert whole == out[..di];
    return CInt(di);
  }

  method CountRun(src: seq<byte>, i: nat) returns (run: nat)
    requires i < |src|
    ensures run == RunFrom(src, i, 1)
  {
    run := 1;
    while i + run < |src| && src[i + run] == src[i] && run < MAX_CHUNK
      invariant 1 <= run <= MAX_CHUNK && i + run <= |src|
      invariant forall k :: i <= k < i + run ==> src[k] == src[i]
      invariant RunFrom(src, i, run) == RunFrom(src, i, 1)
    {
      run := run + 1;
    }
  }

  method ScanLiteral(src: seq<byte>, start: nat) returns (i: nat)
    requires start <= |src|
    ensures i == LitEnd(src, start, start)
  {
    i := start;
    while i < |src|
      invariant start <= i <= |src| && i - start < MAX_CHUNK
      invariant LitEnd(src, start, i) == LitEnd(src, start, start)
    {
      if Quad(src, i) {
        break;
      }
      i := i + 1;
      if i - start >= MAX_CHUNK {
        break;
      }
    }
  }

  /** Decode the record at data[si..] to position di, unless it is malformed or too long. */
  method DecompressRecord(data: seq<byte>, si: nat, out: array<byte>, di: nat)
    returns (ok: bool, si': nat, di': nat)
    requires si < |data| && di <= out.Length
    modifies out
    ensures var d := DecodeRecord(data[si..], out.Length - di);
            && (ok <==> d.Some?)
            && (ok ==> && si' == si + d.value.1 && di' == di + |d.value.0|
                       && out[..di'] == old(out[..di]) + d.value.0 && out[di'..] == old(out[di'..]))
  {
    ok := false;
    si', di' := si + 1, di;
    var tag := data[si];
    if tag == 0 {
      if si' + 2 > |data| {
        return;
      }
      var len := U16(data[si'], data[si' + 1]);
      si' := si' + 2;
      if si' + len > |data| || di + len > out.Length {
        return;
      }
      Emit(out, di, data[si'..si' + len]);
      assert data[si..][3..3 + len] == data[si'..si' + len];
      si' := si' + len;
      di' := di + len;
    } else if tag == 1 {
      if si' + 3 > |data| {
        return;
      }
      var b := data[si'];
      var count := U16(data[si' + 1], data[si' + 2]);
      si' := si' + 3;
      if di + count > out.Length {
        return;
      }
      Emit(out, di, Repeat(b, count));
      di' := di + count;
    } else {
      return;
    }
    ok := true;
  }

  /** `whole` is the result when `done` has been decoded and `rest` is still to come. */
  ghost predicate Decoding(whole: Option<seq<byte>>, done: seq<byte>, rest: seq<byte>, size: nat) {
    |done| <= size && whole == Prepend(done, Decode(rest, size - |done|))
  }

  lemma DecodeBegins(data: seq<byte>, size: nat)
    ensures Decoding(Decode(data, size), [], data, size)
  {
    hide Decode;
    PrependNothing(Decode(data, size));
  }

  lemma DecodeGoesOn(whole: Option<seq<byte>>, done: seq<byte>, rest: seq<byte>, size: nat)
    requires Decoding(whole, done, rest, size) && rest != []
    ensures match DecodeRecord(rest, size - |done|)
            case None => whole == None
            case Some((chunk, n)) => Decoding(whole, done + chunk, rest[n..], size)
  {
    hide DecodeRecord;
    var d := DecodeRecord(rest, size - |done|);
    if d.Some? {
      PrependTwice(done, d.value.0, Decode(rest[d.value.1..], size - |done| - |d.value.0|));
    }
  }

  lemma DecodeEnds(whole: Option<seq<byte>>, done: seq<byte>, rest: seq<byte>, size: nat)
    requires Decoding(whole, done, rest, size) && rest == []
    ensures whole == Some(done)
  {
    assert done + [] == done;
  }

  /** Decompress into `out`; -1 when the arguments are empty, the data is malformed or the
      bytes do not fit. */
  method Decompress(data: seq<byte>, out: array<byte>) returns (r: int)
    modifies out
    ensures |data| == 0 || out.Length == 0 ==> r == -1 && out[..] == old(out[..])
    ensures |data| > 0 && out.Length > 0 ==>
              match Decode(data, out.Length)
              case None => r == -1
              case Some(x) => |x| <= out.Length && r == CInt(|x|) && out[..|x|] == x
                              && out[|x|..] == old(out[|x|..])
  {
    if |data| == 0 || out.Length == 0 {
      return -1;
    }
    var si, di := 0, 0;
    ghost var whole := Decode(data, out.Length);
    assert data[0..] == data && out[..0] == [];
    DecodeBegins(data, out.Length);
    hide CInt, Decode, Decoding;
    while si < |data|
      invariant 0 <= si <= |data| && 0 <= di <= out.Length
      invariant Decoding(whole, out[..di], data[si..], out.Length)
      invariant out[di..] == old(out[di..])
      decreases |data| - si
    {
      ghost var before := out[..];
      var ok, si', di' := DecompressNext(data, si, out, di, whole);
      if !ok {
        return -1;
      }
      ShorterSuffix(before, old(out[..]), di, di');
      si, di := si', di';
    }
    DecodeEnds(whole, out[..di], data[si..], out.Length);
    return CInt(di);
  }

  /** One record more is decoded, or the whole input is not decodable. */
  method DecompressNext(data: seq<byte>, si: nat, out: array<byte>, di: nat, ghost whole: Option<seq<byte>>)
    returns (ok: bool, si': nat, di': nat)
    requires si < |data| && di <= out.Length && Decoding(whole, out[..di], data[si..], out.Length)
    modifies out
    ensures !ok ==> whole == None
    ensures ok ==> && si < si' <= |data| && di <= di' <= out.Length
                   && Decoding(whole, out[..di'], data[si'..], out.Length)
                   && out[di'..] == old(out[di'..])
  {
    hide DecodeRecord, Decode, Decoding;
    DecodeGoesOn(whole, out[..di], data[si..], out.Length);
    ok, si', di' := DecompressRecord(data, si, out, di);
    if ok {
      SuffixOfSuffix(data, si, si' - si);
    }
  }
}
