/**
 * The delta codec for snapshots: the exclusive or of two buffers, where a byte that differs
 * is written as it is and a stretch of equal bytes as a zero and its length (at most 255).
 */
module DeltaCodec {
  import opened Basics
  import opened Bits
  import opened Bytes

  const MAX_RUN := 255

  function Xor8(a: byte, b: byte): (x: byte)
    ensures x == 0 <==> a == b
  {
    XorSelfInverse(a, b);
    assert Pow2(8) == 256 by { assert Pow2(6) == 64; assert Pow2(4) == 16; assert Pow2(2) == 4; }
    XorBound(a, b, 8);
    Xor(a, b)
  }

  lemma Xor8Undoes(a: byte, b: byte)
    ensures Xor8(a, Xor8(a, b)) == b
  {
    XorSelfInverse(a, b);
  }

  /** Each binary digit of the written byte tells whether the digits differ. */
  lemma Xor8Bits(a: byte, b: byte, l: nat)
    ensures Bit(Xor8(a, b), l) == (Bit(a, l) + Bit(b, l)) % 2
  {
    XorBits(a, b, l);
  }

  // ----- the delta of two buffers

  /** End of the stretch of equal bytes that starts at `start`, scanned up to i. */
  function EqualEnd(prev: seq<byte>, curr: seq<byte>, start: nat, i: nat): (e: nat)
    requires |prev| == |curr| && start <= i <= |prev| && i - start <= MAX_RUN
    requires prev[start..i] == curr[start..i]
    ensures i <= e <= |prev| && e - start <= MAX_RUN && prev[start..e] == curr[start..e]
    ensures e == |prev| || prev[e] != curr[e] || e - start == MAX_RUN
    decreases |prev| - i
  {
    if i < |prev| && prev[i] == curr[i] && i - start < MAX_RUN then
      assert prev[start..i + 1] == prev[start..i] + [prev[i]];
      assert curr[start..i + 1] == curr[start..i] + [curr[i]];
      EqualEnd(prev, curr, start, i + 1)
    else i
  }

  function ItemEnd(prev: seq<byte>, curr: seq<byte>, i: nat): (e: nat)
    requires |prev| == |curr| && i < |prev|
    ensures i < e <= |prev|
  {
    if prev[i] == curr[i] then
      assert prev[i..i] == curr[i..i];
      EqualEnd(prev, curr, i, i)
    else i + 1
  }

  function Item(prev: seq<byte>, curr: seq<byte>, i: nat): seq<byte>
    requires |prev| == |curr| && i < |prev|
  {
    if prev[i] == curr[i] then [0, ItemEnd(prev, curr, i) - i] else [Xor8(prev[i], curr[i])]
  }

  function EncodeFrom(prev: seq<byte>, curr: seq<byte>, i: nat): seq<byte>
    requires |prev| == |curr| && i <= |prev|
    decreases |prev| - i
  {
    if i == |prev| then [] else Item(prev, curr, i) + EncodeFrom(prev, curr, ItemEnd(prev, curr, i))
  }

  function Encode(prev: seq<byte>, curr: seq<byte>): seq<byte>
    requires |prev| == |curr|
  {
    EncodeFrom(prev, curr, 0)
  }

  lemma EncodeStep(prev: seq<byte>, curr: seq<byte>, i: nat)
    requires |prev| == |curr| && i <= |prev|
    ensures i == |prev| ==> EncodeFrom(prev, curr, i) == []
    ensures i < |prev| ==>
              EncodeFrom(prev, curr, i) == Item(prev, curr, i) + EncodeFrom(prev, curr, ItemEnd(prev, curr, i))
  {
  }

  // ----- decoding

  /** What the first item of `delta` writes at position `at`, cut at the end of the output,
      and the length of the item. */
  function DecodeItem(prev: seq<byte>, delta: seq<byte>, at: nat, size: nat): (r: Option<(seq<byte>, nat)>)
    requires delta != [] && at < size <= |prev|
    ensures r.Some? ==> |r.value.0| <= size - at && 0 < r.value.1 <= |delta|
  {
    if delta[0] == 0 then
      if |delta| < 2 then None
      else
        var n := if delta[1] <= size - at then delta[1] else size - at;
        Some((prev[at..at + n], 2))
    else Some(([Xor8(prev[at], delta[0])], 1))
  }

  /** The bytes written from position `at` on; stops at the end of the delta or when the
      output is full. */
  function Decode(prev: seq<byte>, delta: seq<byte>, at: nat, size: nat): Option<seq<byte>>
    requires at <= size <= |prev|
    decreases |delta|
  {
    if delta == [] || at == size then Some([])
    else
      match DecodeItem(prev, delta, at, size)
      case None => None
      case Some((chunk, n)) => Prepend(chunk, Decode(prev, delta[n..], at + |chunk|, size))
  }

  lemma RunDecodes(prev: seq<byte>, at: nat, n: byte, rest: seq<byte>, size: nat)
    requires at < size <= |prev|
    ensures var m := if at + n <= size then at + n else size;
            Decode(prev, [0, n] + rest, at, size) == Prepend(prev[at..m], Decode(prev, rest, m, size))
  {
    var delta := [0, n] + rest;
    assert delta[2..] == rest && delta[0] == 0 && delta[1] == n;
  }

  lemma ByteDecodes(prev: seq<byte>, at: nat, x: byte, rest: seq<byte>, size: nat)
    requires at < size <= |prev| && x != 0
    ensures Decode(prev, [x] + rest, at, size) == Prepend([Xor8(prev[at], x)], Decode(prev, rest, at + 1, size))
  {
    var delta := [x] + rest;
    assert delta[1..] == rest && delta[0] == x;
  }

  lemma EqualPrefix(prev: seq<byte>, curr: seq<byte>, i: nat, m: nat, e: nat)
    requires i <= m <= e <= |prev| && e <= |curr| && prev[i..e] == curr[i..e]
    ensures prev[i..m] == curr[i..m]
  {
    assert prev[i..m] == prev[i..e][..m - i];
    assert curr[i..m] == curr[i..e][..m - i];
  }

  /** An item decodes to the bytes it was made from, as far as the output reaches. */
  lemma ItemDecodes(prev: seq<byte>, curr: seq<byte>, i: nat, rest: seq<byte>, size: nat)
    requires |prev| == |curr| && i < size <= |prev|
    ensures var e := ItemEnd(prev, curr, i);
            var m := if e <= size then e else size;
            && Decode(prev, Item(prev, curr, i) + rest, i, size)
            == Prepend(curr[i..m], Decode(prev, rest, m, size))
  {
    hide Decode, Xor8, EqualEnd;
    var e := ItemEnd(prev, curr, i);
    if prev[i] == curr[i] {
      RunDecodes(prev, i, e - i, rest, size);
      EqualPrefix(prev, curr, i, if e <= size then e else size, e);
    } else {
      ByteDecodes(prev, i, Xor8(prev[i], curr[i]), rest, size);
      Xor8Undoes(prev[i], curr[i]);
      assert curr[i..i + 1] == [curr[i]];
    }
  }

  lemma DecodeFull(prev: seq<byte>, delta: seq<byte>, size: nat)
    requires size <= |prev|
    ensures Decode(prev, delta, size, size) == Some([])
  {
  }

  lemma {:induction false} RoundTripFrom(prev: seq<byte>, curr: seq<byte>, i: nat, size: nat)
    requires |prev| == |curr| && i <= size <= |prev|
    ensures Decode(prev, EncodeFrom(prev, curr, i), i, size) == Some(curr[i..size])
    decreases |prev| - i
  {
    hide Decode, Item, ItemEnd, EncodeFrom;
    if i == size {
      DecodeFull(prev, EncodeFrom(prev, curr, i), size);
      assert curr[i..size] == [];
    } else {
      EncodeStep(prev, curr, i);
      var e := ItemEnd(prev, curr, i);
      var m := if e <= size then e else size;
      ItemDecodes(prev, curr, i, EncodeFrom(prev, curr, e), size);
      if e <= size {
        RoundTripFrom(prev, curr, e, size);
      } else {
        DecodeFull(prev, EncodeFrom(prev, curr, e), size);
        assert curr[m..size] == [];
      }
      PrependMiddle(curr, i, m, size);
    }
  }

  lemma PrependMiddle(s: seq<byte>, i: nat, m: nat, n: nat)
    requires i <= m <= n <= |s|
    ensures Prepend(s[i..m], Some(s[m..n])) == Some(s[i..n])
  {
    assert s[i..m] + s[m..n] == s[i..n];
  }

  /** Round trip: decoding against the same previous buffer writes exactly the first bytes of
      the current one, as many as the output holds. */
  lemma RoundTrip(prev: seq<byte>, curr: seq<byte>, size: nat)
    requires |prev| == |curr| && size <= |prev|
    ensures Decode(prev, Encode(prev, curr), 0, size) == Some(curr[..size])
  {
    RoundTripFrom(prev, curr, 0, size);
  }

  lemma EncodeInjective(prev: seq<byte>, a: seq<byte>, b: seq<byte>)
    requires |prev| == |a| == |b| && Encode(prev, a) == Encode(prev, b)
    ensures a == b
  {
    RoundTrip(prev, a, |prev|);
    RoundTrip(prev, b, |prev|);
    assert a[..|prev|] == a && b[..|prev|] == b;
  }

  // ----- what the decoder makes of any delta

  /** The two items of the format: n bytes as before, or one byte that differs by x. */
  datatype Change = Same(n: byte) | Differs(x: byte)

  predicate IsChange(c: Change) {
    c.Differs? ==> c.x != 0
  }

  ghost predicate AreChanges(cs: seq<Change>) {
    forall k :: 0 <= k < |cs| ==> IsChange(cs[k])
  }

  function Written(cs: seq<Change>): seq<byte> {
    if cs == [] then []
    else (match cs[0]
          case Same(n) => [0, n]
          case Differs(x) => [x]) + Written(cs[1..])
  }

  /** How many bytes the changes speak of. */
  function Span(cs: seq<Change>): nat {
    if cs == [] then 0 else (if cs[0].Same? then cs[0].n else 1) + Span(cs[1..])
  }

  /** The bytes from position `at` up to `size`, as the changes have them. */
  function Changed(prev: seq<byte>, cs: seq<Change>, at: nat, size: nat): seq<byte>
    requires at <= size <= |prev|
    decreases |cs|
  {
    if cs == [] || at == size then []
    else match cs[0]
         case Same(n) =>
           var m := if at + n <= size then at + n else size;
           prev[at..m] + Changed(prev, cs[1..], m, size)
         case Differs(x) => [Xor8(prev[at], x)] + Changed(prev, cs[1..], at + 1, size)
  }

  /** Any sequence of whole items is decoded to what it says, as far as the output reaches. */
  lemma {:induction false} DecodesChanges(prev: seq<byte>, cs: seq<Change>, at: nat, size: nat)
    requires at <= size <= |prev| && AreChanges(cs)
    ensures Decode(prev, Written(cs), at, size) == Some(Changed(prev, cs, at, size))
    decreases |cs|
  {
    if at == size {
      DecodeFull(prev, Written(cs), size);
    } else if cs == [] {
      DecodeNothing(prev, at, size);
    } else {
      hide Decode, Xor8;
      assert IsChange(cs[0]);
      var rest := Written(cs[1..]);
      match cs[0]
      case Same(n) =>
        RunDecodes(prev, at, n, rest, size);
        DecodesChanges(prev, cs[1..], if at + n <= size then at + n else size, size);
      case Differs(x) =>
        ByteDecodes(prev, at, x, rest, size);
        DecodesChanges(prev, cs[1..], at + 1, size);
    }
  }

  lemma DecodeNothing(prev: seq<byte>, at: nat, size: nat)
    requires at <= size <= |prev|
    ensures Decode(prev, [], at, size) == Some([])
  {
  }

  lemma LoneZero(prev: seq<byte>, at: nat, size: nat)
    requires at < size <= |prev|
    ensures Decode(prev, [0], at, size) == None
  {
  }

  ghost predicate EndsInside(delta: seq<byte>, cs: seq<Change>, left: int) {
    AreChanges(cs) && delta == Written(cs) + [0] && Span(cs) < left
  }

  lemma {:induction false} InsideIsRefused(prev: seq<byte>, delta: seq<byte>, cs: seq<Change>, at: nat, size: nat)
    requires at <= size <= |prev| && EndsInside(delta, cs, size - at)
    ensures Decode(prev, delta, at, size) == None
    decreases |cs|
  {
    if cs == [] {
      assert delta == [0];
      LoneZero(prev, at, size);
    } else {
      hide Decode, Xor8;
      assert IsChange(cs[0]);
      var rest := Written(cs[1..]) + [0];
      match cs[0]
      case Same(n) =>
        assert delta == [0, n] + rest;
        RunDecodes(prev, at, n, rest, size);
        InsideIsRefused(prev, rest, cs[1..], at + n, size);
      case Differs(x) =>
        assert delta == [x] + rest;
        ByteDecodes(prev, at, x, rest, size);
        InsideIsRefused(prev, rest, cs[1..], at + 1, size);
    }
  }

  lemma {:induction false} RefusedEndsInside(prev: seq<byte>, delta: seq<byte>, at: nat, size: nat)
    returns (cs: seq<Change>)
    requires at <= size <= |prev| && Decode(prev, delta, at, size) == None
    ensures EndsInside(delta, cs, size - at)
    decreases |delta|
  {
    if |delta| >= 2 || delta[0] != 0 {
      var c := RefusedTail(prev, delta, at, size);
      hide Decode, Written, Span, IsChange;
      var n := if c.Same? then 2 else 1;
      var m := if c.Same? && c.n <= size - at then c.n else if c.Same? then size - at else 1;
      var more := RefusedEndsInside(prev, delta[n..], at + m, size);
      cs := [c] + more;
      ChangeFirst(delta, c, n, more, size - at, size - at - m);
    } else {
      cs := [];
      assert delta == [0];
    }
  }

  /** A refused delta that goes on after its first item is refused there. */
  lemma RefusedTail(prev: seq<byte>, delta: seq<byte>, at: nat, size: nat) returns (c: Change)
    requires at <= size <= |prev| && Decode(prev, delta, at, size) == None
    requires |delta| >= 2 || (delta != [] && delta[0] != 0)
    ensures at < size && IsChange(c)
    ensures if c.Same? then |delta| >= 2 && delta[..2] == [0, c.n] else delta[..1] == [c.x]
    ensures var m := if c.Same? && c.n <= size - at then c.n else if c.Same? then size - at else 1;
            Decode(prev, delta[if c.Same? then 2 else 1..], at + m, size) == None
  {
    hide Xor8;
    c := if delta[0] != 0 then Differs(delta[0]) else Same(delta[1]);
  }

  lemma ChangeFirst(delta: seq<byte>, c: Change, n: nat, more: seq<Change>, left: nat, rest: nat)
    requires IsChange(c) && n <= |delta| && EndsInside(delta[n..], more, rest)
    requires delta[..n] == if c.Same? then [0, c.n] else [c.x]
    requires rest == left - (if c.Same? then (if c.n <= left then c.n else left) else 1)
    ensures EndsInside(delta, [c] + more, left)
  {
    var cs := [c] + more;
    assert cs[1..] == more;
    assert delta == delta[..n] + delta[n..];
    assert delta[..n] + (Written(more) + [0]) == (delta[..n] + Written(more)) + [0];
  }

  /** The decoder refuses a delta exactly when, with output still to fill, it ends after the
      zero byte of an item. */
  lemma RefusedIffEndsInside(prev: seq<byte>, delta: seq<byte>, size: nat)
    requires size <= |prev|
    ensures Decode(prev, delta, 0, size) == None <==> exists cs: seq<Change> :: EndsInside(delta, cs, size)
  {
    hide Decode, EndsInside;
    if Decode(prev, delta, 0, size) == None {
      var cs := RefusedEndsInside(prev, delta, 0, size);
    }
    if cs: seq<Change> :| EndsInside(delta, cs, size) {
      InsideIsRefused(prev, delta, cs, 0, size);
    }
  }

  // ----- size

  /** Worst case three bytes out for two bytes in, plus one half. */
  lemma {:induction false} SizeBoundFrom(prev: seq<byte>, curr: seq<byte>, i: nat)
    requires |prev| == |curr| && i <= |prev|
    ensures 2 * |EncodeFrom(prev, curr, i)| <= 3 * (|prev| - i) + 1
    ensures i == |prev| || prev[i] != curr[i] ==> 2 * |EncodeFrom(prev, curr, i)| <= 3 * (|prev| - i)
    decreases |prev| - i
  {
    if i < |prev| {
      SizeBoundFrom(prev, curr, ItemEnd(prev, curr, i));
    }
  }

  lemma SizeBound(prev: seq<byte>, curr: seq<byte>)
    requires |prev| == |curr|
    ensures 2 * |Encode(prev, curr)| <= 3 * |prev| + 1
  {
    SizeBoundFrom(prev, curr, 0);
  }

  function Zeros(n: nat): (s: seq<byte>)
    ensures |s| == n
  {
    seq(n, _ => 0)
  }

  /** Every other byte differs from zero, the first does not. */
  function Alternating(n: nat): (s: seq<byte>)
    ensures |s| == n
  {
    seq(n, k => k % 2)
  }

  /** An equal byte before a different one, or at the end, takes two bytes. */
  lemma OneEqual(prev: seq<byte>, curr: seq<byte>, i: nat)
    requires |prev| == |curr| && i < |prev| && prev[i] == curr[i]
    requires i + 1 < |prev| ==> prev[i + 1] != curr[i + 1]
    ensures |EncodeFrom(prev, curr, i)| == 2 + |EncodeFrom(prev, curr, i + 1)|
  {
    assert prev[i..i + 1] == curr[i..i + 1];
    assert EqualEnd(prev, curr, i, i + 1) == i + 1;
    EncodeStep(prev, curr, i);
  }

  lemma OneDifferent(prev: seq<byte>, curr: seq<byte>, i: nat)
    requires |prev| == |curr| && i < |prev| && prev[i] != curr[i]
    ensures |EncodeFrom(prev, curr, i)| == 1 + |EncodeFrom(prev, curr, i + 1)|
  {
    EncodeStep(prev, curr, i);
  }

  lemma {:induction false} AlternatingFrom(n: nat, i: nat)
    requires i <= n && i % 2 == 0
    ensures |EncodeFrom(Zeros(n), Alternating(n), i)| == (3 * (n - i) + 1) / 2
    decreases n - i
  {
    hide EncodeFrom;
    var prev, curr := Zeros(n), Alternating(n);
    EncodeStep(prev, curr, n);
    if i < n {
      OneEqual(prev, curr, i);
      if i + 1 < n {
        OneDifferent(prev, curr, i + 1);
        AlternatingFrom(n, i + 2);
      }
    }
  }

  /** The bound is reached for every length. */
  lemma SizeBoundIsTight(n: nat)
    ensures |Encode(Zeros(n), Alternating(n))| == (3 * n + 1) / 2
  {
    AlternatingFrom(n, 0);
  }

  // ----- the program

  method EncodeItem(prev: seq<byte>, curr: seq<byte>, i: nat, out: array<byte>, at: nat)
    returns (ok: bool, i': nat, at': nat)
    requires |prev| == |curr| && i < |prev| && at <= out.Length
    modifies out
    ensures var item := Item(prev, curr, i);
            && (ok <==> at + |item| <= out.Length)
            && (ok ==> && i' == ItemEnd(prev, curr, i) && at' == at + |item|
                       && out[..at'] == old(out[..at]) + item && out[at'..] == old(out[at'..]))
    ensures !ok ==> out[..] == old(out[..])
  {
    ok := false;
    i', at' := i, at;
    var x := Xor8(prev[i], curr[i]);
    if x == 0 {
      while i' < |prev| && Xor8(prev[i'], curr[i']) == 0 && i' - i < MAX_RUN
        invariant i <= i' <= |prev| && i' - i <= MAX_RUN && prev[i..i'] == curr[i..i']
        invariant EqualEnd(prev, curr, i, i') == EqualEnd(prev, curr, i, i)
      {
        assert prev[i..i' + 1] == prev[i..i'] + [prev[i']];
        assert curr[i..i' + 1] == curr[i..i'] + [curr[i']];
        i' := i' + 1;
      }
      var run := i' - i;
      if at + 2 > out.Length {
        return;
      }
      Emit(out, at, [0, run]);
      at' := at + 2;
    } else {
      if at + 1 > out.Length {
        return;
      }
      Emit(out, at, [x]);
      at' := at + 1;
      i' := i + 1;
    }
    ok := true;
  }

  /** Encode into `out`; -1 when the arguments are empty or the delta does not fit. */
  method DeltaEncode(prev: seq<byte>, curr: seq<byte>, out: array<byte>) returns (r: int)
    requires |prev| == |curr|
    modifies out
    ensures |prev| == 0 || out.Length == 0 ==> r == -1 && out[..] == old(out[..])
    ensures |prev| > 0 && out.Length > 0 ==>
              var d := Encode(prev, curr);
              if |d| > out.Length then r == -1
              else r == CInt(|d|) && out[..|d|] == d && out[|d|..] == old(out[|d|..])
  {
    if |prev| == 0 || out.Length == 0 {
      return -1;
    }
    hide CInt, Item, ItemEnd, EncodeFrom;
    var i, at := 0, 0;
    while i < |prev|
      invariant 0 <= i <= |prev| && 0 <= at <= out.Length
      invariant Encode(prev, curr) == out[..at] + EncodeFrom(prev, curr, i)
      invariant out[at..] == old(out[at..])
      decreases |prev| - i
    {
      EncodeStep(prev, curr, i);
      ghost var before, done, item := out[..], out[..at], Item(prev, curr, i);
      var ok, i', at' := EncodeItem(prev, curr, i, out, at);
      if !ok {
        return -1;
      }
      ConcatAssoc(done, item, EncodeFrom(prev, curr, i'));
      ShorterSuffix(before, old(out[..]), at, at');
      i, at := i', at';
    }
    EncodeStep(prev, curr, i);
    return CInt(at);
  }

  method DecodeOne(prev: seq<byte>, delta: seq<byte>, di: nat, out: array<byte>, at: nat)
    returns (ok: bool, di': nat, at': nat)
    requires di < |delta| && at < out.Length <= |prev|
    modifies out
    ensures var d := DecodeItem(prev, delta[di..], at, out.Length);
            && (ok <==> d.Some?)
            && (ok ==> && di' == di + d.value.1 && at' == at + |d.value.0|
                       && out[..at'] == old(out[..at]) + d.value.0 && out[at'..] == old(out[at'..]))
  {
    ok := false;
    di', at' := di + 1, at;
    var b := delta[di];
    if b == 0 {
      if di' >= |delta| {
        return;
      }
      var run := delta[di'];
      di' := di' + 1;
      var r := 0;
      while r < run && at' < out.Length
        invariant 0 <= r <= run && at' == at + r <= out.Length
        invariant out[..at'] == old(out[..at]) + prev[at..at']
        invariant out[at'..] == old(out[at'..])
      {
        out[at'] := prev[at'];
        assert out[at' + 1..] == out[at'..][1..];
        at' := at' + 1;
        r := r + 1;
      }
    } else {
      Emit(out, at, [Xor8(prev[at], b)]);
      at' := at + 1;
    }
    ok := true;
  }

  /** `whole` is the result when `done` has been decoded and `rest` is still to come. */
  ghost predicate Decoding(whole: Option<seq<byte>>, done: seq<byte>, prev: seq<byte>, rest: seq<byte>, size: nat) {
    |done| <= size <= |prev| && whole == Prepend(done, Decode(prev, rest, |done|, size))
  }

  lemma DecodeBegins(prev: seq<byte>, delta: seq<byte>, size: nat)
    requires size <= |prev|
    ensures Decoding(Decode(prev, delta, 0, size), [], prev, delta, size)
  {
    hide Decode;
    PrependNothing(Decode(prev, delta, 0, size));
  }

  lemma DecodeGoesOn(whole: Option<seq<byte>>, done: seq<byte>, prev: seq<byte>, rest: seq<byte>, size: nat)
    requires Decoding(whole, done, prev, rest, size) && rest != [] && |done| < size
    ensures match DecodeItem(prev, rest, |done|, size)
            case None => whole == None
            case Some((chunk, n)) => Decoding(whole, done + chunk, prev, rest[n..], size)
  {
    hide DecodeItem;
    var d := DecodeItem(prev, rest, |done|, size);
    if d.Some? {
      PrependTwice(done, d.value.0, Decode(prev, rest[d.value.1..], |done| + |d.value.0|, size));
    }
  }

  lemma DecodeEnds(whole: Option<seq<byte>>, done: seq<byte>, prev: seq<byte>, rest: seq<byte>, size: nat)
    requires Decoding(whole, done, prev, rest, size) && (rest == [] || |done| == size)
    ensures whole == Some(done)
  {
    assert done + [] == done;
  }

  /** Decode into `out`; -1 when the arguments are empty or the delta ends inside an item. */
  method DeltaDecode(prev: seq<byte>, delta: seq<byte>, out: array<byte>) returns (r: int)
    requires out.Length <= |prev|
    modifies out
    ensures |delta| == 0 || out.Length == 0 ==> r == -1 && out[..] == old(out[..])
    ensures |delta| > 0 && out.Length > 0 ==>
              match Decode(prev, delta, 0, out.Length)
              case None => r == -1
              case Some(x) => |x| <= out.Length && r == CInt(|x|) && out[..|x|] == x
                              && out[|x|..] == old(out[|x|..])
  {
    if |delta| == 0 || out.Length == 0 {
      return -1;
    }
    var di, at := 0, 0;
    ghost var whole := Decode(prev, delta, 0, out.Length);
    assert delta[0..] == delta && out[..0] == [];
    DecodeBegins(prev, delta, out.Length);
    hide CInt, DecodeItem, Decode, Decoding;
    while di < |delta| && at < out.Length
      invariant 0 <= di <= |delta| && 0 <= at <= out.Length
      invariant Decoding(whole, out[..at], prev, delta[di..], out.Length)
      invariant out[at..] == old(out[at..])
      decreases |delta| - di
    {
      DecodeGoesOn(whole, out[..at], prev, delta[di..], out.Length);
      ghost var before := out[..];
      var ok, di', at' := DecodeOne(prev, delta, di, out, at);
      if !ok {
        return -1;
      }
      SuffixOfSuffix(delta, di, di' - di);
      ShorterSuffix(before, old(out[..]), at, at');
      di, at := di', at';
    }
    DecodeEnds(whole, out[..at], prev, delta[di..], out.Length);
    return CInt(at);
  }
}
