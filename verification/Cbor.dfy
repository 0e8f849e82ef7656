/** The CBOR byte layer (RFC 8949, section 3, with the shortest-form heads of section 4.2.1)
    for the kinds of value the protocol uses. */
module Cbor {
  import opened Syntax

  type Int65 = n: int | -0x1_0000_0000_0000_0000 <= n < 0x1_0000_0000_0000_0000

  datatype Value =
    | Integer(n: Int65)
    | ByteString(bytes: Bytes)
    | Array(items: seq<Value>)
    | Null

  /** Array lengths fit the 64-bit argument of a head. */
  ghost predicate Sized(v: Value)
  {
    v.Array? ==>
      |v.items| < 0x1_0000_0000_0000_0000 && forall i :: 0 <= i < |v.items| ==> Sized(v.items[i])
  }

  ghost predicate AllSized(s: seq<Value>)
  {
    forall i :: 0 <= i < |s| ==> Sized(s[i])
  }

  /** The `width` low-order bytes of `n`, most significant first. */
  function BigEndian(n: nat, width: nat): (r: seq<U8>)
    ensures |r| == width
  {
    if width == 0 then [] else BigEndian(n / 256, width - 1) + [n % 256]
  }

  function FromBigEndian(b: seq<U8>): nat
  {
    if b == [] then 0 else FromBigEndian(b[..|b| - 1]) * 256 + b[|b| - 1]
  }

  /** The head of a data item: its major type and argument, in shortest form. */
  function Head(major: nat, n: nat): (r: seq<U8>)
    requires major < 8
    ensures |r| > 0
  {
    if n < 24 then [major * 32 + n]
    else if n < 0x100 then [major * 32 + 24] + BigEndian(n, 1)
    else if n < 0x1_0000 then [major * 32 + 25] + BigEndian(n, 2)
    else if n < 0x1_0000_0000 then [major * 32 + 26] + BigEndian(n, 4)
    else [major * 32 + 27] + BigEndian(n, 8)
  }

  function Encode(v: Value): (r: seq<U8>)
    ensures |r| > 0
    decreases v, 0
  {
    match v
    case Integer(n) => if n >= 0 then Head(0, n) else Head(1, -1 - n)
    case ByteString(b) => Head(2, |b|) + b
    case Array(items) => Head(4, |items|) + EncodeAll(items)
    case Null => [0xf6]
  }

  function EncodeAll(s: seq<Value>): seq<U8>
    decreases s, 0
  {
    if s == [] then [] else Encode(s[0]) + EncodeAll(s[1..])
  }

  /** Read a head: its major type, its argument, and the bytes after it. */
  function DecodeHead(b: seq<U8>): (r: Option<(nat, nat, seq<U8>)>)
    ensures r.Some? ==> |r.value.2| < |b|
  {
    if b == [] then None else
    var major, info := b[0] / 32, b[0] % 32;
    var width := if info < 24 then 0 else if info == 24 then 1 else if info == 25 then 2
      else if info == 26 then 4 else 8;
    if info > 27 || |b| < 1 + width then None
    else if width == 0 then Some((major, info, b[1..]))
    else Some((major, FromBigEndian(b[1..1 + width]), b[1 + width..]))
  }

  /** Read one value, with arrays nested at most `limit` deep, and the bytes after it. */
  function Decode(b: seq<U8>, limit: nat): (r: Option<(Value, seq<U8>)>)
    ensures r.Some? ==> |r.value.1| < |b|
    decreases |b|, 0
  {
    if b != [] && b[0] == 0xf6 then Some((Null, b[1..])) else
    var (major, n, rest) :- DecodeHead(b);
    if n >= 0x1_0000_0000_0000_0000 then None
    else if major == 0 then Some((Integer(n), rest))
    else if major == 1 then Some((Integer(-1 - n), rest))
    else if major == 2 then if n <= |rest| then Some((ByteString(rest[..n]), rest[n..])) else None
    else if major == 4 && limit > 0 then
      var (items, tail) :- DecodeAll(n, rest, limit - 1);
      Some((Array(items), tail))
    else None
  }

  function DecodeAll(n: nat, b: seq<U8>, limit: nat): (r: Option<(seq<Value>, seq<U8>)>)
    ensures r.Some? ==> |r.value.1| <= |b|
    decreases |b|, 1
  {
    if n == 0 then Some(([], b)) else
    var (v, rest) :- Decode(b, limit);
    var (items, tail) :- DecodeAll(n - 1, rest, limit);
    Some(([v] + items, tail))
  }

  /** How deep arrays are nested in a value. */
  function Depth(v: Value): nat
    decreases v, 0
  {
    if v.Array? then 1 + DepthAll(v.items) else 0
  }

  function DepthAll(s: seq<Value>): nat
    decreases s, 0
  {
    if s == [] then 0 else Max(Depth(s[0]), DepthAll(s[1..]))
  }

  function Max(m: nat, n: nat): nat { if m < n then n else m }

  /** An array is nested one deeper than its deepest item. */
  lemma {:induction false} DepthOf(s: seq<Value>, d: nat, deepest: nat)
    requires forall i :: 0 <= i < |s| ==> Depth(s[i]) <= d
    requires if s == [] then d == 0 else deepest < |s| && Depth(s[deepest]) == d
    ensures DepthAll(s) == d
  {
    hide Depth;
    DepthAtMost(s, d);
    if s != [] { DepthAtLeast(s, deepest); }
  }

  lemma {:induction false} DepthAtMost(s: seq<Value>, d: nat)
    requires forall i :: 0 <= i < |s| ==> Depth(s[i]) <= d
    ensures DepthAll(s) <= d
  {
    hide Depth;
    if s != [] { DepthAtMost(s[1..], d); }
  }

  lemma {:induction false} DepthAtLeast(s: seq<Value>, i: nat)
    requires i < |s|
    ensures Depth(s[i]) <= DepthAll(s)
  {
    hide Depth;
    if i > 0 { DepthAtLeast(s[1..], i - 1); }
  }

  function Power(width: nat): nat { if width == 0 then 1 else 256 * Power(width - 1) }

  lemma {:induction false} BigEndianRoundTrip(n: nat, width: nat)
    requires n < Power(width)
    ensures FromBigEndian(BigEndian(n, width)) == n
  {
    if width > 0 {
      BigEndianRoundTrip(n / 256, width - 1);
      assert BigEndian(n, width)[..width - 1] == BigEndian(n / 256, width - 1);
    }
  }

  lemma Powers()
    ensures Power(1) == 0x100 && Power(2) == 0x1_0000 && Power(4) == 0x1_0000_0000
    ensures Power(8) == 0x1_0000_0000_0000_0000
  {
    assert Power(3) == 0x100_0000 && Power(5) == 0x100_0000_0000;
    assert Power(6) == 0x1_0000_0000_0000 && Power(7) == 0x100_0000_0000_0000;
  }

  lemma {:induction false} HeadRoundTrip(major: nat, n: nat, tail: seq<U8>)
    requires major < 8 && n < 0x1_0000_0000_0000_0000
    ensures DecodeHead(Head(major, n) + tail) == Some((major, n, tail))
  {
    hide BigEndian, FromBigEndian, Power;
    Powers();
    var h := Head(major, n);
    var b := h + tail;
    var width := |h| - 1;
    assert b[0] == h[0] && b[0] / 32 == major && b[1 + width..] == tail;
    if width > 0 {
      assert b[1..1 + width] == h[1..] == BigEndian(n, width);
      BigEndianRoundTrip(n, width);
    } else {
      assert b[1..] == tail;
    }
  }

  lemma DecodeStep(n: nat, b: seq<U8>, limit: nat)
    ensures DecodeAll(n, b, limit) == if n == 0 then Some(([], b)) else
      var (v, rest) :- Decode(b, limit);
      var (items, tail) :- DecodeAll(n - 1, rest, limit);
      Some(([v] + items, tail))
  {
    hide Decode;
  }

  lemma DecodeArray(b: seq<U8>, limit: nat, items: seq<Value>, tail: seq<U8>)
    requires limit > 0 && b != [] && b[0] == 0x80 + |items| < 0x98
    requires DecodeAll(|items|, b[1..], limit - 1) == Some((items, tail))
    ensures Decode(b, limit) == Some((Array(items), tail))
  {
    hide DecodeAll;
  }

  /** Decoding inverts encoding, whatever bytes follow, exactly when the value is not nested
      deeper than the reader allows. */
  lemma {:induction false} RoundTrip(v: Value, tail: seq<U8>, limit: nat)
    requires Sized(v)
    ensures Decode(Encode(v) + tail, limit) == if Depth(v) <= limit then Some((v, tail)) else None
    decreases v, 0
  {
    hide Head, DecodeHead, EncodeAll, DecodeAll, DepthAll;
    HeadFirst(v);
    var b := Encode(v) + tail;
    assert b[0] == Encode(v)[0];
    match v
    case Integer(n) => if n >= 0 { HeadRoundTrip(0, n, tail); } else { HeadRoundTrip(1, -1 - n, tail); }
    case ByteString(s) =>
      assert b == Head(2, |s|) + (s + tail);
      HeadRoundTrip(2, |s|, s + tail);
      assert (s + tail)[..|s|] == s && (s + tail)[|s|..] == tail;
    case Array(items) =>
      assert b == Head(4, |items|) + (EncodeAll(items) + tail);
      HeadRoundTrip(4, |items|, EncodeAll(items) + tail);
      if limit > 0 { RoundTripAll(items, tail, limit - 1); }
    case Null =>
  }

  lemma {:induction false} RoundTripAll(s: seq<Value>, tail: seq<U8>, limit: nat)
    requires AllSized(s)
    ensures DecodeAll(|s|, EncodeAll(s) + tail, limit) == if DepthAll(s) <= limit then Some((s, tail)) else None
    decreases s, 0
  {
    hide Encode, Decode, Depth;
    if s == [] {
      assert EncodeAll(s) + tail == tail;
    } else {
      assert EncodeAll(s) + tail == Encode(s[0]) + (EncodeAll(s[1..]) + tail);
      RoundTrip(s[0], EncodeAll(s[1..]) + tail, limit);
      RoundTripAll(s[1..], tail, limit);
      assert [s[0]] + s[1..] == s;
    }
  }

  /** Only `Null` starts with its own byte. */
  lemma HeadFirst(v: Value)
    ensures Encode(v)[0] == 0xf6 <==> v.Null?
  {
    hide BigEndian, EncodeAll;
  }

  /** No encoding is a proper prefix of another, and encoding is injective. */
  lemma {:induction false} PrefixFree(v: Value, w: Value, s: seq<U8>, t: seq<U8>)
    requires Sized(v) && Sized(w) && Encode(v) + s == Encode(w) + t
    ensures v == w && s == t
  {
    hide Encode, Decode, Depth;
    var limit := Depth(v) + Depth(w);
    RoundTrip(v, s, limit);
    RoundTrip(w, t, limit);
  }

  /** The head is the shortest: no shorter byte string reads as the same major type and argument. */
  lemma {:induction false} HeadShortest(major: nat, n: nat, b: seq<U8>)
    requires major < 8 && n < 0x1_0000_0000_0000_0000 && DecodeHead(b) == Some((major, n, []))
    ensures |Head(major, n)| <= |b|
  {
    hide BigEndian, FromBigEndian;
    var width := |b| - 1;
    if width == 1 {
      BigEndianBound(b[1..2]);
    } else if width == 2 {
      BigEndianBound(b[1..3]);
    } else if width == 4 {
      BigEndianBound(b[1..5]);
    }
    Powers();
  }

  lemma {:induction false} BigEndianBound(b: seq<U8>)
    ensures FromBigEndian(b) < Power(|b|)
  {
    if b != [] { BigEndianBound(b[..|b| - 1]); }
  }

  /** Examples of RFC 8949, Appendix A. */
  lemma IntegerExamples()
    ensures Encode(Integer(0)) == [0x00] && Encode(Integer(23)) == [0x17] && Encode(Integer(24)) == [0x18, 0x18]
    ensures Encode(Integer(1000)) == [0x19, 0x03, 0xe8]
    ensures Encode(Integer(1000000)) == [0x1a, 0x00, 0x0f, 0x42, 0x40]
    ensures Encode(Integer(1000000000000)) == [0x1b, 0x00, 0x00, 0x00, 0xe8, 0xd4, 0xa5, 0x10, 0x00]
    ensures Encode(Integer(-1)) == [0x20] && Encode(Integer(-100)) == [0x38, 0x63]
  {
    hide BigEndian, FromBigEndian;
    OneByte(24, [24]);
    OneByte(99, [99]);
    TwoBytes(1000, [0x03, 0xe8]);
    FourBytes(1000000, [0x00, 0x0f, 0x42, 0x40]);
    EightBytes(1000000000000, [0x00, 0x00, 0x00, 0xe8, 0xd4, 0xa5, 0x10, 0x00]);
  }

  lemma OtherExamples()
    ensures Encode(Null) == [0xf6] && Encode(ByteString([1, 2, 3, 4])) == [0x44, 0x01, 0x02, 0x03, 0x04]
    ensures Encode(Array([])) == [0x80]
    ensures Encode(Array([Integer(1), Integer(2), Integer(3)])) == [0x83, 0x01, 0x02, 0x03]
  {
    hide BigEndian, EncodeAll;
    NoItems();
    ThreeItems(Integer(1), Integer(2), Integer(3));
    assert Encode(Integer(1)) == [1] && Encode(Integer(2)) == [2] && Encode(Integer(3)) == [3];
  }

  function Word(a: U8, b: U8, c: U8, d: U8): nat {
    var n: nat := a;
    ((n * 0x100 + b) * 0x100 + c) * 0x100 + d
  }

  lemma OneByte(n: nat, b: seq<U8>)
    requires |b| == 1 && n == b[0]
    ensures BigEndian(n, 1) == b
  {
    assert b[..0] == [];
    BigEndianBytes(n, b);
  }

  lemma TwoBytes(n: nat, b: seq<U8>)
    requires |b| == 2 && n == (b[0] as int) * 0x100 + (b[1] as int)
    ensures BigEndian(n, 2) == b
  {
    FromShifted(b);
    FromShifted(b[..1]);
    BigEndianBytes(n, b);
  }

  lemma FourBytes(n: nat, b: seq<U8>)
    requires |b| == 4 && n == Word(b[0], b[1], b[2], b[3])
    ensures BigEndian(n, 4) == b
  {
    FromFour(b);
    BigEndianBytes(n, b);
  }

  lemma FromFour(b: seq<U8>)
    requires |b| == 4
    ensures FromBigEndian(b) == Word(b[0], b[1], b[2], b[3])
  {
    hide FromBigEndian;
    FromShifted(b);
    FromShifted(b[..3]);
    FromShifted(b[..2]);
    FromShifted(b[..1]);
    assert b[..3][..2] == b[..2] && b[..2][..1] == b[..1] && b[..1][..0] == [];
  }

  lemma EightBytes(n: nat, b: seq<U8>)
    requires |b| == 8 && n == 0x1_0000_0000 * Word(b[0], b[1], b[2], b[3]) + Word(b[4], b[5], b[6], b[7])
    ensures BigEndian(n, 8) == b
  {
    hide FromBigEndian;
    FromShifted(b);
    FromShifted(b[..7]);
    FromShifted(b[..6]);
    FromShifted(b[..5]);
    FromFour(b[..4]);
    assert b[..7][..6] == b[..6] && b[..6][..5] == b[..5] && b[..5][..4] == b[..4];
    BigEndianBytes(n, b);
  }

  lemma FromShifted(b: seq<U8>)
    requires b != []
    ensures FromBigEndian(b) == FromBigEndian(b[..|b| - 1]) * 256 + b[|b| - 1]
    ensures FromBigEndian([]) == 0
  {
  }

  lemma {:induction false} BigEndianBytes(n: nat, b: seq<U8>)
    requires FromBigEndian(b) == n
    ensures BigEndian(n, |b|) == b
  {
    if b != [] {
      var k := |b| - 1;
      BigEndianBytes(FromBigEndian(b[..k]), b[..k]);
      assert b == b[..k] + [b[k]];
    }
  }

  lemma NoItems()
    ensures EncodeAll([]) == []
  {
  }

  lemma FirstItem(v: Value, s: seq<Value>)
    ensures EncodeAll([v] + s) == Encode(v) + EncodeAll(s)
  {
    hide Encode;
    assert ([v] + s)[1..] == s;
  }

  lemma TwoItems(v: Value, w: Value)
    ensures EncodeAll([v, w]) == Encode(v) + Encode(w)
  {
    hide Encode, EncodeAll;
    NoItems();
    FirstItem(v, [w]);
    FirstItem(w, []);
    assert [v] + [w] == [v, w] && [w] + [] == [w] && Encode(w) + [] == Encode(w);
  }

  lemma ThreeItems(u: Value, v: Value, w: Value)
    ensures EncodeAll([u, v, w]) == Encode(u) + Encode(v) + Encode(w)
  {
    hide Encode, EncodeAll;
    FirstItem(u, [v, w]);
    TwoItems(v, w);
    assert [u] + [v, w] == [u, v, w];
  }

  lemma LeafBytes(n: Int65, b: Bytes)
    requires n >= 0
    ensures Encode(Integer(n)) == Head(0, n) && Encode(ByteString(b)) == Head(2, |b|) + b
  {
  }

  lemma ArrayBytes(s: seq<Value>)
    ensures Encode(Array(s)) == Head(4, |s|) + EncodeAll(s)
  {
  }
}
