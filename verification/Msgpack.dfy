/** The MessagePack format: the extractor's byte writer, and a decoder written from the
    MessagePack specification. */
module Msgpack {
  import opened Sequences
  import opened Wrappers

  type Byte = b: int | 0 <= b < 256
  type Bytes = seq<Byte>

  // ----- Big-endian numbers -----

  function Pow256(k: nat): nat
    ensures Pow256(k) > 0
  {
    if k == 0 then 1 else 256 * Pow256(k - 1)
  }

  /** The low `k` bytes of `v` in two's complement, most significant first. */
  function BigEndian(v: int, k: nat): (bs: Bytes)
    ensures |bs| == k
    decreases k
  {
    if k == 0 then [] else BigEndian(v / 256, k - 1) + [v % 256]
  }

  function Number(bs: Bytes): nat {
    if bs == [] then 0 else Number(bs[..|bs| - 1]) * 256 + bs[|bs| - 1]
  }

  lemma {:induction false} ProductIsNatural(m: nat, d: nat)
    ensures 0 <= m * d
  {
    if d > 0 {
      ProductIsNatural(m, d - 1);
      assert m * d == m * (d - 1) + m;
    }
  }

  lemma MultipleIsZeroOrLarge(m: nat, d: int)
    ensures d == 0 || m <= m * d || m * d + m <= 0
  {
    if d > 0 {
      ProductIsNatural(m, d - 1);
      assert m * d == m * (d - 1) + m;
    } else if d < 0 {
      ProductIsNatural(m, -d - 1);
      assert m * d + m == 0 - m * (-d - 1);
    }
  }

  lemma ModuloIsUnique(x: int, m: nat, q: int, r: nat)
    requires r < m && x == m * q + r
    ensures x % m == r && x / m == q
  {
    var d := x / m - q;
    assert m * d == m * (x / m) - m * q == r - x % m;
    MultipleIsZeroOrLarge(m, d);
  }

  lemma SmallModulo(n: nat, m: nat)
    requires n < m
    ensures n % m == n
  {
  }

  lemma ModuloSplits(v: int, p: nat)
    requires p > 0
    ensures v % (256 * p) == (v / 256 % p) * 256 + v % 256
  {
    var a, b := v / 256, v % 256;
    var q, r := a / p, a % p;
    assert a == p * q + r;
    assert v == 256 * (p * q + r) + b == (256 * p) * q + (256 * r + b);
    assert 256 * r + b < 256 * p;
    ModuloIsUnique(v, 256 * p, q, 256 * r + b);
  }

  /** Reading back big-endian bytes gives the number modulo the width. */
  lemma {:induction false} NumberOfBigEndian(v: int, k: nat)
    ensures Number(BigEndian(v, k)) == v % Pow256(k)
    decreases k
  {
    if k > 0 {
      NumberOfBigEndian(v / 256, k - 1);
      ModuloSplits(v, Pow256(k - 1));
      assert BigEndian(v, k)[..k - 1] == BigEndian(v / 256, k - 1);
    }
  }

  lemma {:induction false} NumberIsBounded(bs: Bytes)
    ensures Number(bs) < Pow256(|bs|)
  {
    if bs != [] {
      NumberIsBounded(bs[..|bs| - 1]);
    }
  }

  lemma Pow256Values()
    ensures Pow256(1) == 0x100 && Pow256(2) == 0x1_0000 && Pow256(4) == 0x1_0000_0000
    ensures Pow256(8) == 0x1_0000_0000_0000_0000
  {
    assert Pow256(3) == 256 * Pow256(2) && Pow256(4) == 256 * Pow256(3) && Pow256(5) == 256 * Pow256(4);
    assert Pow256(6) == 256 * Pow256(5) && Pow256(7) == 256 * Pow256(6) && Pow256(8) == 256 * Pow256(7);
  }

  // ----- Encodings -----

  function UintBytes(v: nat): Bytes {
    if v <= 0x7f then [v]
    else if v <= 0xff then [0xcc] + BigEndian(v, 1)
    else if v <= 0xffff then [0xcd] + BigEndian(v, 2)
    else if v <= 0xffff_ffff then [0xce] + BigEndian(v, 4)
    else [0xcf] + BigEndian(v, 8)
  }

  function IntBytes(v: int): Bytes {
    if 0 <= v <= 0x7f then [v]
    else if -32 <= v < 0 then [256 + v]
    else if -128 <= v <= 127 then [0xd0] + BigEndian(v, 1)
    else if -32768 <= v <= 32767 then [0xd1] + BigEndian(v, 2)
    else if -2147483648 <= v <= 2147483647 then [0xd2] + BigEndian(v, 4)
    else [0xd3] + BigEndian(v, 8)
  }

  function StrHeader(n: nat): Bytes {
    if n <= 31 then [0xa0 + n]
    else if n <= 0xff then [0xd9] + BigEndian(n, 1)
    else if n <= 0xffff then [0xda] + BigEndian(n, 2)
    else [0xdb] + BigEndian(n, 4)
  }

  function BinHeader(n: nat): Bytes {
    if n <= 0xff then [0xc4] + BigEndian(n, 1)
    else if n <= 0xffff then [0xc5] + BigEndian(n, 2)
    else [0xc6] + BigEndian(n, 4)
  }

  const TWO_TO_32: nat := 0x1_0000_0000

  /** Counts are passed as 32-bit numbers, so a larger count loses its high bits first. */
  function ArrayHeader(count: nat): Bytes {
    var n := count % TWO_TO_32;
    if n <= 15 then [0x90 + n]
    else if n <= 0xffff then [0xdc] + BigEndian(n, 2)
    else [0xdd] + BigEndian(n, 4)
  }

  function MapHeader(count: nat): Bytes {
    var n := count % TWO_TO_32;
    if n <= 15 then [0x80 + n]
    else if n <= 0xffff then [0xde] + BigEndian(n, 2)
    else [0xdf] + BigEndian(n, 4)
  }

  function StrBytes(s: Bytes): Bytes {
    StrHeader(|s|) + s
  }

  function BinBytes(s: Bytes): Bytes {
    BinHeader(|s|) + s
  }

  // ----- The writer -----

  /** An arithmetic right shift by `8 * k` bits, masked to one byte. */
  function ByteOf(v: int, k: nat): Byte {
    v / Pow256(k) % 256
  }

  lemma DivideTwice(v: int, p: nat)
    requires p > 0
    ensures v / 256 / p == v / (256 * p)
  {
    var a, b := v / 256, v % 256;
    var q, r := a / p, a % p;
    assert a == p * q + r;
    assert v == 256 * (p * q + r) + b == (256 * p) * q + (256 * r + b);
    assert 256 * r + b < 256 * p;
    ModuloIsUnique(v, 256 * p, q, 256 * r + b);
  }

  lemma {:induction false} BigEndianByte(v: int, k: nat, i: nat)
    requires i < k
    ensures BigEndian(v, k)[i] == ByteOf(v, k - 1 - i)
    decreases k
  {
    if i < k - 1 {
      var j: nat := k - 2 - i;
      BigEndianByte(v / 256, k - 1, i);
      DivideTwice(v, Pow256(j));
      assert v / 256 / Pow256(j) == v / Pow256(j + 1);
    } else {
      assert Pow256(0) == 1 && v / 1 == v;
    }
  }

  class MsgpackWriter {
    var out: Bytes

    constructor ()
      ensures out == []
    {
      out := [];
    }

    method WriteNil()
      modifies this
      ensures out == old(out) + [0xc0]
    {
      out := out + [0xc0];
    }

    method WriteBool(v: bool)
      modifies this
      ensures out == old(out) + (if v then [0xc3] else [0xc2])
    {
      out := out + (if v then [0xc3] else [0xc2]);
    }

    /** The low `k` bytes of `v`, shifted out one by one. */
    method WriteShifted(v: int, k: nat)
      modifies this
      ensures out == old(out) + BigEndian(v, k)
    {
      for i := 0 to k
        invariant out == old(out) + BigEndian(v, k)[..i]
      {
        BigEndianByte(v, k, i);
        out := out + [ByteOf(v, k - 1 - i)];
      }
    }

    /** A tag byte and the value's `k` bytes. */
    method WriteTagged(tag: Byte, v: int, k: nat)
      modifies this
      ensures out == old(out) + ([tag] + BigEndian(v, k))
    {
      ghost var before := out;
      out := out + [tag];
      WriteShifted(v, k);
      ConcatAssociates(before, [tag], BigEndian(v, k));
    }

    method WriteInt(v: int)
      modifies this
      ensures out == old(out) + IntBytes(v)
    {
      if 0 <= v <= 0x7f {
        out := out + [v];
      } else if -32 <= v < 0 {
        out := out + [v % 256];
      } else if -128 <= v <= 127 {
        WriteTagged(0xd0, v, 1);
      } else if -32768 <= v <= 32767 {
        WriteTagged(0xd1, v, 2);
      } else if -2147483648 <= v <= 2147483647 {
        WriteTagged(0xd2, v, 4);
      } else {
        WriteTagged(0xd3, v, 8);
      }
    }

    method WriteUint(v: nat)
      modifies this
      ensures out == old(out) + UintBytes(v)
    {
      if v <= 0x7f {
        out := out + [v];
      } else if v <= 0xff {
        WriteTagged(0xcc, v, 1);
      } else if v <= 0xffff {
        WriteTagged(0xcd, v, 2);
      } else if v <= 0xffff_ffff {
        WriteTagged(0xce, v, 4);
      } else {
        WriteTagged(0xcf, v, 8);
      }
    }

    method WriteStr(s: Bytes)
      modifies this
      ensures out == old(out) + StrBytes(s)
    {
      var n := |s|;
      if n <= 31 {
        out := out + [0xa0 + n];
      } else if n <= 0xff {
        WriteTagged(0xd9, n, 1);
      } else if n <= 0xffff {
        WriteTagged(0xda, n, 2);
      } else {
        WriteTagged(0xdb, n, 4);
      }
      ConcatAssociates(old(out), StrHeader(n), s);
      out := out + s;
    }

    method WriteBin(s: Bytes)
      modifies this
      ensures out == old(out) + BinBytes(s)
    {
      var n := |s|;
      if n <= 0xff {
        WriteTagged(0xc4, n, 1);
      } else if n <= 0xffff {
        WriteTagged(0xc5, n, 2);
      } else {
        WriteTagged(0xc6, n, 4);
      }
      ConcatAssociates(old(out), BinHeader(n), s);
      out := out + s;
    }

    method WriteArrayHeader(count: nat)
      modifies this
      ensures out == old(out) + ArrayHeader(count)
    {
      var n := count % TWO_TO_32;
      if n <= 15 {
        out := out + [0x90 + n];
      } else if n <= 0xffff {
        WriteTagged(0xdc, n, 2);
      } else {
        WriteTagged(0xdd, n, 4);
      }
    }

    method WriteMapHeader(count: nat)
      modifies this
      ensures out == old(out) + MapHeader(count)
    {
      var n := count % TWO_TO_32;
      if n <= 15 {
        out := out + [0x80 + n];
      } else if n <= 0xffff {
        WriteTagged(0xde, n, 2);
      } else {
        WriteTagged(0xdf, n, 4);
      }
    }
  }

  // ----- The decoder -----

  datatype Value =
    | Nil
    | Bool(b: bool)
    | Int(i: int)
    | Str(s: Bytes)
    | Bin(s: Bytes)
    | Arr(items: seq<Value>)
    | Map(entries: seq<Entry>)

  datatype Entry = Entry(key: Value, value: Value)

  /** A first byte with the number that follows or is packed into it. */
  datatype Token =
    | NilToken
    | BoolToken(b: bool)
    | IntToken(i: int)
    | StrToken(length: nat)
    | BinToken(length: nat)
    | ArrToken(count: nat)
    | MapToken(count: nat)

  function TakeNumber(bs: Bytes, k: nat): Option<(nat, Bytes)> {
    if k <= |bs| then Some((Number(bs[..k]), bs[k..])) else None
  }

  function Signed(n: nat, k: nat): int {
    if 2 * n < Pow256(k) then n else n - Pow256(k)
  }

  /** How many number bytes follow a tag byte; none for formats that are not read. */
  function Width(tag: Byte): nat {
    if tag == 0xc4 || tag == 0xcc || tag == 0xd0 || tag == 0xd9 then 1
    else if tag == 0xc5 || tag == 0xcd || tag == 0xd1 || tag == 0xda || tag == 0xdc || tag == 0xde then 2
    else if tag == 0xc6 || tag == 0xce || tag == 0xd2 || tag == 0xdb || tag == 0xdd || tag == 0xdf then 4
    else if tag == 0xcf || tag == 0xd3 then 8
    else 0
  }

  function WideToken(tag: Byte, n: nat): Token {
    if tag <= 0xc6 then BinToken(n)
    else if tag <= 0xcf then IntToken(n)
    else if tag <= 0xd3 then IntToken(Signed(n, Width(tag)))
    else if tag <= 0xdb then StrToken(n)
    else if tag <= 0xdd then ArrToken(n)
    else MapToken(n)
  }

  /** The token at the front of the input. Formats for floats, extension types and the byte
      that is never used are not read. */
  function ReadToken(bs: Bytes): (r: Option<(Token, Bytes)>)
    ensures r.Some? ==> |r.value.1| < |bs|
  {
    if bs == [] then None
    else
      var b, rest := bs[0], bs[1..];
      if b <= 0x7f then Some((IntToken(b), rest))
      else if b <= 0x8f then Some((MapToken(b - 0x80), rest))
      else if b <= 0x9f then Some((ArrToken(b - 0x90), rest))
      else if b <= 0xbf then Some((StrToken(b - 0xa0), rest))
      else if b >= 0xe0 then Some((IntToken((b as int) - 256), rest))
      else if b == 0xc0 then Some((NilToken, rest))
      else if b == 0xc2 then Some((BoolToken(false), rest))
      else if b == 0xc3 then Some((BoolToken(true), rest))
      else
        match TakeNumber(rest, Width(b))
        case None => None
        case Some((n, tail)) => if Width(b) == 0 then None else Some((WideToken(b, n), tail))
  }

  /** The value at the front of the input and the bytes after it. */
  function Decode(bs: Bytes): (r: Option<(Value, Bytes)>)
    ensures r.Some? ==> |r.value.1| < |bs|
    decreases |bs|, 0
  {
    match ReadToken(bs)
    case None => None
    case Some((token, rest)) => Complete(token, rest)
  }

  /** The value that starts with a token, completed from the bytes after it. */
  function Complete(token: Token, rest: Bytes): (r: Option<(Value, Bytes)>)
    ensures r.Some? ==> |r.value.1| <= |rest|
    decreases |rest|, 2
  {
    match token
    case NilToken => Some((Nil, rest))
    case BoolToken(b) => Some((Bool(b), rest))
    case IntToken(i) => Some((Int(i), rest))
    case StrToken(n) => if n <= |rest| then Some((Str(rest[..n]), rest[n..])) else None
    case BinToken(n) => if n <= |rest| then Some((Bin(rest[..n]), rest[n..])) else None
    case ArrToken(n) =>
      (match DecodeItems(n, rest)
       case None => None
       case Some((items, tail)) => Some((Arr(items), tail)))
    case MapToken(n) =>
      (match DecodeEntries(n, rest)
       case None => None
       case Some((entries, tail)) => Some((Map(entries), tail)))
  }

  function DecodeItems(n: nat, bs: Bytes): (r: Option<(seq<Value>, Bytes)>)
    ensures r.Some? ==> |r.value.1| <= |bs| && |r.value.0| == n
    decreases |bs|, 1
  {
    if n == 0 then Some(([], bs))
    else
      match Decode(bs)
      case None => None
      case Some((first, rest)) =>
        match DecodeItems(n - 1, rest)
        case None => None
        case Some((others, tail)) => Some(([first] + others, tail))
  }

  function DecodeEntries(n: nat, bs: Bytes): (r: Option<(seq<Entry>, Bytes)>)
    ensures r.Some? ==> |r.value.1| <= |bs| && |r.value.0| == n
    decreases |bs|, 1
  {
    if n == 0 then Some(([], bs))
    else
      match Decode(bs)
      case None => None
      case Some((key, rest)) =>
        match Decode(rest)
        case None => None
        case Some((value, rest')) =>
          match DecodeEntries(n - 1, rest')
          case None => None
          case Some((others, tail)) => Some(([Entry(key, value)] + others, tail))
  }

  // ----- Scalars and headers are self-delimiting -----

  lemma TakeBigEndian(v: int, k: nat, rest: Bytes)
    ensures TakeNumber(BigEndian(v, k) + rest, k) == Some((v % Pow256(k), rest))
  {
    var bs := BigEndian(v, k) + rest;
    assert bs[..k] == BigEndian(v, k) && bs[k..] == rest;
    NumberOfBigEndian(v, k);
  }

  /** A tag byte followed by its big-endian bytes. */
  lemma ReadWide(tag: Byte, v: int, rest: Bytes)
    requires Width(tag) > 0
    ensures ReadToken([tag] + BigEndian(v, Width(tag)) + rest)
         == Some((WideToken(tag, v % Pow256(Width(tag))), rest))
  {
    var bs := [tag] + BigEndian(v, Width(tag)) + rest;
    assert bs[0] == tag && bs[1..] == BigEndian(v, Width(tag)) + rest;
    TakeBigEndian(v, Width(tag), rest);
  }

  /** A number that fits its width reads back unchanged. */
  lemma ReadSmall(tag: Byte, v: nat, rest: Bytes)
    requires Width(tag) > 0 && v < Pow256(Width(tag))
    ensures ReadToken([tag] + BigEndian(v, Width(tag)) + rest) == Some((WideToken(tag, v), rest))
  {
    SmallModulo(v, Pow256(Width(tag)));
    ReadWide(tag, v, rest);
  }

  lemma ReadByte(b: Byte, rest: Bytes)
    ensures ([b] + rest)[0] == b && ([b] + rest)[1..] == rest
  {
  }

  lemma ReadUint(v: nat, rest: Bytes)
    requires v < 0x1_0000_0000_0000_0000
    ensures ReadToken(UintBytes(v) + rest) == Some((IntToken(v), rest))
  {
    Pow256Values();
    if v <= 0x7f {
      ReadByte(v, rest);
    } else if v <= 0xff {
      ReadSmall(0xcc, v, rest);
    } else if v <= 0xffff {
      ReadSmall(0xcd, v, rest);
    } else if v <= 0xffff_ffff {
      ReadSmall(0xce, v, rest);
    } else {
      ReadSmall(0xcf, v, rest);
    }
  }

  /** Two's complement: the low bytes of a negative number read back with their sign. */
  lemma SignedModulo(v: int, k: nat)
    requires k > 0 && 0 <= 2 * v + Pow256(k) < 2 * Pow256(k)
    ensures Signed(v % Pow256(k), k) == v
  {
    ModuloIsUnique(v, Pow256(k), if v < 0 then -1 else 0, if v < 0 then v + Pow256(k) else v);
  }

  lemma ReadInt(v: int, rest: Bytes)
    requires -0x8000_0000_0000_0000 <= v < 0x8000_0000_0000_0000
    ensures ReadToken(IntBytes(v) + rest) == Some((IntToken(v), rest))
  {
    Pow256Values();
    if 0 <= v <= 0x7f {
      ReadByte(v, rest);
    } else if -32 <= v < 0 {
      ReadByte(256 + v, rest);
    } else if -128 <= v <= 127 {
      ReadWide(0xd0, v, rest);
      SignedModulo(v, 1);
    } else if -32768 <= v <= 32767 {
      ReadWide(0xd1, v, rest);
      SignedModulo(v, 2);
    } else if -2147483648 <= v <= 2147483647 {
      ReadWide(0xd2, v, rest);
      SignedModulo(v, 4);
    } else {
      ReadWide(0xd3, v, rest);
      SignedModulo(v, 8);
    }
  }

  lemma ReadStrHeader(n: nat, rest: Bytes)
    ensures ReadToken(StrHeader(n) + rest) == Some((StrToken(n % TWO_TO_32), rest))
  {
    Pow256Values();
    if n < TWO_TO_32 {
      SmallModulo(n, TWO_TO_32);
    }
    if n <= 31 {
      ReadByte(0xa0 + n, rest);
    } else if n <= 0xff {
      ReadSmall(0xd9, n, rest);
    } else if n <= 0xffff {
      ReadSmall(0xda, n, rest);
    } else {
      ReadWide(0xdb, n, rest);
    }
  }

  lemma ReadBinHeader(n: nat, rest: Bytes)
    ensures ReadToken(BinHeader(n) + rest) == Some((BinToken(n % TWO_TO_32), rest))
  {
    Pow256Values();
    if n <= 0xff {
      ReadWide(0xc4, n, rest);
    } else if n <= 0xffff {
      ReadWide(0xc5, n, rest);
    } else {
      ReadWide(0xc6, n, rest);
    }
  }

  lemma ReadArrayHeader(count: nat, rest: Bytes)
    ensures ReadToken(ArrayHeader(count) + rest) == Some((ArrToken(count % TWO_TO_32), rest))
  {
    Pow256Values();
    var n := count % TWO_TO_32;
    if n <= 15 {
      ReadByte(0x90 + n, rest);
    } else if n <= 0xffff {
      ReadSmall(0xdc, n, rest);
    } else {
      ReadSmall(0xdd, n, rest);
    }
  }

  lemma ReadMapHeader(count: nat, rest: Bytes)
    ensures ReadToken(MapHeader(count) + rest) == Some((MapToken(count % TWO_TO_32), rest))
  {
    Pow256Values();
    var n := count % TWO_TO_32;
    if n <= 15 {
      ReadByte(0x80 + n, rest);
    } else if n <= 0xffff {
      ReadSmall(0xde, n, rest);
    } else {
      ReadSmall(0xdf, n, rest);
    }
  }

  lemma DecodeByToken(bs: Bytes, token: Token, rest: Bytes)
    requires ReadToken(bs) == Some((token, rest))
    ensures Decode(bs) == Complete(token, rest)
  {
  }

  /** Cutting a length modulo 2^32 off a string and its suffix gives them back exactly when the
      length is below 2^32. */
  lemma CutModulo(s: Bytes, rest: Bytes)
    ensures var n := |s| % TWO_TO_32;
      n <= |s| && ((s + rest)[..n] == s && (s + rest)[n..] == rest <==> |s| < TWO_TO_32)
  {
    if |s| < TWO_TO_32 {
      SmallModulo(|s|, TWO_TO_32);
    }
  }

  /** A written string followed by anything reads back as that string and that suffix exactly
      when its length fits in 32 bits. */
  lemma StringsRoundTrip(s: Bytes, rest: Bytes)
    ensures Decode(StrBytes(s) + rest) == Some((Str(s), rest)) <==> |s| < TWO_TO_32
  {
    var token := StrToken(|s| % TWO_TO_32);
    ReadStrHeader(|s|, s + rest);
    ConcatAssociates(StrHeader(|s|), s, rest);
    DecodeByToken(StrBytes(s) + rest, token, s + rest);
    CutModulo(s, rest);
  }

  /** A string of 2^32 bytes is written with length 0, and its bytes are left over. */
  lemma LongStringIsLost(s: Bytes)
    requires |s| == TWO_TO_32
    ensures Decode(StrBytes(s)) == Some((Str([]), s))
  {
    ReadStrHeader(|s|, s);
    DecodeByToken(StrBytes(s), StrToken(0), s);
    assert s[..0] == [] && s[0..] == s;
  }

  lemma BinariesRoundTrip(s: Bytes, rest: Bytes)
    ensures Decode(BinBytes(s) + rest) == Some((Bin(s), rest)) <==> |s| < TWO_TO_32
  {
    var token := BinToken(|s| % TWO_TO_32);
    ReadBinHeader(|s|, s + rest);
    ConcatAssociates(BinHeader(|s|), s, rest);
    DecodeByToken(BinBytes(s) + rest, token, s + rest);
    CutModulo(s, rest);
  }

  /** No encoding that the decoder accepts for a 64-bit unsigned number is shorter than the
      one the writer chooses. */
  lemma UintIsShortest(v: nat, bs: Bytes)
    requires ReadToken(bs) == Some((IntToken(v), []))
    ensures |UintBytes(v)| <= |bs|
  {
    Pow256Values();
    if bs[0] > 0x7f && bs[0] < 0xe0 {
      NumberIsBounded(bs[1..]);
      assert bs[1..][..|bs| - 1] == bs[1..];
    }
  }

  // ----- Whole values -----

  /** The encoding of a value with every header derived from what follows it. */
  function Enc(v: Value): Bytes
    decreases v
  {
    match v
    case Nil => [0xc0]
    case Bool(b) => if b then [0xc3] else [0xc2]
    case Int(i) => if 0 <= i then UintBytes(i) else IntBytes(i)
    case Str(s) => StrBytes(s)
    case Bin(s) => BinBytes(s)
    case Arr(items) => ArrayHeader(|items|) + EncItems(items)
    case Map(entries) => MapHeader(|entries|) + EncEntries(entries)
  }

  function EncItems(items: seq<Value>): Bytes
    decreases items
  {
    if items == [] then [] else Enc(items[0]) + EncItems(items[1..])
  }

  function EncEntry(e: Entry): Bytes
    decreases e
  {
    Enc(e.key) + Enc(e.value)
  }

  function EncEntries(entries: seq<Entry>): Bytes
    decreases entries
  {
    if entries == [] then [] else EncEntry(entries[0]) + EncEntries(entries[1..])
  }

  /** Integers fit in 64 bits; strings, arrays and maps have fewer than 2^32 elements. */
  predicate Fits(v: Value)
    decreases v
  {
    match v
    case Nil => true
    case Bool(_) => true
    case Int(i) => -0x8000_0000_0000_0000 <= i < 0x1_0000_0000_0000_0000
    case Str(s) => |s| < TWO_TO_32
    case Bin(s) => |s| < TWO_TO_32
    case Arr(items) => |items| < TWO_TO_32 && ItemsFit(items)
    case Map(entries) => |entries| < TWO_TO_32 && EntriesFit(entries)
  }

  predicate ItemsFit(items: seq<Value>)
    decreases items
  {
    items == [] || (Fits(items[0]) && ItemsFit(items[1..]))
  }

  predicate EntryFits(e: Entry)
    decreases e
  {
    Fits(e.key) && Fits(e.value)
  }

  predicate EntriesFit(entries: seq<Entry>)
    decreases entries
  {
    entries == [] || (EntryFits(entries[0]) && EntriesFit(entries[1..]))
  }

  lemma ArrayFromItems(items: seq<Value>, rest: Bytes)
    requires |items| < TWO_TO_32 && DecodeItems(|items|, EncItems(items) + rest) == Some((items, rest))
    ensures Decode(ArrayHeader(|items|) + EncItems(items) + rest) == Some((Arr(items), rest))
  {
    var body := EncItems(items);
    SmallModulo(|items|, TWO_TO_32);
    ReadArrayHeader(|items|, body + rest);
    ConcatAssociates(ArrayHeader(|items|), body, rest);
    DecodeByToken(ArrayHeader(|items|) + (body + rest), ArrToken(|items|), body + rest);
  }

  lemma MapFromEntries(entries: seq<Entry>, rest: Bytes)
    requires |entries| < TWO_TO_32 && DecodeEntries(|entries|, EncEntries(entries) + rest) == Some((entries, rest))
    ensures Decode(MapHeader(|entries|) + EncEntries(entries) + rest) == Some((Map(entries), rest))
  {
    var body := EncEntries(entries);
    SmallModulo(|entries|, TWO_TO_32);
    ReadMapHeader(|entries|, body + rest);
    ConcatAssociates(MapHeader(|entries|), body, rest);
    DecodeByToken(MapHeader(|entries|) + (body + rest), MapToken(|entries|), body + rest);
  }

  lemma {:induction false} DecodesBack(v: Value, rest: Bytes)
    requires Fits(v)
    ensures Decode(Enc(v) + rest) == Some((v, rest))
    decreases v
  {
    match v
    case Nil => assert ([0xc0] + rest)[1..] == rest;
    case Bool(b) => assert (Enc(v) + rest)[1..] == rest;
    case Int(i) =>
      if 0 <= i {
        ReadUint(i, rest);
      } else {
        ReadInt(i, rest);
      }
    case Str(s) => StringsRoundTrip(s, rest);
    case Bin(s) => BinariesRoundTrip(s, rest);
    case Arr(items) =>
      ItemsDecodeBack(items, rest);
      ArrayFromItems(items, rest);
    case Map(entries) =>
      EntriesDecodeBack(entries, rest);
      MapFromEntries(entries, rest);
  }

  lemma {:induction false} ItemsDecodeBack(items: seq<Value>, rest: Bytes)
    requires ItemsFit(items)
    ensures DecodeItems(|items|, EncItems(items) + rest) == Some((items, rest))
    decreases items
  {
    if items == [] {
      assert EncItems(items) + rest == rest;
    } else {
      var tail := EncItems(items[1..]) + rest;
      assert EncItems(items) + rest == Enc(items[0]) + tail;
      DecodesBack(items[0], tail);
      ItemsDecodeBack(items[1..], rest);
      assert [items[0]] + items[1..] == items;
    }
  }

  lemma {:induction false} EntryDecodesBack(e: Entry, rest: Bytes)
    requires EntryFits(e)
    ensures Decode(Enc(e.key) + (Enc(e.value) + rest)) == Some((e.key, Enc(e.value) + rest))
    ensures Decode(Enc(e.value) + rest) == Some((e.value, rest))
    decreases e
  {
    DecodesBack(e.key, Enc(e.value) + rest);
    DecodesBack(e.value, rest);
  }

  lemma {:induction false} EntriesDecodeBack(entries: seq<Entry>, rest: Bytes)
    requires EntriesFit(entries)
    ensures DecodeEntries(|entries|, EncEntries(entries) + rest) == Some((entries, rest))
    decreases entries
  {
    if entries == [] {
      assert EncEntries(entries) + rest == rest;
    } else {
      var first, tail := entries[0], EncEntries(entries[1..]) + rest;
      assert EncEntries(entries) + rest == Enc(first.key) + (Enc(first.value) + tail);
      EntryDecodesBack(first, tail);
      EntriesDecodeBack(entries[1..], rest);
      assert [first] + entries[1..] == entries;
    }
  }

  /** The decoder only returns values that fit. */
  lemma {:induction false} DecodedFits(bs: Bytes)
    ensures Decode(bs).Some? ==> Fits(Decode(bs).value.0)
    decreases |bs|, 0
  {
    if ReadToken(bs).Some? {
      TokensFit(bs);
      var (token, rest) := ReadToken(bs).value;
      if token.ArrToken? {
        DecodedItemsFit(token.count, rest);
      } else if token.MapToken? {
        DecodedEntriesFit(token.count, rest);
      }
    }
  }

  lemma TokensFit(bs: Bytes)
    requires ReadToken(bs).Some?
    ensures match ReadToken(bs).value.0
      case IntToken(i) => -0x8000_0000_0000_0000 <= i < 0x1_0000_0000_0000_0000
      case StrToken(n) => n < TWO_TO_32
      case BinToken(n) => n < TWO_TO_32
      case ArrToken(n) => n < TWO_TO_32
      case MapToken(n) => n < TWO_TO_32
      case _ => true
  {
    Pow256Values();
    var rest := bs[1..];
    if |rest| >= 1 { NumberIsBounded(rest[..1]); }
    if |rest| >= 2 { NumberIsBounded(rest[..2]); }
    if |rest| >= 4 { NumberIsBounded(rest[..4]); }
    if |rest| >= 8 { NumberIsBounded(rest[..8]); }
  }

  lemma {:induction false} DecodedItemsFit(n: nat, bs: Bytes)
    ensures var r := DecodeItems(n, bs);
      r.Some? ==> ItemsFit(r.value.0)
    decreases |bs|, 1
  {
    if n > 0 && Decode(bs).Some? {
      DecodedFits(bs);
      DecodedItemsFit(n - 1, Decode(bs).value.1);
    }
  }

  lemma {:induction false} DecodedEntriesFit(n: nat, bs: Bytes)
    ensures var r := DecodeEntries(n, bs);
      r.Some? ==> EntriesFit(r.value.0)
    decreases |bs|, 1
  {
    if n > 0 && Decode(bs).Some? {
      var rest := Decode(bs).value.1;
      DecodedFits(bs);
      if Decode(rest).Some? {
        DecodedFits(rest);
        DecodedEntriesFit(n - 1, Decode(rest).value.1);
      }
    }
  }

  /** An encoded value followed by anything decodes to that value and that suffix exactly when
      it fits the format. */
  lemma RoundTrip(v: Value, rest: Bytes)
    ensures Decode(Enc(v) + rest) == Some((v, rest)) <==> Fits(v)
  {
    DecodedFits(Enc(v) + rest);
    if Fits(v) {
      DecodesBack(v, rest);
    }
  }
}
