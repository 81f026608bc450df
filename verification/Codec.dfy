/** The wire codec: fixed-width big-endian numbers, variable-length decimals, blobs and texts.

    Each encoding is a pair of functions, `Put...` and `Get...`; the reader and the writer are classes
    that move a cursor and grow a buffer, and are verified against those functions. */
module Codec {
  import opened Wrappers
  import opened Bytes

  type Data = seq<Byte>

  const INT3_MIN := -8_388_608
  const INT3_MAX := 8_388_607
  const LONG5_MIN := -0x80_0000_0000
  const LONG5_MAX := 0x7f_ffff_ffff

  /** A parse: the value read and what is left. */
  type Parse<+T> = Result<(T, Data)>

  // Texts are their UTF-8 bytes (section 4 of RFC 3629)

  predicate Tail(b: Byte) {
    0x80 <= b <= 0xBF
  }

  /** Length of the well-formed character at the front, or 0. */
  function CharLength(s: Data): nat {
    if s == [] then 0
    else if s[0] <= 0x7F then 1
    else if 0xC2 <= s[0] <= 0xDF && |s| >= 2 && Tail(s[1]) then 2
    else if |s| >= 3 && Tail(s[2]) &&
            ((s[0] == 0xE0 && 0xA0 <= s[1] <= 0xBF) || (0xE1 <= s[0] <= 0xEC && Tail(s[1])) ||
             (s[0] == 0xED && 0x80 <= s[1] <= 0x9F) || (0xEE <= s[0] <= 0xEF && Tail(s[1]))) then 3
    else if |s| >= 4 && Tail(s[2]) && Tail(s[3]) &&
            ((s[0] == 0xF0 && 0x90 <= s[1] <= 0xBF) || (0xF1 <= s[0] <= 0xF3 && Tail(s[1])) ||
             (s[0] == 0xF4 && 0x80 <= s[1] <= 0x8F)) then 4
    else 0
  }

  predicate ValidUtf8(s: Data) {
    s == [] || (0 < CharLength(s) <= |s| && ValidUtf8(s[CharLength(s)..]))
  }

  type Text = s: Data | ValidUtf8(s) witness []

  // Pasting and cutting

  lemma Regroup(a: Data, b: Data, c: Data)
    ensures a + b + c == a + (b + c)
  {
  }

  lemma CutFirst(a: Data, b: Data, k: nat)
    requires k <= |a|
    ensures (a + b)[..k] == a[..k]
  {
  }

  lemma CutSecond(a: Data, b: Data, k: nat)
    requires k <= |b|
    ensures (a + b)[..|a| + k] == a + b[..k]
  {
  }

  // Encodings as functions

  function PutSigned(v: int, n: nat): Data {
    BeBytes(v, n)
  }

  function GetSigned(s: Data, n: nat): Parse<int>
    requires n > 0
  {
    if |s| < n then Err else Ok((Signed(BeNat(s[..n]), n), s[n..]))
  }

  function GetNat(s: Data, n: nat): Parse<nat> {
    if |s| < n then Err else Ok((BeNat(s[..n]), s[n..]))
  }

  function PutDecimal(v: I64): Data {
    if v == 0 then [0]
    else if -128 <= v <= 127 then [1] + PutSigned(v, 1)
    else if -32768 <= v <= 32767 then [2] + PutSigned(v, 2)
    else if INT3_MIN <= v <= INT3_MAX then [3] + PutSigned(v, 3)
    else if -0x8000_0000 <= v < 0x8000_0000 then [4] + PutSigned(v, 4)
    else if LONG5_MIN <= v <= LONG5_MAX then [5] + PutSigned(v, 5)
    else [8] + PutSigned(v, 8)
  }

  /** The width announced by the first byte of a decimal; every other announcement means 8. */
  function DecimalWidth(tag: Byte): nat {
    if tag <= 5 then tag else 8
  }

  function GetDecimal(s: Data): Parse<I64> {
    var (tag, r) :- GetNat(s, 1);
    TagBound(s);
    if tag == 0 then Ok((0, r))
    else
      var (v, rest) :- GetSigned(r, DecimalWidth(tag));
      SignedFits(r[..DecimalWidth(tag)], DecimalWidth(tag));
      Ok((v, rest))
  }

  function PutBlob(data: Data): Data {
    if data == [] then [0]
    else if |data| <= 253 then [|data|] + data
    else if |data| <= 65535 then [255] + PutSigned(Wrap16(|data|), 2) + data
    else [254] + PutSigned(Wrap32(|data|), 4) + data
  }

  /** The length field of a blob. */
  function GetLength(s: Data): Parse<nat> {
    var (base, r) :- GetNat(s, 1);
    if base == 255 then GetNat(r, 2)
    else if base == 254 then
      var (v, rest) :- GetSigned(r, 4);
      if |r| >= 4 then SignedFits(r[..4], 4); Ok((AsUsize(v), rest)) else Err
    else Ok((base, r))
  }

  function GetBlob(s: Data): Parse<Data> {
    var (len, r) :- GetLength(s);
    if |r| < len then Err else Ok((r[..len], r[len..]))
  }

  function PutText(t: Text): Data {
    PutBlob(t)
  }

  function GetText(s: Data): Parse<Text> {
    var (b, r) :- GetBlob(s);
    if ValidUtf8(b) then Ok((b, r)) else Err
  }

  function PutBoolean(v: bool): Data {
    [if v then 1 else 0]
  }

  function GetBoolean(s: Data): Parse<bool> {
    var (b, r) :- GetNat(s, 1);
    Ok((b != 0, r))
  }

  lemma TagBound(s: Data)
    requires |s| >= 1
    ensures BeNat(s[..1]) == s[0]
  {
    assert s[..1][..0] == [] && BeNat([]) == 0;
  }

  /** A number of at most 8 bytes fits in 64 bits. */
  lemma SignedFits(s: Data, n: nat)
    requires |s| == n && 0 < n <= 8
    ensures 0 <= 2 * Signed(BeNat(s), n) + Pow256(n) && 2 * Signed(BeNat(s), n) < Pow256(n)
    ensures -0x8000_0000_0000_0000 <= Signed(BeNat(s), n) < 0x8000_0000_0000_0000
    ensures n == 4 ==> -0x8000_0000 <= Signed(BeNat(s), n) < 0x8000_0000
  {
    BeNatBound(s);
    Powers();
    PowGrows(n, 8);
  }

  lemma {:induction false} PowGrows(a: nat, b: nat)
    requires a <= b
    ensures Pow256(a) <= Pow256(b)
    decreases b - a
  {
    if a < b {
      PowGrows(a + 1, b);
    }
  }

  // Reading undoes writing, whatever follows

  lemma SignedRoundTrip(v: int, n: nat, tail: Data)
    requires n > 0 && 0 <= 2 * v + Pow256(n) && 2 * v < Pow256(n)
    ensures GetSigned(PutSigned(v, n) + tail, n) == Ok((v, tail))
  {
    SignedOfBytes(v, n);
    assert (BeBytes(v, n) + tail)[..n] == BeBytes(v, n) && (BeBytes(v, n) + tail)[n..] == tail;
  }

  lemma ByteAhead(b: Byte, r: Data)
    ensures GetNat([b] + r, 1) == Ok((b, r))
  {
    TagBound([b] + r);
    assert ([b] + r)[1..] == r;
  }

  /** Every 64-bit number comes back from its decimal, and the reader stops right behind it. */
  lemma DecimalRoundTrip(v: I64, tail: Data)
    ensures GetDecimal(PutDecimal(v) + tail) == Ok((v, tail))
  {
    Powers();
    var tag: Byte :=
      if v == 0 then 0 else if -128 <= v <= 127 then 1 else if -32768 <= v <= 32767 then 2
      else if INT3_MIN <= v <= INT3_MAX then 3 else if -0x8000_0000 <= v < 0x8000_0000 then 4
      else if LONG5_MIN <= v <= LONG5_MAX then 5 else 8;
    if tag == 0 {
      ByteAhead(0, tail);
    } else {
      var n := DecimalWidth(tag);
      assert PutDecimal(v) + tail == [tag] + (PutSigned(v, n) + tail);
      ByteAhead(tag, PutSigned(v, n) + tail);
      SignedRoundTrip(v, n, tail);
    }
  }

  lemma BooleanRoundTrip(v: bool, tail: Data)
    ensures GetBoolean(PutBoolean(v) + tail) == Ok((v, tail))
  {
    ByteAhead(if v then 1 else 0, tail);
  }

  lemma ShortLength(data: Data, tail: Data)
    requires |data| <= 253
    ensures GetLength(PutBlob(data) + tail) == Ok((|data|, data + tail))
  {
    assert PutBlob(data) + tail == [|data|] + (data + tail);
    ByteAhead(|data|, data + tail);
  }

  /** The 16-bit field is written as a signed short and read as an unsigned one. */
  lemma ShortField(n: nat)
    requires n <= 65535
    ensures BeNat(PutSigned(Wrap16(n), 2)) == n
  {
    hide BeNat, BeBytes, Pow256;
    Powers();
    SameLowBytes(n, if n < 0x8000 then 0 else -1, 2);
    NatOfBytes(n, 2);
  }

  lemma MediumLength(data: Data, tail: Data)
    requires 253 < |data| <= 65535
    ensures GetLength(PutBlob(data) + tail) == Ok((|data|, data + tail))
  {
    var field, rest := PutSigned(Wrap16(|data|), 2), data + tail;
    assert PutBlob(data) + tail == [255] + (field + rest);
    ByteAhead(255, field + rest);
    ShortField(|data|);
    assert (field + rest)[..2] == field && (field + rest)[2..] == rest;
  }

  lemma LongLength(data: Data, tail: Data)
    requires 65535 < |data| < 0x8000_0000_0000_0000
    ensures GetLength(PutBlob(data) + tail) == Ok((AsUsize(Wrap32(|data|)), data + tail))
  {
    Powers();
    var n := |data|;
    var field, rest := PutSigned(Wrap32(n), 4), data + tail;
    assert PutBlob(data) + tail == [254] + (field + rest);
    ByteAhead(254, field + rest);
    SignedRoundTrip(Wrap32(n), 4, rest);
  }

  /** The length field as it is written, read back: the true length below 2^31, and some other number
      for every larger length a vector can have. */
  lemma LengthRoundTrip(data: Data, tail: Data)
    requires |data| < 0x8000_0000_0000_0000
    ensures GetLength(PutBlob(data) + tail).Ok?
    ensures |data| < 0x8000_0000 ==> GetLength(PutBlob(data) + tail) == Ok((|data|, data + tail))
    ensures |data| >= 0x8000_0000 ==> GetLength(PutBlob(data) + tail).value.0 != |data|
  {
    if |data| <= 253 {
      ShortLength(data, tail);
    } else if |data| <= 65535 {
      MediumLength(data, tail);
    } else {
      LongLength(data, tail);
    }
  }

  /** A blob comes back, with the reader right behind it, exactly when it is shorter than 2^31 bytes. */
  lemma BlobRoundTrip(data: Data, tail: Data)
    requires |data| < 0x8000_0000_0000_0000
    ensures GetBlob(PutBlob(data) + tail) == Ok((data, tail)) <==> |data| < 0x8000_0000
  {
    LengthRoundTrip(data, tail);
    if |data| < 0x8000_0000 {
      assert (data + tail)[..|data|] == data && (data + tail)[|data|..] == tail;
    }
  }

  lemma TextRoundTrip(t: Text, tail: Data)
    requires |t| < 0x8000_0000_0000_0000
    ensures GetText(PutText(t) + tail) == Ok((t, tail)) <==> |t| < 0x8000_0000
  {
    BlobRoundTrip(t, tail);
  }

  // Self-delimiting: more bytes behind do not change what is read

  ghost predicate Extends<T>(p: Parse<T>, q: Parse<T>, b: Data) {
    p.Ok? ==> q == Ok((p.value.0, p.value.1 + b))
  }

  /** What was read is at least one byte shorter than what was there. */
  ghost predicate Consumes<T>(p: Parse<T>, s: Data) {
    p.Ok? ==> |p.value.1| < |s|
  }

  lemma SignedExtends(s: Data, b: Data, n: nat)
    requires n > 0
    ensures Extends(GetSigned(s, n), GetSigned(s + b, n), b) && Consumes(GetSigned(s, n), s)
  {
    if |s| >= n {
      assert (s + b)[..n] == s[..n] && (s + b)[n..] == s[n..] + b;
    }
  }

  lemma NatExtends(s: Data, b: Data, n: nat)
    ensures Extends(GetNat(s, n), GetNat(s + b, n), b) && (n > 0 ==> Consumes(GetNat(s, n), s))
  {
    if |s| >= n {
      assert (s + b)[..n] == s[..n] && (s + b)[n..] == s[n..] + b;
    }
  }

  lemma DecimalExtends(s: Data, b: Data)
    ensures Extends(GetDecimal(s), GetDecimal(s + b), b) && Consumes(GetDecimal(s), s)
  {
    NatExtends(s, b, 1);
    if GetDecimal(s).Ok? {
      var (tag, r) := GetNat(s, 1).value;
      TagBound(s);
      if tag != 0 {
        SignedExtends(r, b, DecimalWidth(tag));
      }
    }
  }

  lemma LengthExtends(s: Data, b: Data)
    ensures Extends(GetLength(s), GetLength(s + b), b) && Consumes(GetLength(s), s)
  {
    NatExtends(s, b, 1);
    if GetLength(s).Ok? {
      var r := GetNat(s, 1).value.1;
      NatExtends(r, b, 2);
      SignedExtends(r, b, 4);
    }
  }

  lemma BlobExtends(s: Data, b: Data)
    ensures Extends(GetBlob(s), GetBlob(s + b), b) && Consumes(GetBlob(s), s)
  {
    LengthExtends(s, b);
    if GetBlob(s).Ok? {
      var (len, r) := GetLength(s).value;
      assert (r + b)[..len] == r[..len] && (r + b)[len..] == r[len..] + b;
    }
  }

  lemma TextExtends(s: Data, b: Data)
    ensures Extends(GetText(s), GetText(s + b), b) && Consumes(GetText(s), s)
  {
    BlobExtends(s, b);
  }

  lemma BooleanExtends(s: Data, b: Data)
    ensures Extends(GetBoolean(s), GetBoolean(s + b), b) && Consumes(GetBoolean(s), s)
  {
    NatExtends(s, b, 1);
  }

  // The reader and the writer

  /** A read did what its function says: the same value and the cursor at what is left, or a failure.
      After a failure nothing is promised about the cursor. */
  ghost predicate Did<T>(parse: Parse<T>, r: Result<T>, rest: Data) {
    if parse.Ok? then r == Ok(parse.value.0) && rest == parse.value.1 else r.Err?
  }

  class ScouterReader {
    const data: Data
    var pos: nat

    ghost predicate Valid()
      reads this
    {
      pos <= |data|
    }

    /** What has not been read yet. */
    ghost function Rest(): Data
      reads this
      requires Valid()
    {
      data[pos..]
    }

    constructor (data: Data)
      ensures Valid() && Rest() == data && this.data == data
    {
      this.data, pos := data, 0;
    }

    method Remaining() returns (n: nat)
      requires Valid()
      ensures n == |Rest()|
    {
      n := |data| - pos;
    }

    method ReadExact(n: nat) returns (r: Result<Data>)
      requires Valid()
      modifies this
      ensures Valid()
      ensures Did(if |old(Rest())| < n then Err else Ok((old(Rest())[..n], old(Rest())[n..])), r, Rest())
    {
      if |data| - pos < n {
        return Err;
      }
      assert data[pos..][..n] == data[pos..pos + n] && data[pos..][n..] == data[pos + n..];
      r := Ok(data[pos..pos + n]);
      pos := pos + n;
    }

    method ReadUnsignedByte() returns (r: Result<nat>)
      requires Valid()
      modifies this
      ensures Valid() && Did(GetNat(old(Rest()), 1), r, Rest())
    {
      var buf := ReadExact(1);
      if buf.Err? {
        return Err;
      }
      TagBound(old(Rest()));
      r := Ok(buf.value[0]);
      assert GetNat(old(Rest()), 1).value.0 == buf.value[0];
    }

    /** A signed big-endian number of `n` bytes: byte, short, int or long. */
    method ReadSigned(n: nat) returns (r: Result<int>)
      requires Valid() && n in {1, 2, 4, 8}
      modifies this
      ensures Valid() && Did(GetSigned(old(Rest()), n), r, Rest())
    {
      var buf := ReadExact(n);
      if buf.Err? {
        return Err;
      }
      r := Ok(Signed(BeNat(buf.value), n));
    }

    /** Three bytes put in the upper part of a 32-bit word and shifted down with the sign. */
    method ReadInt3() returns (r: Result<int>)
      requires Valid()
      modifies this
      ensures Valid() && Did(GetSigned(old(Rest()), 3), r, Rest())
    {
      var buf := ReadExact(3);
      if buf.Err? {
        return Err;
      }
      var ch1: int, ch2: int, ch3: int := buf.value[0], buf.value[1], buf.value[2];
      var word: I32 := Wrap32(Wrap32(ch1 * 0x100_0000) + ch2 * 0x1_0000 + ch3 * 0x100);
      r := Ok(word / 0x100);
      Int3OfBytes(buf.value);
    }

    static lemma Int3Word(ch1: int, ch2: int, ch3: int, u: int)
      requires 0 <= ch1 < 256 && 0 <= ch2 < 256 && 0 <= ch3 < 256 && u == 0x1_0000 * ch1 + 0x100 * ch2 + ch3
      ensures Wrap32(Wrap32(ch1 * 0x100_0000) + ch2 * 0x1_0000 + ch3 * 0x100) / 0x100 ==
              if u < 0x80_0000 then u else u - 0x100_0000
    {
      var top := if ch1 < 0x80 then ch1 else ch1 - 0x100;
      assert Wrap32(ch1 * 0x100_0000) == top * 0x100_0000;
      assert Wrap32(top * 0x100_0000 + ch2 * 0x1_0000 + ch3 * 0x100) == (if u < 0x80_0000 then u else u - 0x100_0000) * 0x100;
    }

    static lemma Int3OfBytes(s: Data)
      requires |s| == 3
      ensures var ch1: int, ch2: int, ch3: int := s[0], s[1], s[2];
              Wrap32(Wrap32(ch1 * 0x100_0000) + ch2 * 0x1_0000 + ch3 * 0x100) / 0x100 == Signed(BeNat(s), 3)
    {
      Powers();
      BeNatPrefix(s, 1);
      BeNatPrefix(s, 2);
      BeNatPrefix(s, 3);
      assert s[..3] == s && s[..0] == [];
      Int3Word(s[0], s[1], s[2], BeNat(s));
    }

    /** The first of five bytes carries the sign. */
    method ReadLong5() returns (r: Result<int>)
      requires Valid()
      modifies this
      ensures Valid() && Did(GetSigned(old(Rest()), 5), r, Rest())
    {
      var buf := ReadExact(5);
      if buf.Err? {
        return Err;
      }
      var b0: int, b1: int, b2: int, b3: int, b4: int :=
        buf.value[0], buf.value[1], buf.value[2], buf.value[3], buf.value[4];
      var top := if b0 < 0x80 then b0 else b0 - 0x100;
      r := Ok(top * 0x1_0000_0000 + b1 * 0x100_0000 + b2 * 0x1_0000 + b3 * 0x100 + b4);
      Long5OfBytes(buf.value, b0, b1, b2, b3, b4);
    }

    static lemma Long5OfBytes(b: Data, b0: int, b1: int, b2: int, b3: int, b4: int)
      requires b == [b0, b1, b2, b3, b4]
      ensures (if b0 < 0x80 then b0 else b0 - 0x100) * 0x1_0000_0000 + b1 * 0x100_0000 + b2 * 0x1_0000
              + b3 * 0x100 + b4 == Signed(BeNat(b), 5)
    {
      Powers();
      BeNatPrefix(b, 1);
      BeNatPrefix(b, 2);
      BeNatPrefix(b, 3);
      BeNatPrefix(b, 4);
      BeNatPrefix(b, 5);
      assert b[..5] == b && b[..0] == [];
    }

    method ReadBoolean() returns (r: Result<bool>)
      requires Valid()
      modifies this
      ensures Valid() && Did(GetBoolean(old(Rest())), r, Rest())
    {
      var b := ReadUnsignedByte();
      if b.Err? {
        return Err;
      }
      r := Ok(b.value != 0);
    }

    method ReadDecimal() returns (r: Result<I64>)
      requires Valid()
      modifies this
      ensures Valid() && Did(GetDecimal(old(Rest())), r, Rest())
    {
      var len := ReadSigned(1);
      if len.Err? {
        return Err;
      }
      DecimalTag(old(Rest()));
      var v;
      match len.value {
        case 0 => return Ok(0);
        case 1 => v := ReadSigned(1);
        case 2 => v := ReadSigned(2);
        case 3 => v := ReadInt3();
        case 4 => v := ReadSigned(4);
        case 5 => v := ReadLong5();
        case _ => v := ReadSigned(8);
      }
      if v.Err? {
        return Err;
      }
      assert GetDecimal(old(Rest())).Ok? && GetDecimal(old(Rest())).value.0 == v.value;
      r := Ok(v.value);
    }

    /** The length byte is read as a signed byte; it selects the same width as an unsigned one. */
    static lemma DecimalTag(s: Data)
      ensures Extends(GetNat(s, 1), GetNat(s, 1), [])
      ensures |s| >= 1 ==>
                && GetNat(s, 1) == Ok((s[0], s[1..])) && GetSigned(s, 1).Ok? && GetSigned(s, 1).value.1 == s[1..]
                && (if s[0] <= 5 then GetSigned(s, 1).value.0 == s[0] else !(0 <= GetSigned(s, 1).value.0 <= 5))
    {
      Powers();
      if |s| >= 1 {
        TagBound(s);
        assert s[1..] + [] == s[1..];
      }
    }

    method ReadBlob() returns (r: Result<Data>)
      requires Valid()
      modifies this
      ensures Valid() && Did(GetBlob(old(Rest())), r, Rest())
    {
      var base := ReadUnsignedByte();
      if base.Err? {
        return Err;
      }
      var len := base.value;
      if base.value == 0 {
        assert Rest()[..0] == [] && Rest()[0..] == Rest();
        return Ok([]);
      } else if base.value == 255 {
        var hi := ReadExact(2);
        if hi.Err? {
          return Err;
        }
        len := BeNat(hi.value);
      } else if base.value == 254 {
        var v := ReadSigned(4);
        if v.Err? {
          return Err;
        }
        SignedFits(old(Rest())[1..][..4], 4);
        len := AsUsize(v.value);
      }
      r := ReadExact(len);
    }

    method ReadText() returns (r: Result<Text>)
      requires Valid()
      modifies this
      ensures Valid() && Did(GetText(old(Rest())), r, Rest())
    {
      var blob := ReadBlob();
      if blob.Err? || !ValidUtf8(blob.value) {
        return Err;
      }
      r := Ok(blob.value);
    }
  }

  class ScouterWriter {
    var buf: Data

    constructor ()
      ensures buf == []
    {
      buf := [];
    }

    method WriteByte(v: Byte)
      modifies this
      ensures buf == old(buf) + [v]
    {
      buf := buf + [v];
    }

    /** The bytes of a signed number, most significant first: byte, short, int or long. */
    method WriteSigned(v: int, n: nat)
      modifies this
      ensures buf == old(buf) + PutSigned(v, n)
    {
      buf := buf + BeBytes(v, n);
    }

    method WriteInt3(v: I32)
      modifies this
      ensures buf == old(buf) + PutSigned(v, 3)
    {
      LowBytes(v);
      buf := buf + [v / 0x1_0000 % 256];
      buf := buf + [v / 0x100 % 256];
      buf := buf + [v % 256];
    }

    method WriteLong5(v: I64)
      modifies this
      ensures buf == old(buf) + PutSigned(v, 5)
    {
      LowBytes(v);
      buf := buf + [v / 0x1_0000_0000 % 256];
      buf := buf + [v / 0x100_0000 % 256];
      buf := buf + [v / 0x1_0000 % 256];
      buf := buf + [v / 0x100 % 256];
      buf := buf + [v % 256];
    }

    static lemma LowBytes(v: int)
      ensures BeBytes(v, 3) == [v / 0x1_0000 % 256, v / 0x100 % 256, v % 256]
      ensures BeBytes(v, 5) == [v / 0x1_0000_0000 % 256, v / 0x100_0000 % 256] + BeBytes(v, 3)
    {
      assert v / 256 / 256 == v / 0x1_0000 && v / 0x1_0000 / 256 == v / 0x100_0000;
      assert v / 0x100_0000 / 256 == v / 0x1_0000_0000;
      assert BeBytes(v / 0x100_0000, 2) == [v / 0x1_0000_0000 % 256, v / 0x100_0000 % 256] by {
        assert BeBytes(v / 0x1_0000_0000, 1) == BeBytes(v / 0x1_0000_0000 / 256, 0) + [v / 0x1_0000_0000 % 256];
      }
      assert BeBytes(v / 0x1_0000, 1) == BeBytes(v / 0x100_0000, 0) + [v / 0x1_0000 % 256];
      assert BeBytes(v / 0x1_0000, 3) == BeBytes(v / 0x100_0000, 2) + [v / 0x1_0000 % 256];
      assert BeBytes(v / 0x100, 4) == BeBytes(v / 0x1_0000, 3) + [v / 0x100 % 256];
      assert BeBytes(v / 0x100, 2) == BeBytes(v / 0x1_0000, 1) + [v / 0x100 % 256];
    }

    method WriteBoolean(v: bool)
      modifies this
      ensures buf == old(buf) + PutBoolean(v)
    {
      buf := buf + [if v then 1 else 0];
    }

    method WriteDecimal(v: I64)
      modifies this
      ensures buf == old(buf) + PutDecimal(v)
    {
      if v == 0 {
        buf := buf + [0];
      } else if -128 <= v <= 127 {
        buf := buf + [1];
        WriteSigned(v, 1);
      } else if -32768 <= v <= 32767 {
        buf := buf + [2];
        WriteSigned(v, 2);
      } else if INT3_MIN <= v <= INT3_MAX {
        buf := buf + [3];
        WriteInt3(v);
      } else if -0x8000_0000 <= v < 0x8000_0000 {
        buf := buf + [4];
        WriteSigned(v, 4);
      } else if LONG5_MIN <= v <= LONG5_MAX {
        buf := buf + [5];
        WriteLong5(v);
      } else {
        buf := buf + [8];
        WriteSigned(v, 8);
      }
    }

    method WriteBlob(data: Data)
      modifies this
      ensures buf == old(buf) + PutBlob(data)
    {
      var len := |data|;
      if len == 0 {
        buf := buf + [0];
      } else if len <= 253 {
        buf := buf + [len];
        Regroup(old(buf), [len], data);
        buf := buf + data;
      } else if len <= 65535 {
        buf := buf + [255];
        WriteSigned(Wrap16(len), 2);
        Regroup(old(buf), [255], PutSigned(Wrap16(len), 2));
        Regroup(old(buf), [255] + PutSigned(Wrap16(len), 2), data);
        buf := buf + data;
      } else {
        buf := buf + [254];
        WriteSigned(Wrap32(len), 4);
        Regroup(old(buf), [254], PutSigned(Wrap32(len), 4));
        Regroup(old(buf), [254] + PutSigned(Wrap32(len), 4), data);
        buf := buf + data;
      }
    }

    method WriteText(t: Text)
      modifies this
      ensures buf == old(buf) + PutText(t)
    {
      if t == [] {
        buf := buf + [0];
      } else {
        WriteBlob(t);
      }
    }
  }
}
