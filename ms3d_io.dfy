/**
 * The raw I/O layer of the MilkShape 3D codec (`Ms3dIo`): little-endian
 * scalars, fixed-length strings and arrays of scalars.
 *
 * Every operation has a pure specification on byte sequences
 * (`DecodeX` on the not yet consumed bytes, `EmitX` for what a writer
 * appends) and an imperative counterpart on a reader / writer object that
 * is proved equal to it.
 */
module Ms3dIo {
  import opened Wrappers

  /** One byte of the file. */
  type uint8 = x: int | 0 <= x < 0x100

  // Sizes and lengths used by the file format.
  const SIZE_BYTE: nat := 1
  const SIZE_SBYTE: nat := 1
  const SIZE_WORD: nat := 2
  const SIZE_DWORD: nat := 4
  const SIZE_FLOAT: nat := 4
  const LENGTH_ID: nat := 10
  const LENGTH_NAME: nat := 32
  const LENGTH_FILENAME: nat := 128

  /**
   * The five scalar encodings of the format: `<B`, `<b`, `<H`, `<I` and `<f`.
   * A float is carried as its IEEE-754 single precision bit pattern, so all
   * scalar values are integers.
   */
  datatype Scalar = Byte | SByte | Word | DWord | Float

  function Size(k: Scalar): nat
  {
    match k
    case Byte => SIZE_BYTE
    case SByte => SIZE_SBYTE
    case Word => SIZE_WORD
    case DWord => SIZE_DWORD
    case Float => SIZE_FLOAT
  }

  /** The values `pack` accepts for a scalar kind; any other raises `struct.error`. */
  predicate InRange(k: Scalar, v: int)
  {
    match k
    case Byte => 0 <= v < 0x100
    case SByte => -0x80 <= v < 0x80
    case Word => 0 <= v < 0x1_0000
    case DWord => 0 <= v < 0x1_0000_0000
    case Float => 0 <= v < 0x1_0000_0000
  }

  /** 256 to the power `n`. */
  function Pow256(n: nat): (r: nat)
    ensures r >= 1
  {
    if n == 0 then 1 else 0x100 * Pow256(n - 1)
  }

  /** The unsigned value of a little-endian byte sequence. */
  function LittleEndian(bs: seq<uint8>): (r: nat)
    ensures r < Pow256(|bs|)
  {
    if bs == [] then 0 else bs[0] + 0x100 * LittleEndian(bs[1..])
  }

  /** The `n` least significant bytes of `v`, least significant first. */
  function ToLittleEndian(v: nat, n: nat): (r: seq<uint8>)
    ensures |r| == n
  {
    if n == 0 then [] else [v % 0x100] + ToLittleEndian(v / 0x100, n - 1)
  }

  lemma {:induction false} LittleEndianRoundTrip(v: nat, n: nat)
    requires v < Pow256(n)
    ensures LittleEndian(ToLittleEndian(v, n)) == v
    decreases n
  {
    if n > 0 {
      var bs := ToLittleEndian(v, n);
      assert bs[1..] == ToLittleEndian(v / 0x100, n - 1);
      assert v / 0x100 < Pow256(n - 1);
      LittleEndianRoundTrip(v / 0x100, n - 1);
    }
  }

  /** The result of decoding from the remaining bytes of a file. */
  datatype Decoded<+T> = Decoded(value: T, rest: seq<uint8>) | Truncated
  {
    predicate IsFailure()
    {
      Truncated?
    }

    function PropagateFailure<U>(): Decoded<U>
      requires Truncated?
    {
      Truncated
    }

    function Extract(): Decoded<T>
      requires Decoded?
    {
      this
    }
  }

  /** What an object reader returns, paired with the bytes left after it. */
  function Outcome<T>(r: Option<T>, rest: seq<uint8>): Decoded<T>
  {
    if r.Some? then Decoded(r.value, rest) else Truncated
  }

  /**
   * What a sequence of writes produced: the bytes that reached the file and
   * whether every write succeeded. A failed write leaves the earlier bytes in
   * place and stops the sequence.
   */
  datatype Emitted = Emitted(bytes: seq<uint8>, ok: bool)
  {
    /** This write followed by `next`, which only happens when this one succeeded. */
    function Then(next: Emitted): Emitted
    {
      if ok then Emitted(bytes + next.bytes, next.ok) else this
    }
  }

  const Nothing := Emitted([], true)

  lemma ThenAssociative(a: Emitted, b: Emitted, c: Emitted)
    ensures a.Then(b).Then(c) == a.Then(b.Then(c))
  {
    if a.ok && b.ok {
      assert a.bytes + b.bytes + c.bytes == a.bytes + (b.bytes + c.bytes);
    }
  }

  lemma ThenNothing(a: Emitted)
    ensures a.Then(Nothing) == a && Nothing.Then(a) == a
  {
    assert a.bytes + [] == a.bytes;
  }

  // ---------------------------------------------------------------- scalars

  /** The bytes `pack` produces for an in-range value. */
  function EncodeScalar(k: Scalar, v: int): (r: seq<uint8>)
    requires InRange(k, v)
    ensures |r| == Size(k)
  {
    ToLittleEndian(if v < 0 then v + 0x100 else v, Size(k))
  }

  /** `write_byte` .. `write_float`: out-of-range values fail and write nothing. */
  function EmitScalar(k: Scalar, v: int): (r: Emitted)
    ensures r.ok <==> InRange(k, v)
    ensures r.ok ==> |r.bytes| == Size(k)
    ensures !r.ok ==> r.bytes == []
  {
    if InRange(k, v) then Emitted(EncodeScalar(k, v), true) else Emitted([], false)
  }

  /** `read_byte` .. `read_float`: the value of the next `Size(k)` bytes. */
  function DecodeScalar(k: Scalar, s: seq<uint8>): (r: Decoded<int>)
    ensures r.Truncated? <==> |s| < Size(k)
    ensures r.Decoded? ==> InRange(k, r.value) && r.rest == s[Size(k)..]
  {
    if |s| < Size(k) then Truncated
    else
      var u := LittleEndian(s[..Size(k)]);
      Decoded(if k == SByte && u >= 0x80 then u - 0x100 else u, s[Size(k)..])
  }

  /** Reading back a written scalar gives the value and leaves the following bytes. */
  lemma ScalarRoundTrip(k: Scalar, v: int, rest: seq<uint8>)
    requires InRange(k, v)
    ensures EmitScalar(k, v).ok
    ensures DecodeScalar(k, EmitScalar(k, v).bytes + rest) == Decoded(v, rest)
  {
    var u := if v < 0 then v + 0x100 else v;
    var bs := EncodeScalar(k, v);
    assert Pow256(1) == 0x100 && Pow256(2) == 0x1_0000 && Pow256(4) == 0x1_0000_0000 by {
      assert Pow256(0) == 1;
      assert Pow256(3) == 0x100_0000;
    }
    LittleEndianRoundTrip(u, Size(k));
    assert (bs + rest)[..Size(k)] == bs;
    assert (bs + rest)[Size(k)..] == rest;
  }

  // ---------------------------------------------------------------- strings

  /** The character `read_string` makes of a non-zero byte: bytes 32..127 are kept, anything else is a space. */
  function CharOfByte(b: uint8): (c: char)
    ensures 32 <= c as int < 128
    ensures 32 <= b < 128 ==> c as int == b
  {
    if 32 <= b < 128 then b as char else ' '
  }

  /** The text of a string field: the characters of the bytes before the first zero byte. */
  function TextOf(bs: seq<uint8>): (r: string)
    ensures |r| <= |bs|
  {
    if bs == [] || bs[0] == 0 then [] else [CharOfByte(bs[0])] + TextOf(bs[1..])
  }

  /** The text is every byte before the first zero, each mapped by `CharOfByte`. */
  lemma {:induction false} TextOfShape(bs: seq<uint8>)
    ensures forall i :: 0 <= i < |TextOf(bs)| ==> bs[i] != 0 && TextOf(bs)[i] == CharOfByte(bs[i])
    ensures |TextOf(bs)| < |bs| ==> bs[|TextOf(bs)|] == 0
  {
    if bs != [] && bs[0] != 0 {
      TextOfShape(bs[1..]);
    }
  }

  /** Appending a byte to a field extends its text only while no zero byte has been seen. */
  lemma {:induction false} TextOfSnoc(bs: seq<uint8>, b: uint8)
    ensures TextOf(bs + [b]) ==
      if 0 in bs || b == 0 then TextOf(bs) else TextOf(bs) + [CharOfByte(b)]
  {
    if bs == [] {
      assert bs + [b] == [b];
      assert [b][1..] == [];
    } else {
      assert (bs + [b])[1..] == bs[1..] + [b];
      assert 0 in bs <==> bs[0] == 0 || 0 in bs[1..];
      if bs[0] != 0 {
        TextOfSnoc(bs[1..], b);
      }
    }
  }

  /** `read_string`: consumes exactly `length` bytes and keeps the text before the first zero byte. */
  function DecodeString(length: nat, s: seq<uint8>): (r: Decoded<string>)
    ensures r.Truncated? <==> |s| < length
    ensures r.Decoded? ==>
      r.rest == s[length..] && |r.value| <= length &&
      (forall i :: 0 <= i < |r.value| ==> s[i] != 0 && r.value[i] == CharOfByte(s[i])) &&
      (|r.value| < length ==> s[|r.value|] == 0)
  {
    if |s| < length then Truncated
    else
      TextOfShape(s[..length]);
      Decoded(TextOf(s[..length]), s[length..])
  }

  /** The elements after the first `i`, empty once past the end. */
  function Drop<T>(s: seq<T>, i: nat): seq<T>
  {
    if i <= |s| then s[i..] else []
  }

  /** The byte `write_string` stores for one character. */
  function CharCode(c: char): int
  {
    (c as int) % 255
  }

  /** A character `write_string` can store and `read_string` gives back unchanged. */
  predicate Printable(c: char)
  {
    32 <= c as int < 128
  }

  /**
   * `write_string`: for each of `length` positions the character code modulo
   * 255, or 0 past the end of the text, each written as a signed byte.
   */
  function EmitString(length: nat, s: string): (r: Emitted)
    ensures r.ok ==> |r.bytes| == length
    ensures |r.bytes| <= length
  {
    if length == 0 then Nothing
    else
      EmitScalar(SByte, if 0 < |s| then CharCode(s[0]) else 0)
        .Then(EmitString(length - 1, Drop(s, 1)))
  }

  /** A string is written in full, as its character codes padded with zero bytes, exactly when every written code fits a signed byte. */
  lemma {:induction false} EmitStringShape(length: nat, s: string)
    ensures EmitString(length, s).ok <==>
      forall i :: 0 <= i < length && i < |s| ==> CharCode(s[i]) < 0x80
    ensures EmitString(length, s).ok ==>
      |EmitString(length, s).bytes| == length &&
      forall i :: 0 <= i < length ==>
        EmitString(length, s).bytes[i] == if i < |s| then CharCode(s[i]) else 0
    ensures !EmitString(length, s).ok ==>
      var n := |EmitString(length, s).bytes|;
      n < length && n < |s| && CharCode(s[n]) >= 0x80 &&
      forall i :: 0 <= i < n ==> EmitString(length, s).bytes[i] == CharCode(s[i])
  {
    if length > 0 {
      var tail := Drop(s, 1);
      EmitStringShape(length - 1, tail);
      var r := EmitString(length, s);
      var first := EmitScalar(SByte, if 0 < |s| then CharCode(s[0]) else 0);
      assert forall i :: 0 <= i < |tail| ==> tail[i] == s[i + 1];
      if first.ok {
        assert first.bytes == [if 0 < |s| then CharCode(s[0]) else 0] by {
          var v := if 0 < |s| then CharCode(s[0]) else 0;
          assert ToLittleEndian(v, 1) == [v % 0x100] + ToLittleEndian(v / 0x100, 0);
        }
        if r.ok {
          forall i | 0 <= i < length
            ensures r.bytes[i] == if i < |s| then CharCode(s[i]) else 0
          {
            if i > 0 {
              assert r.bytes[i] == EmitString(length - 1, tail).bytes[i - 1];
            }
          }
        } else {
          var n := |r.bytes|;
          assert n == 1 + |EmitString(length - 1, tail).bytes|;
          forall i | 0 <= i < n
            ensures r.bytes[i] == CharCode(s[i])
          {
            if i > 0 {
              assert r.bytes[i] == EmitString(length - 1, tail).bytes[i - 1];
            }
          }
        }
      }
    }
  }

  /** Reading back a written text gives the same text, provided its characters lie in 32..127 and it fits its field. */
  lemma StringRoundTrip(length: nat, s: string, rest: seq<uint8>)
    requires |s| <= length
    requires forall i :: 0 <= i < |s| ==> Printable(s[i])
    ensures EmitString(length, s).ok
    ensures DecodeString(length, EmitString(length, s).bytes + rest) == Decoded(s, rest)
  {
    TextOfEmitString(length, s);
    var bs := EmitString(length, s).bytes;
    assert (bs + rest)[..length] == bs;
    assert (bs + rest)[length..] == rest;
  }

  lemma {:induction false} TextOfEmitString(length: nat, s: string)
    requires |s| <= length
    requires forall i :: 0 <= i < |s| ==> Printable(s[i])
    ensures EmitString(length, s).ok && |EmitString(length, s).bytes| == length
    ensures TextOf(EmitString(length, s).bytes) == s
  {
    if length > 0 {
      var tail := Drop(s, 1);
      TextOfEmitString(length - 1, tail);
      var code := if 0 < |s| then CharCode(s[0]) else 0;
      var more := EmitString(length - 1, tail);
      EmitStringCons(length, s, more.bytes);
      TextOfCons(code, more.bytes);
      if s != [] {
        assert [s[0]] + tail == s;
      }
    }
  }

  /** A string write is its first byte followed by the write of the remaining positions. */
  lemma EmitStringCons(length: nat, s: string, more: seq<uint8>)
    requires length > 0
    requires |s| > 0 ==> Printable(s[0])
    requires EmitString(length - 1, Drop(s, 1)).ok && EmitString(length - 1, Drop(s, 1)).bytes == more
    ensures EmitString(length, s).ok
    ensures EmitString(length, s).bytes == [if 0 < |s| then s[0] as int else 0] + more
  {
    var code := if 0 < |s| then CharCode(s[0]) else 0;
    assert ToLittleEndian(code, 1) == [code % 0x100] + ToLittleEndian(code / 0x100, 0);
  }

  lemma TextOfCons(b: uint8, more: seq<uint8>)
    ensures TextOf([b] + more) == if b == 0 then [] else [CharOfByte(b)] + TextOf(more)
  {
    assert ([b] + more)[1..] == more;
  }

  // ----------------------------------------------------------------- arrays

  /**
   * `read_array` with a scalar reader: `count` values, appended to `acc`.
   * The accumulator form follows the reading loop.
   */
  function DecodeArrayFrom(k: Scalar, count: nat, s: seq<uint8>, acc: seq<int>): Decoded<seq<int>>
    decreases count
  {
    if count == 0 then Decoded(acc, s)
    else
      match DecodeScalar(k, s)
      case Truncated => Truncated
      case Decoded(v, s') => DecodeArrayFrom(k, count - 1, s', acc + [v])
  }

  function DecodeArray(k: Scalar, count: nat, s: seq<uint8>): Decoded<seq<int>>
  {
    DecodeArrayFrom(k, count, s, [])
  }

  /** A successful array read holds `count` in-range values after the accumulated ones and consumes `count` scalars. */
  lemma {:induction false} DecodeArrayShape(k: Scalar, count: nat, s: seq<uint8>, acc: seq<int>)
    ensures DecodeArrayFrom(k, count, s, acc).Truncated? <==> |s| < count * Size(k)
    ensures DecodeArrayFrom(k, count, s, acc).Decoded? ==>
      var r := DecodeArrayFrom(k, count, s, acc);
      |r.value| == |acc| + count && r.value[..|acc|] == acc &&
      (forall i :: |acc| <= i < |r.value| ==> InRange(k, r.value[i])) &&
      r.rest == s[count * Size(k)..]
    decreases count
  {
    if count > 0 {
      var d := DecodeScalar(k, s);
      assert count * Size(k) == (count - 1) * Size(k) + Size(k);
      if d.Decoded? {
        DecodeArrayShape(k, count - 1, d.rest, acc + [d.value]);
        var r := DecodeArrayFrom(k, count, s, acc);
        if r.Decoded? {
          assert r.value[..|acc| + 1][..|acc|] == acc;
          assert s[Size(k)..][(count - 1) * Size(k)..] == s[count * Size(k)..];
        }
      }
    }
  }

  /** `write_array` with a scalar writer: `values[i]` for every `i < count`; a missing index raises. */
  function EmitArray(k: Scalar, count: nat, values: seq<int>): Emitted
    decreases count
  {
    if count == 0 then Nothing
    else if values == [] then Emitted([], false)
    else EmitScalar(k, values[0]).Then(EmitArray(k, count - 1, values[1..]))
  }

  /** A full array write emits `count` scalars. */
  lemma {:induction false} EmitArraySize(k: Scalar, count: nat, values: seq<int>)
    ensures EmitArray(k, count, values).ok ==> |EmitArray(k, count, values).bytes| == count * Size(k)
    decreases count
  {
    if count > 0 && values != [] {
      EmitArraySize(k, count - 1, values[1..]);
      assert count * Size(k) == Size(k) + (count - 1) * Size(k);
    }
  }

  /** Writing `count` values and reading `count` back gives the values, when they are in range. */
  lemma {:induction false} ArrayRoundTrip(k: Scalar, values: seq<int>, rest: seq<uint8>, acc: seq<int>)
    requires forall i :: 0 <= i < |values| ==> InRange(k, values[i])
    ensures EmitArray(k, |values|, values).ok
    ensures DecodeArrayFrom(k, |values|, EmitArray(k, |values|, values).bytes + rest, acc)
            == Decoded(acc + values, rest)
  {
    if values == [] {
      assert acc + values == acc;
    } else {
      var tail := values[1..];
      ArrayRoundTrip(k, tail, rest, acc + [values[0]]);
      var head := EmitScalar(k, values[0]);
      var more := EmitArray(k, |tail|, tail);
      ScalarRoundTrip(k, values[0], more.bytes + rest);
      assert head.bytes + more.bytes + rest == head.bytes + (more.bytes + rest);
      assert acc + [values[0]] + tail == acc + values;
    }
  }

  /** `read_array2`: `count` rows of `count2` scalars each. */
  function DecodeArray2From(k: Scalar, count: nat, count2: nat, s: seq<uint8>, acc: seq<seq<int>>)
    : Decoded<seq<seq<int>>>
    decreases count
  {
    if count == 0 then Decoded(acc, s)
    else
      match DecodeArray(k, count2, s)
      case Truncated => Truncated
      case Decoded(row, s') => DecodeArray2From(k, count - 1, count2, s', acc + [row])
  }

  function DecodeArray2(k: Scalar, count: nat, count2: nat, s: seq<uint8>): Decoded<seq<seq<int>>>
  {
    DecodeArray2From(k, count, count2, s, [])
  }

  /** `write_array2`: the first `count` rows, each with `write_array`. */
  function EmitArray2(k: Scalar, count: nat, count2: nat, values: seq<seq<int>>): Emitted
    decreases count
  {
    if count == 0 then Nothing
    else if values == [] then Emitted([], false)
    else EmitArray(k, count2, values[0]).Then(EmitArray2(k, count - 1, count2, values[1..]))
  }

  /** A full `count` by `count2` matrix write emits `count * count2` scalars. */
  lemma {:induction false} EmitArray2Size(k: Scalar, count: nat, count2: nat, values: seq<seq<int>>)
    ensures EmitArray2(k, count, count2, values).ok ==>
      |EmitArray2(k, count, count2, values).bytes| == count * (count2 * Size(k))
    decreases count
  {
    if count > 0 && values != [] {
      EmitArraySize(k, count2, values[0]);
      EmitArray2Size(k, count - 1, count2, values[1..]);
      assert count * (count2 * Size(k)) == count2 * Size(k) + (count - 1) * (count2 * Size(k));
    }
  }

  /** A matrix of in-range values whose rows have `count2` entries reads back unchanged. */
  lemma {:induction false} Array2RoundTrip(k: Scalar, count2: nat, rows: seq<seq<int>>,
                                           rest: seq<uint8>, acc: seq<seq<int>>)
    requires forall i :: 0 <= i < |rows| ==> |rows[i]| == count2
    requires forall i, j :: 0 <= i < |rows| && 0 <= j < count2 ==> InRange(k, rows[i][j])
    ensures EmitArray2(k, |rows|, count2, rows).ok
    ensures DecodeArray2From(k, |rows|, count2, EmitArray2(k, |rows|, count2, rows).bytes + rest, acc)
            == Decoded(acc + rows, rest)
  {
    if rows == [] {
      assert acc + rows == acc;
    } else {
      var tail := rows[1..];
      Array2RoundTrip(k, count2, tail, rest, acc + [rows[0]]);
      var more := EmitArray2(k, |tail|, count2, tail);
      ArrayRoundTrip(k, rows[0], more.bytes + rest, []);
      var head := EmitArray(k, count2, rows[0]);
      assert head.bytes + more.bytes + rest == head.bytes + (more.bytes + rest);
      assert [] + rows[0] == rows[0];
      assert acc + [rows[0]] + tail == acc + rows;
    }
  }

  /** `read_array` gives back what `write_array` wrote, leaving the bytes after it. */
  lemma ArrayReadsBack(k: Scalar, values: seq<int>, rest: seq<uint8>)
    requires forall i :: 0 <= i < |values| ==> InRange(k, values[i])
    ensures EmitArray(k, |values|, values).ok
    ensures DecodeArray(k, |values|, EmitArray(k, |values|, values).bytes + rest) == Decoded(values, rest)
  {
    ArrayRoundTrip(k, values, rest, []);
    assert [] + values == values;
  }

  /** `read_array2` gives back what `write_array2` wrote, leaving the bytes after it. */
  lemma Array2ReadsBack(k: Scalar, count2: nat, rows: seq<seq<int>>, rest: seq<uint8>)
    requires forall i :: 0 <= i < |rows| ==> |rows[i]| == count2
    requires forall i, j :: 0 <= i < |rows| && 0 <= j < count2 ==> InRange(k, rows[i][j])
    ensures EmitArray2(k, |rows|, count2, rows).ok
    ensures DecodeArray2(k, |rows|, count2, EmitArray2(k, |rows|, count2, rows).bytes + rest) == Decoded(rows, rest)
  {
    Array2RoundTrip(k, count2, rows, rest, []);
    assert [] + rows == rows;
  }

  /** A signed byte read from `s` is its first byte, shifted down by 256 from 128 on. */
  lemma SignedByte(s: seq<uint8>, v: int)
    requires DecodeScalar(SByte, s).Decoded? && DecodeScalar(SByte, s).value == v
    ensures v == if s[0] >= 0x80 then s[0] as int - 0x100 else s[0]
  {
    assert LittleEndian(s[..1]) == s[0] + 0x100 * LittleEndian([]) by {
      assert s[..1][1..] == [];
    }
  }

  lemma DecodeStringShort(length: nat, s: seq<uint8>, seen: seq<uint8>, rest: seq<uint8>)
    requires s == seen + rest && |seen| < length && |rest| < 1
    ensures DecodeString(length, s) == Truncated
  {
  }

  lemma DecodeStringFull(length: nat, seen: seq<uint8>, rest: seq<uint8>)
    requires |seen| == length
    ensures DecodeString(length, seen + rest) == Decoded(TextOf(seen), rest)
  {
    assert (seen + rest)[..length] == seen;
    assert (seen + rest)[length..] == rest;
  }

  /** One step of `read_string`: how the signed byte read extends the text. */
  lemma ReadStringStep(bs: seq<uint8>, b: uint8, raw: int)
    requires raw == if b >= 0x80 then b as int - 0x100 else b
    ensures raw == 0 <==> b == 0
    ensures 0 in bs + [b] <==> 0 in bs || b == 0
    ensures raw != 0 ==> (if 32 <= raw <= 255 then raw else 32) as char == CharOfByte(b)
    ensures TextOf(bs + [b]) ==
      if 0 in bs || b == 0 then TextOf(bs) else TextOf(bs) + [CharOfByte(b)]
  {
    TextOfSnoc(bs, b);
  }

  // --------------------------------------------------------- reader / writer

  /** An open file being read: its bytes and the current position. */
  class Ms3dReader {
    const data: seq<uint8>
    var pos: nat

    ghost predicate Valid()
      reads this
    {
      pos <= |data|
    }

    /** The bytes not read yet. */
    function Rest(): seq<uint8>
      reads this
      requires Valid()
    {
      data[pos..]
    }

    constructor(bytes: seq<uint8>)
      ensures Valid() && data == bytes && pos == 0
    {
      data := bytes;
      pos := 0;
    }

    /** `raise_on_eof`: the position has reached the size of the file. */
    predicate AtEof()
      reads this
    {
      pos >= |data|
    }

    /** One of `read_byte` .. `read_float`; a short read fails and the file is left at its end. */
    method ReadScalar(k: Scalar) returns (r: Option<int>)
      requires Valid()
      modifies this
      ensures Valid()
      ensures Outcome(r, Rest()) == DecodeScalar(k, old(Rest()))
    {
      if |data| - pos < Size(k) {
        pos := |data|;
        return None;
      }
      var u: int := LittleEndian(data[pos..pos + Size(k)]);
      assert data[pos..pos + Size(k)] == old(Rest())[..Size(k)];
      pos := pos + Size(k);
      if k == SByte && u >= 0x80 {
        r := Some(u - 0x100);
      } else {
        r := Some(u);
      }
    }

    /** `read_string`: reads `length` signed bytes, keeping characters until the first zero. */
    method ReadString(length: nat) returns (r: Option<string>)
      requires Valid()
      modifies this
      ensures Valid()
      ensures Outcome(r, Rest()) == DecodeString(length, old(Rest()))
    {
      ghost var s0 := Rest();
      ghost var seen: seq<uint8> := [];
      var value: string := [];
      var skip := false;
      var i := 0;
      while i < length
        invariant 0 <= i <= length && Valid()
        invariant |seen| == i && s0 == seen + Rest()
        invariant skip <==> 0 in seen
        invariant value == TextOf(seen)
      {
        ghost var before := Rest();
        var raw := ReadScalar(SByte);
        if raw.None? {
          DecodeStringShort(length, s0, seen, before);
          return None;
        }
        ghost var b: uint8 := before[0];
        assert before == [b] + Rest();
        SignedByte(before, raw.value);
        ReadStringStep(seen, b, raw.value);
        var code := raw.value;
        if !(32 <= code <= 255) {
          if code == 0 {
            skip := true;
          } else {
            code := 32;
          }
        }
        if !skip {
          value := value + [code as char];
        }
        AppendAssociative(seen, [b], Rest());
        seen := seen + [b];
        i := i + 1;
      }
      DecodeStringFull(length, seen, Rest());
      r := Some(value);
    }

    /** `read_array` of scalars. */
    method ReadArray(k: Scalar, count: nat) returns (r: Option<seq<int>>)
      requires Valid()
      modifies this
      ensures Valid()
      ensures Outcome(r, Rest()) == DecodeArray(k, count, old(Rest()))
    {
      var value: seq<int> := [];
      for i := 0 to count
        invariant Valid()
        invariant DecodeArray(k, count, old(Rest())) == DecodeArrayFrom(k, count - i, Rest(), value)
      {
        var item := ReadScalar(k);
        if item.None? {
          return None;
        }
        value := value + [item.value];
      }
      r := Some(value);
    }

    /** `read_array2` of scalars. */
    method ReadArray2(k: Scalar, count: nat, count2: nat) returns (r: Option<seq<seq<int>>>)
      requires Valid()
      modifies this
      ensures Valid()
      ensures Outcome(r, Rest()) == DecodeArray2(k, count, count2, old(Rest()))
    {
      var value: seq<seq<int>> := [];
      for i := 0 to count
        invariant Valid()
        invariant DecodeArray2(k, count, count2, old(Rest())) ==
                  DecodeArray2From(k, count - i, count2, Rest(), value)
      {
        var row := ReadArray(k, count2);
        if row.None? {
          return None;
        }
        value := value + [row.value];
      }
      r := Some(value);
    }
  }

  /** A file being written: the bytes written so far. */
  class Ms3dWriter {
    var written: seq<uint8>

    constructor()
      ensures written == []
    {
      written := [];
    }

    /** One of `write_byte` .. `write_float`. */
    method WriteScalar(k: Scalar, v: int) returns (ok: bool)
      modifies this
      ensures written == old(written) + EmitScalar(k, v).bytes
      ensures ok == EmitScalar(k, v).ok
    {
      if !InRange(k, v) {
        return false;
      }
      written := written + EncodeScalar(k, v);
      ok := true;
    }

    /** `write_string`. */
    method WriteString(length: nat, value: string) returns (ok: bool)
      modifies this
      ensures written == old(written) + EmitString(length, value).bytes
      ensures ok == EmitString(length, value).ok
    {
      var l := |value|;
      ghost var done: seq<uint8> := [];
      for i := 0 to length
        invariant written == old(written) + done
        invariant EmitString(length, value) == Emitted(done, true).Then(EmitString(length - i, Drop(value, i)))
      {
        var raw := if i < l then CharCode(value[i]) else 0;
        assert Drop(value, i + 1) == Drop(Drop(value, i), 1);
        ghost var step := EmitScalar(SByte, raw);
        WriteStep(old(written), done, step, EmitString(length - i - 1, Drop(value, i + 1)));
        ok := WriteScalar(SByte, raw);
        done := done + step.bytes;
        if !ok {
          return;
        }
      }
      ThenNothing(Emitted(done, true));
      ok := true;
    }

    /** `write_array` of scalars. */
    method WriteArray(k: Scalar, count: nat, values: seq<int>) returns (ok: bool)
      modifies this
      ensures written == old(written) + EmitArray(k, count, values).bytes
      ensures ok == EmitArray(k, count, values).ok
    {
      ghost var done: seq<uint8> := [];
      for i := 0 to count
        invariant written == old(written) + done
        invariant EmitArray(k, count, values) == Emitted(done, true).Then(EmitArray(k, count - i, Drop(values, i)))
      {
        if i >= |values| {
          assert done + [] == done;
          return false;
        }
        assert Drop(values, i)[1..] == Drop(values, i + 1);
        ghost var step := EmitScalar(k, values[i]);
        WriteStep(old(written), done, step, EmitArray(k, count - i - 1, Drop(values, i + 1)));
        ok := WriteScalar(k, values[i]);
        done := done + step.bytes;
        if !ok {
          return;
        }
      }
      ThenNothing(Emitted(done, true));
      ok := true;
    }

    /** `write_array2` of scalars. */
    method WriteArray2(k: Scalar, count: nat, count2: nat, values: seq<seq<int>>) returns (ok: bool)
      modifies this
      ensures written == old(written) + EmitArray2(k, count, count2, values).bytes
      ensures ok == EmitArray2(k, count, count2, values).ok
    {
      ghost var done: seq<uint8> := [];
      for i := 0 to count
        invariant written == old(written) + done
        invariant EmitArray2(k, count, count2, values) ==
                  Emitted(done, true).Then(EmitArray2(k, count - i, count2, Drop(values, i)))
      {
        EmitArray2Step(k, count - i, count2, values, i);
        if i >= |values| {
          assert done + [] == done;
          return false;
        }
        ghost var step := EmitArray(k, count2, values[i]);
        WriteStep(old(written), done, step, EmitArray2(k, count - i - 1, count2, Drop(values, i + 1)));
        ok := WriteArray(k, count2, values[i]);
        done := done + step.bytes;
        if !ok {
          return;
        }
      }
      ThenNothing(Emitted(done, true));
      ok := true;
    }
  }

  /** One row of `write_array2`: a missing row fails, otherwise that row is written before the others. */
  lemma EmitArray2Step(k: Scalar, n: nat, count2: nat, values: seq<seq<int>>, i: nat)
    requires n > 0
    ensures EmitArray2(k, n, count2, Drop(values, i)) ==
      if i >= |values| then Emitted([], false)
      else EmitArray(k, count2, values[i]).Then(EmitArray2(k, n - 1, count2, Drop(values, i + 1)))
  {
    if i < |values| {
      assert Drop(values, i)[1..] == Drop(values, i + 1);
    }
  }

  lemma AppendAssociative(a: seq<uint8>, b: seq<uint8>, c: seq<uint8>)
    ensures a + b + c == a + (b + c)
  {
  }

  /**
   * One write inside a writing loop: the whole output is what was written so
   * far, this step, and the remaining steps only when this one succeeds.
   */
  lemma WriteStep(start: seq<uint8>, done: seq<uint8>, step: Emitted, remaining: Emitted)
    ensures start + done + step.bytes == start + (done + step.bytes)
    ensures Emitted(done, true).Then(step.Then(remaining)) ==
      if step.ok then Emitted(done + step.bytes, true).Then(remaining) else Emitted(done + step.bytes, false)
  {
    AppendAssociative(start, done, step.bytes);
    if step.ok {
      assert done + (step.bytes + remaining.bytes) == done + step.bytes + remaining.bytes;
    }
  }

  /**
   * Part way through a fixed sequence of writes: `done` has reached the file,
   * and the whole sequence `whole` is `done` followed by the writes `todo`.
   */
  ghost predicate Pending(whole: Emitted, done: seq<uint8>, todo: Emitted)
  {
    whole.bytes == done + todo.bytes && whole.ok == todo.ok
  }

  /** One more write of a fixed sequence: on success the rest is pending, on failure the sequence ends here. */
  lemma Advance(whole: Emitted, start: seq<uint8>, done: seq<uint8>, step: Emitted, remaining: Emitted)
    requires Pending(whole, done, step.Then(remaining))
    ensures start + done + step.bytes == start + (done + step.bytes)
    ensures step.ok ==> Pending(whole, done + step.bytes, remaining)
    ensures !step.ok ==> whole.bytes == done + step.bytes && !whole.ok
  {
    AppendAssociative(start, done, step.bytes);
    if step.ok {
      AppendAssociative(done, step.bytes, remaining.bytes);
    }
  }

  /** The last write of a fixed sequence completes it, successfully or not. */
  lemma Finish(whole: Emitted, start: seq<uint8>, done: seq<uint8>, last: Emitted)
    requires Pending(whole, done, last)
    ensures start + done + last.bytes == start + whole.bytes
    ensures whole.ok == last.ok
  {
    AppendAssociative(start, done, last.bytes);
  }
}
