/**
 The typed accesses of Lua's ByteBuffer: 1-based positions, bounds before alignment, and values of
 1, 2, 4 or 8 bytes in the machine's byte order, whichever that is.
 */
module LuaByteBuffer {

  newtype Byte = b: int | 0 <= b < 256

  datatype Order = LittleEndian | BigEndian

  datatype Error = OutOfRange(position: int) | NotAligned(offset: int, width: int)

  datatype Result<T> = Ok(value: T) | Err(error: Error)

  predicate Width(w: nat) {
    w == 1 || w == 2 || w == 4 || w == 8
  }

  function Power(w: nat): (p: nat)
    ensures p > 0
  {
    if w == 0 then 1 else 256 * Power(w - 1)
  }

  // ---- the bytes of a value ----

  function Little(bits: nat, w: nat): (bytes: seq<Byte>)
    ensures |bytes| == w
  {
    if w == 0 then [] else [(bits % 256) as Byte] + Little(bits / 256, w - 1)
  }

  function Value(bytes: seq<Byte>): (bits: nat)
    ensures bits < Power(|bytes|)
  {
    if bytes == [] then 0 else bytes[0] as nat + 256 * Value(bytes[1..])
  }

  function Reversed(bytes: seq<Byte>): (r: seq<Byte>)
    ensures |r| == |bytes|
    ensures forall i | 0 <= i < |bytes| :: r[i] == bytes[|bytes| - 1 - i]
  {
    seq(|bytes|, i requires 0 <= i < |bytes| => bytes[|bytes| - 1 - i])
  }

  function Ordered(order: Order, bytes: seq<Byte>): (r: seq<Byte>)
    ensures |r| == |bytes|
  {
    if order == LittleEndian then bytes else Reversed(bytes)
  }

  function Encode(order: Order, bits: nat, w: nat): (bytes: seq<Byte>)
    ensures |bytes| == w
  {
    Ordered(order, Little(bits, w))
  }

  function Decode(order: Order, bytes: seq<Byte>): (bits: nat)
    ensures bits < Power(|bytes|)
  {
    Value(Ordered(order, bytes))
  }

  lemma {:induction false} ValueOfLittle(bits: nat, w: nat)
    requires bits < Power(w)
    ensures Value(Little(bits, w)) == bits
  {
    if w > 0 {
      assert bits / 256 < Power(w - 1);
      ValueOfLittle(bits / 256, w - 1);
      assert Little(bits, w)[1..] == Little(bits / 256, w - 1);
    }
  }

  lemma {:induction false} LittleOfValue(bytes: seq<Byte>)
    ensures Little(Value(bytes), |bytes|) == bytes
  {
    if bytes != [] {
      LittleOfValue(bytes[1..]);
      var v := Value(bytes[1..]);
      assert Value(bytes) % 256 == bytes[0] as nat && Value(bytes) / 256 == v;
      assert bytes == [bytes[0]] + bytes[1..];
    }
  }

  lemma OrderedTwice(order: Order, bytes: seq<Byte>)
    ensures Ordered(order, Ordered(order, bytes)) == bytes
  {
    if order == BigEndian {
      forall i | 0 <= i < |bytes| ensures Reversed(Reversed(bytes))[i] == bytes[i] {
        assert Reversed(bytes)[|bytes| - 1 - i] == bytes[i];
      }
    }
  }

  /** The bytes of a value and the value of bytes are inverse, in either order. */
  lemma CodecInverse(order: Order, bits: nat, bytes: seq<Byte>)
    ensures bits < Power(|bytes|) ==> Decode(order, Encode(order, bits, |bytes|)) == bits
    ensures Encode(order, Decode(order, bytes), |bytes|) == bytes
  {
    LittleOfValue(Ordered(order, bytes));
    OrderedTwice(order, bytes);
    if bits < Power(|bytes|) {
      ValueOfLittle(bits, |bytes|);
      OrderedTwice(order, Little(bits, |bytes|));
    }
  }

  /** Byte i of a value counts 256^i; the least significant byte comes first in little-endian order and
      last in big-endian order. */
  lemma ByteAt(order: Order, bits: nat, w: nat, i: nat)
    requires i < w
    ensures Encode(order, bits, w)[if order == LittleEndian then i else w - 1 - i] as int == bits / Power(i) % 256
  {
    LittleAt(bits, w, i);
  }

  lemma {:induction false} LittleAt(bits: nat, w: nat, i: nat)
    requires i < w
    ensures Little(bits, w)[i] as int == bits / Power(i) % 256
  {
    if i == 0 {
      assert bits / 1 == bits;
    } else {
      LittleAt(bits / 256, w - 1, i - 1);
      DivideTwice(bits, Power(i - 1));
    }
  }

  lemma DivideTwice(a: nat, p: nat)
    requires p > 0
    ensures a / 256 / p == a / (256 * p)
  {
    var q, r := a / (256 * p), a % (256 * p);
    assert a == 256 * (p * q) + r && r < 256 * p;
    assert a / 256 == p * q + r / 256 && 0 <= r / 256 < p;
    Quotient(p, q, r / 256);
  }

  lemma Quotient(p: nat, q: nat, r: nat)
    requires p > 0 && r < p
    ensures (p * q + r) / p == q
  {
    var d := (p * q + r) / p;
    var m := (p * q + r) % p;
    assert p * q + r == p * d + m;
    if d > q { Ascends(q + 1, d, p); }
    if d < q { Ascends(d + 1, q, p); }
  }

  /** Two's complement, for the signed types. */
  function FromSigned(v: int, w: nat): (bits: nat)
    requires -(Power(w) as int) <= 2 * v < Power(w)
    ensures bits < Power(w)
  {
    if v < 0 then v + Power(w) else v
  }

  function ToSigned(bits: nat, w: nat): (v: int)
    requires bits < Power(w)
  {
    if 2 * bits < Power(w) then bits else bits - Power(w)
  }

  // ---- accesses ----

  const INT32_MIN: int := -0x8000_0000
  const INT32_MAX: int := 0x7FFF_FFFF

  function ToUint32(p: int): int {
    p % 0x1_0000_0000
  }

  /** The result is the 0-based offset, or the exception: both messages print 32-bit positions. */
  function Access(pos: int, w: nat, size: nat): (r: Result<nat>)
    requires Width(w) && INT32_MIN < pos <= INT32_MAX
  {
    var offset := pos - 1;
    if offset < 0 || offset + w > size then Err(OutOfRange(ToUint32(offset + 1)))
    else if offset % w != 0 then Err(NotAligned(ToUint32(offset), w))
    else Ok(offset)
  }

  /** The bytes after a write. */
  function Written(bytes: seq<Byte>, order: Order, offset: nat, bits: nat, w: nat): (r: seq<Byte>)
    requires offset + w <= |bytes|
    ensures |r| == |bytes|
  {
    bytes[..offset] + Encode(order, bits, w) + bytes[offset + w..]
  }

  class LuaByteBuffer {
    const nativeBuffer: array<Byte>

    constructor (nativeBuffer: array<Byte>)
      ensures this.nativeBuffer == nativeBuffer
    {
      this.nativeBuffer := nativeBuffer;
    }

    /** `write`; an access that fails changes nothing. */
    method Write(order: Order, pos: int, w: nat, bits: nat) returns (r: Result<()>)
      requires Width(w) && INT32_MIN < pos <= INT32_MAX && bits < Power(w)
      modifies nativeBuffer
      ensures r.Ok? <==> 1 <= pos <= nativeBuffer.Length - w + 1 && (pos - 1) % w == 0
      ensures r.Err? ==>
                nativeBuffer[..] == old(nativeBuffer[..]) && Access(pos, w, nativeBuffer.Length) == Err(r.error)
      ensures r.Ok? ==> nativeBuffer[..] == Written(old(nativeBuffer[..]), order, pos - 1, bits, w)
    {
      match Access(pos, w, nativeBuffer.Length) {
        case Err(e) => r := Err(e);
        case Ok(offset) =>
          var bytes := Encode(order, bits, w);
          forall i | 0 <= i < w {
            nativeBuffer[offset + i] := bytes[i];
          }
          r := Ok(());
      }
    }

    /** `read`. */
    method Read(order: Order, pos: int, w: nat) returns (r: Result<nat>)
      requires Width(w) && INT32_MIN < pos <= INT32_MAX
      ensures r.Ok? <==> 1 <= pos <= nativeBuffer.Length - w + 1 && (pos - 1) % w == 0
      ensures r.Err? ==> Access(pos, w, nativeBuffer.Length) == Err(r.error)
      ensures r.Ok? ==> r.value == Decode(order, nativeBuffer[pos - 1..pos - 1 + w])
    {
      match Access(pos, w, nativeBuffer.Length) {
        case Err(e) => r := Err(e);
        case Ok(offset) => r := Ok(Decode(order, nativeBuffer[offset..offset + w]));
      }
    }

    /** Reading back what was written, or the same exception. */
    method WriteThenRead(order: Order, pos: int, w: nat, bits: nat) returns (r: Result<nat>)
      requires Width(w) && INT32_MIN < pos <= INT32_MAX && bits < Power(w)
      modifies nativeBuffer
      ensures r == match Access(pos, w, nativeBuffer.Length) case Ok(_) => Ok(bits) case Err(e) => Err(e)
    {
      var _ := Write(order, pos, w, bits);
      r := Read(order, pos, w);
      CodecInverse(order, bits, Encode(order, bits, w));
    }
  }

  /** A position is refused exactly outside the buffer or off alignment, and the bounds come first. */
  lemma AccessMeaning(pos: int, w: nat, size: nat)
    requires Width(w) && INT32_MIN < pos <= INT32_MAX
    ensures Access(pos, w, size).Ok? <==> 1 <= pos <= size - w + 1 && (pos - 1) % w == 0
    ensures Access(pos, w, size).Ok? ==> exists i: nat :: Access(pos, w, size).value == i * w && i * w + w <= size
    ensures pos > 0 && Access(pos, w, size).Err? ==>
              Access(pos, w, size).error == if pos + w > size + 1 then OutOfRange(pos) else NotAligned(pos - 1, w)
  {
    if Access(pos, w, size).Ok? {
      var i := (pos - 1) / w;
      assert i * w == pos - 1;
    }
  }

  /** All four widths can be accessed at the first position of a buffer that is long enough. */
  lemma FirstCell(w: nat, size: nat)
    requires w in {1, 2, 4, 8} && w <= size
    ensures Width(w) && Access(1, w, size) == Ok(0)
  {
  }

  /** Two accesses that succeed are disjoint, or one is inside the other. */
  lemma DisjointOrNested(a: nat, v: nat, b: nat, w: nat)
    requires Width(v) && Width(w) && a % v == 0 && b % w == 0
    ensures a + v <= b || b + w <= a || (a <= b && b + w <= a + v) || (b <= a && a + v <= b + w)
  {
    if v >= w { InUnits(a, v, b, w); } else { InUnits(b, w, a, v); }
  }

  lemma InUnits(a: nat, v: nat, b: nat, w: nat)
    requires Width(v) && Width(w) && v >= w && a % v == 0 && b % w == 0
    ensures a + v <= b || b + w <= a || (a <= b && b + w <= a + v)
  {
    Multiple(a, v);
    Multiple(b, w);
    var i: nat :| a == i * v;
    var j: nat :| b == j * w;
    var m := v / w;
    assert v == m * w;
    Blocks(i, m, j, w);
  }

  /** Cells of width w, and blocks of m of them. */
  lemma Blocks(i: nat, m: nat, j: nat, w: nat)
    requires m > 0
    ensures var v := m * w; i * v + v <= j * w || j * w + w <= i * v || (i * v <= j * w && j * w + w <= i * v + v)
  {
    var k := i * m;
    Associates(i, m, w);
    Distributes(k, m, w);
    Distributes(j, 1, w);
    if j < k {
      Ascends(j + 1, k, w);
    } else if j < k + m {
      Ascends(k, j, w);
      Ascends(j + 1, k + m, w);
    } else {
      Ascends(k + m, j, w);
    }
  }

  lemma Associates(a: nat, b: nat, c: nat)
    ensures a * (b * c) == (a * b) * c
  {
  }

  lemma Distributes(a: nat, b: nat, c: nat)
    ensures (a + b) * c == a * c + b * c
  {
  }

  lemma Ascends(a: nat, b: nat, c: nat)
    requires a <= b
    ensures a * c <= b * c
  {
  }

  lemma Multiple(a: nat, w: nat)
    requires w > 0 && a % w == 0
    ensures exists i: nat :: a == i * w
  {
    assert a == a / w * w;
  }

  /** What a read sees after a write: the old value if they are disjoint, the value written if they
      are the same access, a part of its bytes if the read is inside the write. */
  lemma ReadAfterWrite(bytes: seq<Byte>, order: Order, a: nat, v: nat, bits: nat, b: nat, w: nat)
    requires a + v <= |bytes| && b + w <= |bytes| && bits < Power(v)
    ensures a + v <= b || b + w <= a ==>
              Decode(order, Written(bytes, order, a, bits, v)[b..b + w]) == Decode(order, bytes[b..b + w])
    ensures a == b && v == w ==> Decode(order, Written(bytes, order, a, bits, v)[b..b + w]) == bits
    ensures a <= b && b + w <= a + v ==>
              Decode(order, Written(bytes, order, a, bits, v)[b..b + w])
              == Decode(order, Encode(order, bits, v)[b - a..b - a + w])
  {
    var after := Written(bytes, order, a, bits, v);
    if a + v <= b || b + w <= a { assert after[b..b + w] == bytes[b..b + w]; }
    if a <= b && b + w <= a + v { assert after[b..b + w] == Encode(order, bits, v)[b - a..b - a + w]; }
    if a == b && v == w {
      CodecInverse(order, bits, Encode(order, bits, v));
      assert after[b..b + w] == Encode(order, bits, v);
    }
  }

  lemma Spliced(bytes: seq<Byte>, b: nat, w: nat)
    requires b + w <= |bytes|
    ensures bytes[..b] + bytes[b..b + w] + bytes[b + w..] == bytes
  {
  }

  /** Writing back what was read changes nothing. */
  lemma WriteBack(bytes: seq<Byte>, order: Order, b: nat, w: nat)
    requires b + w <= |bytes|
    ensures Written(bytes, order, b, Decode(order, bytes[b..b + w]), w) == bytes
  {
    var part := bytes[b..b + w];
    CodecInverse(order, 0, part);
    assert |part| == w;
    Spliced(bytes, b, w);
  }

  /** The signed types survive the way through their bits. */
  lemma SignedRoundTrip(v: int, bits: nat, w: nat)
    ensures -(Power(w) as int) <= 2 * v < Power(w) ==> ToSigned(FromSigned(v, w), w) == v
    ensures w > 0 && bits < Power(w) ==> FromSigned(ToSigned(bits, w), w) == bits
  {
    if w > 0 { assert Power(w) == 2 * (128 * Power(w - 1)); }
  }

  /** A signed value that is written is the signed value that is read. */
  lemma SignedReadAfterWrite(bytes: seq<Byte>, order: Order, a: nat, w: nat, v: int)
    requires a + w <= |bytes| && -(Power(w) as int) <= 2 * v < Power(w)
    ensures ToSigned(Decode(order, Written(bytes, order, a, FromSigned(v, w), w)[a..a + w]), w) == v
  {
    ReadAfterWrite(bytes, order, a, w, FromSigned(v, w), a, w);
    SignedRoundTrip(v, 0, w);
  }
}
