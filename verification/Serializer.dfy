/** The byte buffer that records are written to and read back from: varints, zig-zag integers, booleans and strings. */
module SerializerBuffer {

  type byte = x: int | 0 <= x < 256
  type Text = seq<byte>
  const U64 := 0x1_0000_0000_0000_0000
  const I64 := 0x8000_0000_0000_0000
  type uint64 = x: int | 0 <= x < U64
  type int64 = x: int | -I64 <= x < I64

  // ---------------------------------------------------------------- encodings

  /** Seven bits a byte, least significant first, the high bit set on all but the last. */
  function Uvarint(x: nat): (b: seq<byte>)
    ensures b != []
  {
    if x < 128 then [x] else [x % 128 + 128] + Uvarint(x / 128)
  }

  /** uint64(x) << 1, complemented when x is negative. */
  function Zigzag(x: int64): uint64 {
    var ux := 2 * (if x < 0 then U64 + x else x) % U64;
    if x < 0 then U64 - 1 - ux else ux
  }

  /** int64(ux >> 1), complemented when ux is odd. */
  function Unzigzag(ux: uint64): int64 {
    var x := ux / 2;
    if ux % 2 != 0 then -1 - x else x
  }

  lemma ZigzagInverse(x: int64)
    ensures Unzigzag(Zigzag(x)) == x
  {
  }

  lemma UnzigzagInverse(ux: uint64)
    ensures Zigzag(Unzigzag(ux)) == ux
  {
  }

  function BoolByte(v: bool): seq<byte> {
    [if v then 1 else 0]
  }

  function Lengthed(s: seq<byte>): seq<byte> {
    Uvarint(|s|) + s
  }

  // ---------------------------------------------------------------- decodings

  /** The value of the varint a buffer starts with, and what follows it. */
  function TakeU(b: seq<byte>): (nat, seq<byte>) {
    if b == [] then (0, [])
    else if b[0] < 128 then (b[0], b[1..])
    else
      var (v, rest) := TakeU(b[1..]);
      (b[0] - 128 + 128 * v, rest)
  }

  function TakeB(b: seq<byte>): (bool, seq<byte>) {
    if b == [] then (false, []) else (b[0] == 1, b[1..])
  }

  function TakeS(b: seq<byte>): (seq<byte>, seq<byte>) {
    var (l, rest) := TakeU(b);
    if l <= |rest| then (rest[..l], rest[l..]) else (rest, [])
  }

  lemma {:induction false} TakeUvarint(x: nat, rest: seq<byte>)
    ensures TakeU(Uvarint(x) + rest) == (x, rest)
  {
    var b := Uvarint(x) + rest;
    if x < 128 {
      assert b[1..] == rest;
    } else {
      TakeUvarint(x / 128, rest);
      assert b[1..] == Uvarint(x / 128) + rest;
    }
  }

  lemma TakeLengthed(s: seq<byte>, rest: seq<byte>)
    ensures TakeS(Lengthed(s) + rest) == (s, rest)
  {
    assert Lengthed(s) + rest == Uvarint(|s|) + (s + rest);
    TakeUvarint(|s|, s + rest);
  }

  lemma TakeBool(v: bool, rest: seq<byte>)
    ensures TakeB(BoolByte(v) + rest) == (v, rest)
  {
    assert (BoolByte(v) + rest)[1..] == rest;
  }

  /** The buffer starts with a whole varint of a uint64: it ends within n bytes. */
  predicate Whole(b: seq<byte>, n: nat) {
    n > 0 && b != [] && (b[0] < 128 || Whole(b[1..], n - 1))
  }

  const MAX_VARINT := 10

  predicate StartsU(b: seq<byte>) {
    Whole(b, MAX_VARINT) && TakeU(b).0 < U64
  }

  /** The bound on what is left of a uint64 after i bytes. */
  function Cap(i: nat): nat {
    if i == 0 then U64 else (Cap(i - 1) + 127) / 128
  }

  lemma LastCap()
    ensures Cap(9) == 2
  {
    assert Cap(3) == Cap(2) / 128 + (if Cap(2) % 128 == 0 then 0 else 1);
    assert Cap(2) == 0x4_0000_0000_0000;
    assert Cap(4) == 0x10_0000_0000;
    assert Cap(6) == 0x40_0000;
    assert Cap(8) == 0x100;
  }

  lemma CapStep(i: nat, v: nat)
    requires i <= 9 && 128 <= v < Cap(i)
    ensures i < 9 && v / 128 < Cap(i + 1)
  {
    LastCap();
  }

  lemma PutStep(done: seq<byte>, v: nat)
    requires v >= 128
    ensures done + [v % 128 + 128] + Uvarint(v / 128) == done + Uvarint(v)
  {
  }

  lemma {:induction false} UvarintWhole(x: nat, i: nat, rest: seq<byte>)
    requires i <= 9 && x < Cap(i)
    ensures Whole(Uvarint(x) + rest, MAX_VARINT - i)
    decreases MAX_VARINT - i
  {
    LastCap();
    if x >= 128 {
      UvarintWhole(x / 128, i + 1, rest);
      assert (Uvarint(x) + rest)[1..] == Uvarint(x / 128) + rest;
    }
  }

  lemma UvarintStarts(x: uint64, rest: seq<byte>)
    ensures StartsU(Uvarint(x) + rest)
  {
    UvarintWhole(x, 0, rest);
    TakeUvarint(x, rest);
  }

  /** A buffer that starts with a varint is read as that varint. */
  lemma UvarintReads(x: uint64, rest: seq<byte>)
    ensures StartsU(Uvarint(x) + rest) && TakeU(Uvarint(x) + rest) == (x, rest)
  {
    UvarintStarts(x, rest);
    TakeUvarint(x, rest);
  }

  lemma LengthedReads(s: seq<byte>, rest: seq<byte>)
    requires |s| < U64
    ensures
      var b := Lengthed(s) + rest;
      StartsU(b) && TakeU(b).0 <= |TakeU(b).1| && TakeS(b) == (s, rest)
  {
    assert Lengthed(s) + rest == Uvarint(|s|) + (s + rest);
    UvarintReads(|s|, s + rest);
    TakeLengthed(s, rest);
  }

  /** 128 to the i: the weight of the i-th byte. */
  function Scale(i: nat): (s: nat)
    ensures s > 0
  {
    if i == 0 then 1 else 128 * Scale(i - 1)
  }

  lemma LastScale()
    ensures Scale(9) == 0x8000_0000_0000_0000
  {
    assert Scale(3) == 128 * Scale(2);
    assert Scale(5) == 128 * Scale(4);
    assert Scale(7) == 128 * Scale(6);
    assert Scale(9) == 128 * Scale(8);
  }

  class Serializer {
    var scratch: array<byte>
    var buffer: seq<byte>

    ghost predicate Valid()
      reads this
    {
      scratch.Length == MAX_VARINT
    }

    constructor (buf: seq<byte>)
      ensures Valid() && fresh(scratch) && buffer == buf
    {
      scratch := new byte[MAX_VARINT];
      buffer := buf;
    }

    /** The buffer's contents, which are gone from it afterwards. */
    method Read() returns (b: seq<byte>)
      modifies this`buffer
      ensures b == old(buffer) && buffer == []
    {
      b := buffer;
      buffer := [];
    }

    method Reset(p: seq<byte>)
      modifies this`buffer
      ensures buffer == p
    {
      buffer := p;
    }

    /** The varint of x, written to the scratch array. */
    method PutUvarint(x: uint64) returns (n: nat)
      requires Valid()
      modifies scratch
      ensures n <= MAX_VARINT && scratch[..n] == Uvarint(x)
    {
      var i, v := 0, x;
      while v >= 128
        invariant i <= 9 && 0 <= v < Cap(i)
        invariant scratch[..i] + Uvarint(v) == Uvarint(x)
        decreases v
      {
        CapStep(i, v);
        PutStep(scratch[..i], v);
        scratch[i] := v % 128 + 128;
        assert scratch[..i + 1] == scratch[..i] + [v % 128 + 128];
        v := v / 128;
        i := i + 1;
      }
      scratch[i] := v;
      n := i + 1;
      assert scratch[..n] == scratch[..i] + Uvarint(v);
    }

    method SerializeUInteger(v: uint64)
      requires Valid()
      modifies this`buffer, scratch
      ensures buffer == old(buffer) + Uvarint(v)
    {
      var ln := PutUvarint(v);
      buffer := buffer + scratch[..ln];
    }

    method SerializeInteger(v: int64)
      requires Valid()
      modifies this`buffer, scratch
      ensures buffer == old(buffer) + Uvarint(Zigzag(v))
    {
      var ln := PutUvarint(Zigzag(v));
      buffer := buffer + scratch[..ln];
    }

    method SerializeBool(v: bool)
      requires Valid()
      modifies this`buffer, scratch
      ensures buffer == old(buffer) + BoolByte(v)
    {
      if v {
        scratch[0] := 1;
        buffer := buffer + scratch[..1];
        return;
      }
      scratch[0] := 0;
      buffer := buffer + scratch[..1];
    }

    method SerializeBytes(val: seq<byte>)
      requires Valid() && |val| < U64
      modifies this`buffer, scratch
      ensures buffer == old(buffer) + Lengthed(val)
    {
      var l := |val|;
      SerializeUInteger(l);
      if l > 0 {
        buffer := buffer + val;
      }
    }

    /** Reads one byte; at the end of the buffer it returns whatever the scratch array holds. */
    method ReadByte() returns (b: byte)
      requires Valid()
      modifies this`buffer, scratch
      ensures old(buffer) != [] ==> b == old(buffer)[0] && buffer == old(buffer)[1..]
      ensures old(buffer) == [] ==> b == old(scratch[0]) && buffer == []
    {
      if buffer != [] {
        scratch[0] := buffer[0];
        buffer := buffer[1..];
      }
      b := scratch[0];
    }

    method DeserializeUInteger() returns (x: uint64)
      requires Valid() && StartsU(buffer)
      modifies this`buffer, scratch
      ensures (x, buffer) == TakeU(old(buffer))
    {
      LastScale();
      x := 0;
      var scale := 1;
      for i := 0 to MAX_VARINT
        invariant scale == Scale(i) && Whole(buffer, MAX_VARINT - i)
        invariant x + scale * TakeU(buffer).0 == TakeU(old(buffer)).0
        invariant TakeU(buffer).1 == TakeU(old(buffer)).1
      {
        NextByte(scale, buffer);
        var b := ReadByte();
        if b < 128 {
          if i == MAX_VARINT - 1 && b > 1 {
            return;
          }
          x := x + scale * b;
          return;
        }
        x := x + scale * (b - 128);
        scale := scale * 128;
      }
    }

    method DeserializeInteger() returns (x: int64)
      requires Valid() && StartsU(buffer)
      modifies this`buffer, scratch
      ensures TakeU(old(buffer)).0 < U64 && x == Unzigzag(TakeU(old(buffer)).0) && buffer == TakeU(old(buffer)).1
    {
      var ux := DeserializeUInteger();
      x := Unzigzag(ux);
    }

    method DeserializeBool() returns (v: bool)
      requires Valid() && buffer != []
      modifies this`buffer, scratch
      ensures (v, buffer) == TakeB(old(buffer))
    {
      var b := ReadByte();
      v := b == 1;
    }

    method DeserializeFixed(ln: nat) returns (b: seq<byte>)
      requires ln <= |buffer|
      modifies this`buffer
      ensures b == old(buffer)[..ln] && buffer == old(buffer)[ln..]
    {
      b := buffer[..ln];
      buffer := buffer[ln..];
    }

    method DeserializeBytes() returns (b: seq<byte>)
      requires Valid() && StartsU(buffer) && TakeU(buffer).0 <= |TakeU(buffer).1|
      modifies this`buffer, scratch
      ensures (b, buffer) == TakeS(old(buffer))
    {
      var l := DeserializeUInteger();
      if l == 0 {
        return [];
      }
      b := DeserializeFixed(l);
    }
  }

  /** One byte of a varint carries its seven bits, the rest 128 times as much. */
  lemma NextByte(scale: nat, b: seq<byte>)
    requires b != []
    ensures b[0] < 128 ==> TakeU(b) == (b[0], b[1..])
    ensures b[0] >= 128 ==>
      && TakeU(b).1 == TakeU(b[1..]).1
      && scale * TakeU(b).0 == scale * (b[0] - 128) + scale * 128 * TakeU(b[1..]).0
      && scale * (b[0] - 128) >= 0 && scale * 128 * TakeU(b[1..]).0 >= 0
  {
    if b[0] >= 128 {
      Distribute(scale, b[0] - 128, TakeU(b[1..]).0);
    }
  }

  lemma Distribute(scale: nat, low: nat, v: nat)
    ensures scale * (low + 128 * v) == scale * low + scale * 128 * v
    ensures scale * low >= 0 && scale * 128 * v >= 0
  {
  }
}
