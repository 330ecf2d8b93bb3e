/** Writing and reading one column through the serializer's buffer. */
module RecordFields {
  import opened Wrappers
  import opened SerializerBuffer
  import opened RecordSchema
  import opened RecordCodec

  // ---------------------------------------------------------------- entity to buffer

  method SerializeTime(s: Serializer, t: int64)
    requires s.Valid()
    modifies s`buffer, s.scratch
    ensures s.buffer == old(s.buffer) + EncWire(I(EncodedTime(t)))
  {
    if t == ZERO_TIME {
      s.SerializeInteger(ZERO_DATE_SECONDS);
    } else {
      var unix := t;
      if unix > 0 {
        unix := Wrap(unix + TIME_STAMP_SECONDS);
      } else {
        unix := ZERO_DATE_SECONDS;
      }
      s.SerializeInteger(unix);
    }
  }

  lemma ListStep(us: seq<uint64>, i: nat, before: seq<byte>)
    requires i < |us|
    ensures before + EncList(us[..i]) + Uvarint(us[i]) == before + EncList(us[..i + 1])
  {
    assert us[..i + 1][..i] == us[..i];
    Regroup(before, EncList(us[..i]), Uvarint(us[i]));
  }

  method SerializeList(s: Serializer, us: seq<uint64>)
    requires s.Valid() && |us| < U64
    modifies s`buffer, s.scratch
    ensures s.buffer == old(s.buffer) + EncWire(L(us))
  {
    s.SerializeUInteger(|us|);
    ghost var before := s.buffer;
    for i := 0 to |us|
      invariant s.buffer == before + EncList(us[..i])
    {
      ListStep(us, i, before);
      s.SerializeUInteger(us[i]);
    }
    assert us[..|us|] == us;
    Regroup(old(s.buffer), Uvarint(|us|), EncList(us));
  }

  method SerializeOptional(s: Serializer, w: Wire)
    requires s.Valid() && Optional(w)
    modifies s`buffer, s.scratch
    ensures s.buffer == old(s.buffer) + EncWire(w)
  {
    hide Uvarint, BoolByte, Zigzag, EncWire;
    OptionalSplit(w, []);
    assert EncWire(w) + [] == EncWire(w) && Tail(w) + [] == Tail(w);
    Regroup(s.buffer, BoolByte(Present(w)), Tail(w));
    match w
    case OU(None) => s.SerializeBool(false);
    case OU(Some(u)) =>
      s.SerializeBool(true);
      s.SerializeUInteger(u);
    case OI(None) => s.SerializeBool(false);
    case OI(Some(i)) =>
      s.SerializeBool(true);
      s.SerializeInteger(i);
    case OB(None) => s.SerializeBool(false);
    case OB(Some(b)) =>
      s.SerializeBool(true);
      s.SerializeBool(b);
  }

  method SerializeField(env: Env, s: Serializer, k: Kind, f: Field, v: Value)
    requires s.Valid() && env.Valid() && Fits(k, f, v)
    modifies s`buffer, s.scratch
    ensures s.buffer == old(s.buffer) + EncWire(ToWire(env, k, f, v))
  {
    match k
    case Ref =>
      var id := 0;
      if v.ref.Some? { id := v.ref.value; }
      s.SerializeUInteger(id);
    case UInt => s.SerializeUInteger(v.u);
    case Int => s.SerializeInteger(v.i);
    case Bool => s.SerializeBool(v.b);
    case Float => s.SerializeUInteger(env.Round(v.f, f.precision));
    case Time => SerializeTime(s, v.t);
    case Date => SerializeTime(s, Midnight(env, v.t));
    case FakeDelete => s.SerializeBool(v.b);
    case Str => s.SerializeBytes(v.s);
    case UIntNull => SerializeOptional(s, OU(v.un));
    case IntNull => SerializeOptional(s, OI(v.n));
    case Enum =>
      if v.e == [] {
        s.SerializeUInteger(0);
      } else {
        s.SerializeUInteger(Index(f.members, v.e));
      }
    case Bytes =>
      if v.bytes.None? {
        s.SerializeBytes([]);
      } else {
        s.SerializeBytes(v.bytes.value);
      }
    case Set =>
      var values := [];
      if v.set_.Some? { values := v.set_.value; }
      SerializeList(s, Indexes(f.members, values));
    case BoolNull => SerializeOptional(s, OB(v.bn));
    case FloatNull => SerializeOptional(s, OU(if v.fn.None? then None else Some(env.Round(v.fn.value, f.precision))));
    case TimeNull => SerializeOptional(s, OI(if v.tn.None? then None else Some(EncodedTime(v.tn.value))));
    case DateNull => SerializeOptional(s, OI(if v.tn.None? then None else Some(EncodedTime(Midnight(env, v.tn.value)))));
    case Json =>
      if v.j.None? {
        s.SerializeBytes([]);
      } else {
        s.SerializeBytes(env.Marshal(v.j.value));
      }
    case RefsMany =>
      if v.refs.None? {
        s.SerializeUInteger(0);
      } else {
        SerializeList(s, v.refs.value);
      }
  }

  // ---------------------------------------------------------------- row to buffer

  method SerializeCell(env: Env, s: Serializer, k: Kind, f: Field, c: Cell)
    requires s.Valid() && env.Valid() && ScannedBy(PointerOf(k), c) && SmallEnum(f)
    modifies s`buffer, s.scratch
    ensures s.buffer == old(s.buffer) + EncWire(FromRow(env, k, f, c))
  {
    match k
    case Ref => s.SerializeUInteger(if c.n.None? then 0 else ToU64(c.n.value));
    case UInt => s.SerializeUInteger(c.u);
    case Int => s.SerializeInteger(c.i);
    case Bool => s.SerializeBool(c.b);
    case Float => s.SerializeUInteger(c.f);
    case Time =>
      var unix := c.i;
      if Wrap(unix - TIME_STAMP_SECONDS) > env.timeOffset {
        unix := Wrap(unix - env.timeOffset);
      }
      s.SerializeInteger(unix);
    case Date =>
      var unix := c.i;
      if Wrap(unix - TIME_STAMP_SECONDS) > env.timeOffset {
        unix := Wrap(unix - env.timeOffset);
      }
      s.SerializeInteger(unix);
    case FakeDelete => s.SerializeBool(c.u > 0);
    case Str => s.SerializeBytes(TextOf(c.s));
    case UIntNull => SerializeOptional(s, OU(if c.n.None? then None else Some(ToU64(c.n.value))));
    case IntNull => SerializeOptional(s, OI(c.n));
    case Enum =>
      if c.s.Some? {
        s.SerializeUInteger(Index(f.members, c.s.value));
      } else {
        s.SerializeUInteger(0);
      }
    case Bytes => s.SerializeBytes(TextOf(c.s));
    case Set =>
      SplitSize(TextOf(c.s), COMMA);
      if c.s.Some? && c.s.value != [] {
        SerializeList(s, Indexes(f.members, Split(c.s.value, COMMA)));
      } else {
        SerializeList(s, []);
      }
    case BoolNull => SerializeOptional(s, OB(c.bn));
    case FloatNull => SerializeOptional(s, OU(c.fn));
    case TimeNull =>
      if c.n.Some? {
        SerializeOptional(s, OI(Some(RowTimeNull(env, c.n.value))));
      } else {
        SerializeOptional(s, OI(None));
      }
    case DateNull =>
      if c.n.Some? {
        SerializeOptional(s, OI(Some(RowTimeNull(env, c.n.value))));
      } else {
        SerializeOptional(s, OI(None));
      }
    case Json => s.SerializeBytes(TextOf(c.s));
    case RefsMany =>
      if c.s.Some? {
        SerializeList(s, env.ParseIds(c.s.value));
      } else {
        SerializeList(s, []);
      }
  }

  lemma {:induction false} SplitSize(t: Text, sep: byte)
    ensures |Split(t, sep)| <= |t| + 1
  {
    if t != [] {
      SplitSize(t[..|t| - 1], sep);
    }
  }

  // ---------------------------------------------------------------- buffer to entity

  lemma {:induction false} EncListConcat(p: seq<uint64>, q: seq<uint64>)
    ensures EncList(p + q) == EncList(p) + EncList(q)
  {
    if q == [] {
      assert p + q == p;
    } else {
      var n := |q| - 1;
      EncListConcat(p, q[..n]);
      assert (p + q)[..|p + q| - 1] == p + q[..n];
      Regroup(EncList(p), EncList(q[..n]), Uvarint(q[n]));
    }
  }

  lemma ListHead(us: seq<uint64>, j: nat, rest: seq<byte>)
    requires j < |us|
    ensures EncList(us[j..]) + rest == Uvarint(us[j]) + (EncList(us[j + 1..]) + rest)
  {
    assert us[j..] == [us[j]] + us[j + 1..];
    EncListConcat([us[j]], us[j + 1..]);
    assert [us[j]][..0] == [];
    assert EncList([us[j]]) == Uvarint(us[j]);
    Regroup(Uvarint(us[j]), EncList(us[j + 1..]), rest);
  }

  /** The next n unsigned integers of the buffer. */
  method DeserializeList(s: Serializer, n: nat, ghost us: seq<uint64>, ghost rest: seq<byte>) returns (r: seq<uint64>)
    requires s.Valid() && n == |us| && s.buffer == EncList(us) + rest
    modifies s`buffer, s.scratch
    ensures r == us && s.buffer == rest
  {
    r := [];
    assert us[0..] == us;
    for j := 0 to n
      invariant r == us[..j] && s.buffer == EncList(us[j..]) + rest
    {
      ListHead(us, j, rest);
      UvarintReads(us[j], EncList(us[j + 1..]) + rest);
      var u := s.DeserializeUInteger();
      r := r + [u];
    }
  }

  /** The length of a list, then its elements. */
  method DeserializeLengthed(s: Serializer, ghost us: seq<uint64>, ghost rest: seq<byte>) returns (r: seq<uint64>)
    requires s.Valid() && |us| < U64 && s.buffer == EncWire(L(us)) + rest
    modifies s`buffer, s.scratch
    ensures r == us && s.buffer == rest
  {
    Regroup(Uvarint(|us|), EncList(us), rest);
    UvarintReads(|us|, EncList(us) + rest);
    var l := s.DeserializeUInteger();
    r := DeserializeList(s, l, us, rest);
  }

  method DeserializeU(s: Serializer, ghost u: uint64, ghost rest: seq<byte>) returns (r: uint64)
    requires s.Valid() && s.buffer == Uvarint(u) + rest
    modifies s`buffer, s.scratch
    ensures r == u && s.buffer == rest
  {
    UvarintReads(u, rest);
    r := s.DeserializeUInteger();
  }

  method DeserializeI(s: Serializer, ghost i: int64, ghost rest: seq<byte>) returns (r: int64)
    requires s.Valid() && s.buffer == Uvarint(Zigzag(i)) + rest
    modifies s`buffer, s.scratch
    ensures r == i && s.buffer == rest
  {
    UvarintReads(Zigzag(i), rest);
    ZigzagInverse(i);
    r := s.DeserializeInteger();
  }

  method DeserializeB(s: Serializer, ghost b: bool, ghost rest: seq<byte>) returns (r: bool)
    requires s.Valid() && s.buffer == BoolByte(b) + rest
    modifies s`buffer, s.scratch
    ensures r == b && s.buffer == rest
  {
    TakeBool(b, rest);
    r := s.DeserializeBool();
  }

  method DeserializeS(s: Serializer, ghost t: Text, ghost rest: seq<byte>) returns (r: Text)
    requires s.Valid() && |t| < U64 && s.buffer == Lengthed(t) + rest
    modifies s`buffer, s.scratch
    ensures r == t && s.buffer == rest
  {
    LengthedReads(t, rest);
    r := s.DeserializeBytes();
  }

  method DeserializeOptional(s: Serializer, ghost w: Wire, ghost rest: seq<byte>) returns (present: bool)
    requires s.Valid() && Optional(w) && s.buffer == EncWire(w) + rest
    modifies s`buffer, s.scratch
    ensures present == Present(w) && s.buffer == Tail(w) + rest
  {
    OptionalSplit(w, rest);
    present := DeserializeB(s, Present(w), Tail(w) + rest);
  }

  method DeserializeOU(s: Serializer, ghost o: Option<uint64>, ghost rest: seq<byte>) returns (r: Option<uint64>)
    requires s.Valid() && s.buffer == EncWire(OU(o)) + rest
    modifies s`buffer, s.scratch
    ensures r == o && s.buffer == rest
  {
    var present := DeserializeOptional(s, OU(o), rest);
    if present {
      var u := DeserializeU(s, o.value, rest);
      return Some(u);
    }
    assert [] + rest == rest;
    return None;
  }

  method DeserializeOI(s: Serializer, ghost o: Option<int64>, ghost rest: seq<byte>) returns (r: Option<int64>)
    requires s.Valid() && s.buffer == EncWire(OI(o)) + rest
    modifies s`buffer, s.scratch
    ensures r == o && s.buffer == rest
  {
    var present := DeserializeOptional(s, OI(o), rest);
    if present {
      var i := DeserializeI(s, o.value, rest);
      return Some(i);
    }
    assert [] + rest == rest;
    return None;
  }

  method DeserializeOB(s: Serializer, ghost o: Option<bool>, ghost rest: seq<byte>) returns (r: Option<bool>)
    requires s.Valid() && s.buffer == EncWire(OB(o)) + rest
    modifies s`buffer, s.scratch
    ensures r == o && s.buffer == rest
  {
    var present := DeserializeOptional(s, OB(o), rest);
    if present {
      var b := DeserializeB(s, o.value, rest);
      return Some(b);
    }
    assert [] + rest == rest;
    return None;
  }

  /** Reads one column; the buffer must hold a whole encoding of it. */
  method DeserializeField(env: Env, s: Serializer, k: Kind, f: Field, ghost w: Wire, ghost rest: seq<byte>)
    returns (v: Value)
    requires s.Valid() && Decodable(k, f, w) && s.buffer == EncWire(w) + rest
    modifies s`buffer, s.scratch
    ensures v == FromWire(env, k, f, w) && s.buffer == rest
  {
    hide Wrap, Members, Uvarint, EncList, Lengthed;
    match k
    case Ref =>
      var id := DeserializeU(s, w.u, rest);
      v := RefV(if id > 0 then Some(id) else None);
    case UInt =>
      var u := DeserializeU(s, w.u, rest);
      v := UIntV(u);
    case Int =>
      var i := DeserializeI(s, w.i, rest);
      v := IntV(i);
    case Bool =>
      var b := DeserializeB(s, w.b, rest);
      v := BoolV(b);
    case Float =>
      var u := DeserializeU(s, w.u, rest);
      v := FloatV(u);
    case Time =>
      var unix := DeserializeI(s, w.i, rest);
      v := TimeV(if unix == ZERO_DATE_SECONDS then ZERO_TIME else Wrap(unix - TIME_STAMP_SECONDS));
    case Date =>
      var unix := DeserializeI(s, w.i, rest);
      v := TimeV(if unix == ZERO_DATE_SECONDS then ZERO_TIME else Wrap(unix - TIME_STAMP_SECONDS));
    case FakeDelete =>
      var b := DeserializeB(s, w.b, rest);
      v := BoolV(b);
    case Str =>
      var t := DeserializeS(s, w.s, rest);
      v := StrV(t);
    case UIntNull =>
      var o := DeserializeOU(s, w.ou, rest);
      v := UIntNullV(o);
    case IntNull =>
      var o := DeserializeOI(s, w.oi, rest);
      v := IntNullV(o);
    case Enum =>
      var index := DeserializeU(s, w.u, rest);
      v := EnumV(if index == 0 then [] else f.members[index - 1]);
    case Bytes =>
      var t := DeserializeS(s, w.s, rest);
      v := BytesV(if t == [] then None else Some(t));
    case Set =>
      var us := DeserializeLengthed(s, w.us, rest);
      v := SetV(if us == [] then None else Some(Members(f, us)));
    case BoolNull =>
      var o := DeserializeOB(s, w.ob, rest);
      v := BoolNullV(o);
    case FloatNull =>
      var o := DeserializeOU(s, w.ou, rest);
      v := FloatNullV(o);
    case TimeNull =>
      var o := DeserializeOI(s, w.oi, rest);
      v := TimeNullV(if o.None? then None else Some(Wrap(o.value - TIME_STAMP_SECONDS)));
    case DateNull =>
      var o := DeserializeOI(s, w.oi, rest);
      v := TimeNullV(if o.None? then None else Some(Wrap(o.value - TIME_STAMP_SECONDS)));
    case Json =>
      var t := DeserializeS(s, w.s, rest);
      v := JsonV(if t == [] then None else Some(env.Unmarshal(t)));
    case RefsMany =>
      var us := DeserializeLengthed(s, w.us, rest);
      v := RefsManyV(if us == [] then None else Some(us));
  }
}
