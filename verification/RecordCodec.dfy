/** What one column holds in the entity, in the record's bytes and in a row scanned from MySQL, and how each becomes another. */
module RecordCodec {
  import opened Wrappers
  import opened SerializerBuffer
  import opened RecordSchema

  // ---------------------------------------------------------------- the parts that are not modelled

  /** A JSON value, by its number among those that fit in memory: only equality and its encoding matter. */
  type Json = uint64

  /**
   * Float arithmetic, JSON and the time zone. A float is its 64 bits: Number is what they stand for and
   * Round(f, p) the float nearest to p decimal places. nullJson is what the text null decodes to.
   */
  datatype Env = Env(
    values: uint64 -> real, roundings: (uint64, nat) -> uint64,
    encodings: Json -> Text, decodings: Text -> Json, idLists: Text -> seq<uint64>, idTexts: seq<uint64> -> Text,
    nullJson: Json, zone: int, timeOffset: int)
  {
    function Number(f: uint64): real {
      values(f)
    }

    function Round(f: uint64, p: nat): uint64 {
      roundings(f, p)
    }

    function Marshal(j: Json): Text {
      encodings(j)
    }

    function Unmarshal(t: Text): Json {
      decodings(t)
    }

    function ParseIds(t: Text): seq<uint64> {
      idLists(t)
    }

    function FormatIds(ids: seq<uint64>): Text {
      idTexts(ids)
    }

    ghost predicate Valid() {
      && (forall f: uint64, p: nat :: Number(Round(f, p)) == Rounded(Number(f), p))
      && (forall j: Json :: 0 < |Marshal(j)| < I64)
      && (forall j: Json :: Unmarshal(Marshal(j)) == j)
      && (forall t: Text :: |ParseIds(t)| < I64)
    }

    /** A list of ids that was written is read back. */
    ghost predicate ListsKept() {
      forall ids: seq<uint64> :: |ids| < I64 ==> ParseIds(FormatIds(ids)) == ids
    }
  }

  function Pow10(p: nat): (r: real)
    ensures r >= 1.0
  {
    if p == 0 then 1.0 else 10.0 * Pow10(p - 1)
  }

  /** Half away from zero. */
  function RoundHalf(x: real): int {
    if x >= 0.0 then (x + 0.5).Floor else -(0.5 - x).Floor
  }

  function Rounded(x: real, p: nat): real {
    RoundHalf(x * Pow10(p)) as real / Pow10(p)
  }

  /** Ten to the p is a whole number. */
  lemma {:induction false} WholePower(p: nat) returns (n: nat)
    ensures Pow10(p) == n as real && n > 0
  {
    if p == 0 {
      n := 1;
    } else {
      var m := WholePower(p - 1);
      n := 10 * m;
    }
  }

  lemma Product(x: nat, n: nat)
    ensures x as real * n as real == (x * n) as real
  {
  }

  lemma Quotient(x: real, q: real, m: real)
    requires x * q == m && q > 0.0
    ensures m / q == x
  {
    var y := m / q;
    assert y * q == m;
    assert (x - y) * q == 0.0;
  }

  lemma HalfOf(y: real, m: nat)
    requires y == m as real
    ensures RoundHalf(y) == m
  {
  }

  lemma RoundedTo(x: real, p: nat, m: nat)
    requires x * Pow10(p) == m as real
    ensures Rounded(x, p) == x
  {
    hide RoundHalf, Pow10;
    HalfOf(x * Pow10(p), m);
    Quotient(x, Pow10(p), RoundHalf(x * Pow10(p)) as real);
  }

  lemma WholeRounded(x: nat, p: nat)
    ensures Rounded(x as real, p) == x as real
  {
    var n := WholePower(p);
    Product(x, n);
    RoundedTo(x as real, p, x * n);
  }

  lemma {:induction false} UvarintLength(x: nat, i: nat)
    requires i <= 9 && x < Cap(i)
    ensures 0 < |Uvarint(x)| <= MAX_VARINT - i
    decreases MAX_VARINT - i
  {
    if x >= 128 {
      CapStep(i, x);
      UvarintLength(x / 128, i + 1);
    }
  }

  /** A list of ids as some text, and back. */
  function IdsText(ids: seq<uint64>): Text {
    Uvarint(|ids|) + EncList(ids)
  }

  ghost function IdsIn(t: Text): (ids: seq<uint64>)
    ensures |ids| < I64
  {
    if ids: seq<uint64> :| |ids| < I64 && IdsText(ids) == t then ids else []
  }

  lemma IdsBack(ids: seq<uint64>)
    requires |ids| < I64
    ensures IdsIn(IdsText(ids)) == ids
  {
    var back := IdsIn(IdsText(ids));
    assert IdsText(back) == IdsText(ids);
    assert IdsText(ids) + [] == IdsText(ids) && IdsText(back) + [] == IdsText(back);
    ListsUnique(ids, back, [], []);
  }

  /** There are such environments: floats that are whole numbers, and JSON values written as their numbers. */
  lemma EnvExists() returns (env: Env)
    ensures env.Valid() && env.ListsKept()
  {
    hide IdsIn, IdsText;
    var whole: (uint64, nat) -> uint64 := (f, p) => f;
    var number: Text -> Json := t => if TakeU(t).0 < U64 then TakeU(t).0 else 0;
    env := Env(f => f as real, whole, j => Uvarint(j), number, t => IdsIn(t), ids => IdsText(ids), 0, 0, 0);
    forall f: uint64, p: nat ensures env.Number(env.Round(f, p)) == Rounded(env.Number(f), p) {
      WholeRounded(f, p);
    }
    forall j: Json ensures 0 < |env.Marshal(j)| < I64 && env.Unmarshal(env.Marshal(j)) == j {
      UvarintLength(j, 0);
      TakeUvarint(j, []);
      assert Uvarint(j) + [] == Uvarint(j);
    }
    forall ids: seq<uint64> | |ids| < I64 ensures env.ParseIds(env.FormatIds(ids)) == ids {
      IdsBack(ids);
    }
  }

  /** Two's complement. */
  function Wrap(x: int): int64 {
    var m := x % U64;
    if m < I64 then m else m - U64
  }

  function ToU64(i: int64): uint64 {
    if i < 0 then i + U64 else i
  }

  // ---------------------------------------------------------------- times

  const ZERO_DATE_SECONDS: int64 := 31622400
  const TIME_STAMP_SECONDS: int64 := 62167219200
  /** The Unix seconds of the zero time. */
  const ZERO_TIME: int64 := -62135596800

  /** The days from the start of the year 0 to that of this one; the year 0 is a leap year. */
  function DaysTo(year: nat): nat {
    365 * year + (year + 3) / 4 - (year + 99) / 100 + (year + 399) / 400
  }

  /** MySQL's seconds are those since the year 0; the constants are the starts of the years 1 and 1970. */
  lemma Calendar()
    ensures ZERO_DATE_SECONDS == 86400 * DaysTo(1) && TIME_STAMP_SECONDS == 86400 * DaysTo(1970)
    ensures ZERO_TIME == 86400 * (DaysTo(1) - DaysTo(1970))
  {
  }

  /** The start of t's day, in the entity's zone. */
  function Midnight(env: Env, t: int64): int64 {
    Wrap(t - (t + env.zone) % 86400)
  }

  /** Only times after the epoch are kept. */
  function EncodedTime(t: int64): int64 {
    if t > 0 then Wrap(t + TIME_STAMP_SECONDS) else ZERO_DATE_SECONDS
  }

  function DecodedTime(i: int64): int64 {
    if i == ZERO_DATE_SECONDS then ZERO_TIME else Wrap(i - TIME_STAMP_SECONDS)
  }

  function KeptTime(t: int64): int64 {
    if t > 0 then t else ZERO_TIME
  }

  lemma TimeInverse(t: int64)
    ensures DecodedTime(EncodedTime(t)) == KeptTime(t)
    ensures Wrap(EncodedTime(t) - TIME_STAMP_SECONDS) == KeptTime(t)
  {
  }

  // ---------------------------------------------------------------- enums

  /** One more than the last position of t, or 0. */
  function Index(members: seq<Text>, t: Text): (r: nat)
    ensures r <= |members|
    ensures r == 0 <==> t !in members
    ensures r > 0 ==> members[r - 1] == t
  {
    if members == [] then 0
    else if members[|members| - 1] == t then |members|
    else Index(members[..|members| - 1], t)
  }

  function Indexes(members: seq<Text>, ts: seq<Text>): (r: seq<uint64>)
    requires |members| < U64
  {
    seq(|ts|, i requires 0 <= i < |ts| => Index(members, ts[i]))
  }

  /** The parts of t between occurrences of sep. */
  function Split(t: Text, sep: byte): (r: seq<Text>)
    ensures r != []
  {
    if t == [] then [[]]
    else
      var n := |t| - 1;
      var r := Split(t[..n], sep);
      if t[n] == sep then r + [[]] else r[..|r| - 1] + [r[|r| - 1] + [t[n]]]
  }

  // ---------------------------------------------------------------- values

  /** The value of a field. None is nil. */
  datatype Value =
    | RefV(ref: Option<uint64>) | UIntV(u: uint64) | IntV(i: int64) | BoolV(b: bool) | FloatV(f: uint64) | TimeV(t: int64)
    | StrV(s: Text) | UIntNullV(un: Option<uint64>) | IntNullV(n: Option<int64>) | EnumV(e: Text) | BytesV(bytes: Option<Text>)
    | SetV(set_: Option<seq<Text>>) | BoolNullV(bn: Option<bool>) | FloatNullV(fn: Option<uint64>) | TimeNullV(tn: Option<int64>)
    | JsonV(j: Option<Json>) | RefsManyV(refs: Option<seq<uint64>>)

  predicate SmallEnum(f: Field) {
    |f.members| < I64
  }

  /** A value a field of this kind can have. Sets hold registered members only. */
  predicate Fits(k: Kind, f: Field, v: Value) {
    match k
    case Ref => v.RefV?
    case UInt => v.UIntV?
    case Int => v.IntV?
    case Bool => v.BoolV?
    case Float => v.FloatV?
    case Time => v.TimeV?
    case Date => v.TimeV?
    case FakeDelete => v.BoolV?
    case Str => v.StrV? && |v.s| < I64
    case UIntNull => v.UIntNullV?
    case IntNull => v.IntNullV?
    case Enum => v.EnumV? && SmallEnum(f)
    case Bytes => v.BytesV? && (v.bytes.Some? ==> |v.bytes.value| < I64)
    case Set => v.SetV? && SmallEnum(f) && (v.set_.Some? ==> Registered(f, v.set_.value))
    case BoolNull => v.BoolNullV?
    case FloatNull => v.FloatNullV?
    case TimeNull => v.TimeNullV?
    case DateNull => v.TimeNullV?
    case Json => v.JsonV?
    case RefsMany => v.RefsManyV? && (v.refs.Some? ==> |v.refs.value| < I64)
  }

  predicate Registered(f: Field, ts: seq<Text>) {
    |ts| < I64 && forall i :: 0 <= i < |ts| ==> ts[i] in f.members
  }

  // ---------------------------------------------------------------- wires

  datatype Wire =
    | U(u: uint64) | I(i: int64) | B(b: bool) | S(s: Text) | L(us: seq<uint64>)
    | OU(ou: Option<uint64>) | OI(oi: Option<int64>) | OB(ob: Option<bool>)

  /** The wires a column of this kind can have. */
  predicate Shaped(k: Kind, w: Wire) {
    match k
    case Ref => w.U?
    case UInt => w.U?
    case Int => w.I?
    case Bool => w.B?
    case Float => w.U?
    case Time => w.I?
    case Date => w.I?
    case FakeDelete => w.B?
    case Str => w.S? && |w.s| < I64
    case UIntNull => w.OU?
    case IntNull => w.OI?
    case Enum => w.U?
    case Bytes => w.S? && |w.s| < I64
    case Set => w.L? && |w.us| < I64
    case BoolNull => w.OB?
    case FloatNull => w.OU?
    case TimeNull => w.OI?
    case DateNull => w.OI?
    case Json => w.S? && |w.s| < I64
    case RefsMany => w.L? && |w.us| < I64
  }

  /** The enum indexes are those of members, so that decoding does not index out of range. */
  predicate Decodable(k: Kind, f: Field, w: Wire) {
    && Shaped(k, w)
    && (k == Enum ==> w.u <= |f.members|)
    && (k == Set ==> forall i :: 0 <= i < |w.us| ==> 1 <= w.us[i] <= |f.members|)
  }

  function EncList(us: seq<uint64>): seq<byte> {
    if us == [] then [] else EncList(us[..|us| - 1]) + Uvarint(us[|us| - 1])
  }

  function EncWire(w: Wire): seq<byte> {
    match w
    case U(u) => Uvarint(u)
    case I(i) => Uvarint(Zigzag(i))
    case B(b) => BoolByte(b)
    case S(s) => Lengthed(s)
    case L(us) => Uvarint(|us|) + EncList(us)
    case OU(o) => if o.None? then BoolByte(false) else BoolByte(true) + Uvarint(o.value)
    case OI(o) => if o.None? then BoolByte(false) else BoolByte(true) + Uvarint(Zigzag(o.value))
    case OB(o) => if o.None? then BoolByte(false) else BoolByte(true) + BoolByte(o.value)
  }

  function EncWires(ws: seq<Wire>): seq<byte> {
    if ws == [] then [] else EncWires(ws[..|ws| - 1]) + EncWire(ws[|ws| - 1])
  }

  lemma {:induction false} EncWiresConcat(p: seq<Wire>, q: seq<Wire>)
    ensures EncWires(p + q) == EncWires(p) + EncWires(q)
  {
    if q == [] {
      assert p + q == p;
    } else {
      var n := |q| - 1;
      EncWiresConcat(p, q[..n]);
      assert (p + q)[..|p + q| - 1] == p + q[..n];
      Regroup(EncWires(p), EncWires(q[..n]), EncWire(q[n]));
    }
  }

  // ---------------------------------------------------------------- entity to wire and back

  /** What serializing writes for a field. */
  function ToWire(env: Env, k: Kind, f: Field, v: Value): Wire
    requires Fits(k, f, v)
  {
    match k
    case Ref => U(if v.ref.None? then 0 else v.ref.value)
    case UInt => U(v.u)
    case Int => I(v.i)
    case Bool => B(v.b)
    case Float => U(env.Round(v.f, f.precision))
    case Time => I(EncodedTime(v.t))
    case Date => I(EncodedTime(Midnight(env, v.t)))
    case FakeDelete => B(v.b)
    case Str => S(v.s)
    case UIntNull => OU(v.un)
    case IntNull => OI(v.n)
    case Enum => U(if v.e == [] then 0 else Index(f.members, v.e))
    case Bytes => S(if v.bytes.None? then [] else v.bytes.value)
    case Set => L(if v.set_.None? then [] else Indexes(f.members, v.set_.value))
    case BoolNull => OB(v.bn)
    case FloatNull => OU(if v.fn.None? then None else Some(env.Round(v.fn.value, f.precision)))
    case TimeNull => OI(if v.tn.None? then None else Some(EncodedTime(v.tn.value)))
    case DateNull => OI(if v.tn.None? then None else Some(EncodedTime(Midnight(env, v.tn.value))))
    case Json => S(if v.j.None? then [] else env.Marshal(v.j.value))
    case RefsMany => L(if v.refs.None? then [] else v.refs.value)
  }

  function Members(f: Field, us: seq<uint64>): seq<Text>
    requires forall i :: 0 <= i < |us| ==> 1 <= us[i] <= |f.members|
  {
    seq(|us|, i requires 0 <= i < |us| => f.members[us[i] - 1])
  }

  /** What deserializing puts into a field. */
  function FromWire(env: Env, k: Kind, f: Field, w: Wire): Value
    requires Decodable(k, f, w)
  {
    match k
    case Ref => RefV(if w.u > 0 then Some(w.u) else None)
    case UInt => UIntV(w.u)
    case Int => IntV(w.i)
    case Bool => BoolV(w.b)
    case Float => FloatV(w.u)
    case Time => TimeV(DecodedTime(w.i))
    case Date => TimeV(DecodedTime(w.i))
    case FakeDelete => BoolV(w.b)
    case Str => StrV(w.s)
    case UIntNull => UIntNullV(w.ou)
    case IntNull => IntNullV(w.oi)
    case Enum => EnumV(if w.u == 0 then [] else f.members[w.u - 1])
    case Bytes => BytesV(if w.s == [] then None else Some(w.s))
    case Set => SetV(if w.us == [] then None else Some(Members(f, w.us)))
    case BoolNull => BoolNullV(w.ob)
    case FloatNull => FloatNullV(w.ou)
    case TimeNull => TimeNullV(if w.oi.None? then None else Some(Wrap(w.oi.value - TIME_STAMP_SECONDS)))
    case DateNull => TimeNullV(if w.oi.None? then None else Some(Wrap(w.oi.value - TIME_STAMP_SECONDS)))
    case Json => JsonV(if w.s == [] then None else Some(env.Unmarshal(w.s)))
    case RefsMany => RefsManyV(if w.us == [] then None else Some(w.us))
  }

  function NonEmpty<T>(o: Option<seq<T>>): Option<seq<T>> {
    if o.Some? && o.value == [] then None else o
  }

  /** What is left of a value once it has been written and read back. */
  function Normal(env: Env, k: Kind, f: Field, v: Value): Value
    requires Fits(k, f, v)
  {
    match v
    case RefV(r) => if r == Some(0) then RefV(None) else v
    case FloatV(x) => FloatV(env.Round(x, f.precision))
    case TimeV(t) => TimeV(KeptTime(if k == Date then Midnight(env, t) else t))
    case EnumV(e) => if e in f.members then v else EnumV([])
    case BytesV(b) => BytesV(NonEmpty(b))
    case SetV(ts) => SetV(NonEmpty(ts))
    case FloatNullV(Some(x)) => FloatNullV(Some(env.Round(x, f.precision)))
    case TimeNullV(Some(t)) => TimeNullV(Some(KeptTime(if k == DateNull then Midnight(env, t) else t)))
    case RefsManyV(r) => RefsManyV(NonEmpty(r))
    case _ => v
  }

  lemma WireDecodable(env: Env, k: Kind, f: Field, v: Value)
    requires env.Valid() && Fits(k, f, v)
    ensures Decodable(k, f, ToWire(env, k, f, v))
  {
  }

  lemma MembersInverse(f: Field, ts: seq<Text>)
    requires SmallEnum(f) && Registered(f, ts)
    ensures forall i :: 0 <= i < |ts| ==> 1 <= Indexes(f.members, ts)[i] <= |f.members|
    ensures Members(f, Indexes(f.members, ts)) == ts
  {
  }

  lemma TimeRoundTrip(env: Env, k: Kind, f: Field, v: Value)
    requires InSeconds(k) && Fits(k, f, v)
    ensures FromWire(env, k, f, ToWire(env, k, f, v)) == Normal(env, k, f, v)
  {
    if k == Time {
      TimeInverse(v.t);
    } else if k == Date {
      TimeInverse(Midnight(env, v.t));
    } else if k == TimeNull && v.tn.Some? {
      TimeInverse(v.tn.value);
    } else if k == DateNull && v.tn.Some? {
      TimeInverse(Midnight(env, v.tn.value));
    }
  }

  lemma SetRoundTrip(env: Env, f: Field, v: Value)
    requires Fits(Set, f, v) && Decodable(Set, f, ToWire(env, Set, f, v))
    ensures FromWire(env, Set, f, ToWire(env, Set, f, v)) == Normal(env, Set, f, v)
  {
    if v.set_.Some? {
      MembersInverse(f, v.set_.value);
    }
  }

  lemma OtherRoundTrip(env: Env, k: Kind, f: Field, v: Value)
    requires env.Valid() && Fits(k, f, v) && k != Set && !InSeconds(k) && Decodable(k, f, ToWire(env, k, f, v))
    ensures FromWire(env, k, f, ToWire(env, k, f, v)) == Normal(env, k, f, v)
  {
  }

  /** Writing a field and reading it back leaves its normal form. */
  lemma WireRoundTrip(env: Env, k: Kind, f: Field, v: Value)
    requires env.Valid() && Fits(k, f, v)
    ensures Decodable(k, f, ToWire(env, k, f, v))
    ensures FromWire(env, k, f, ToWire(env, k, f, v)) == Normal(env, k, f, v)
  {
    WireDecodable(env, k, f, v);
    if k == Set {
      SetRoundTrip(env, f, v);
    } else if InSeconds(k) {
      TimeRoundTrip(env, k, f, v);
    } else {
      OtherRoundTrip(env, k, f, v);
    }
  }

  // ---------------------------------------------------------------- one encoding, one meaning

  lemma UvarintUnique(x: nat, y: nat, p: seq<byte>, q: seq<byte>)
    requires Uvarint(x) + p == Uvarint(y) + q
    ensures x == y && p == q
  {
    TakeUvarint(x, p);
    TakeUvarint(y, q);
  }

  lemma BoolUnique(x: bool, y: bool, p: seq<byte>, q: seq<byte>)
    requires BoolByte(x) + p == BoolByte(y) + q
    ensures x == y && p == q
  {
    TakeBool(x, p);
    TakeBool(y, q);
  }

  lemma {:induction false} ListUnique(us: seq<uint64>, vs: seq<uint64>, p: seq<byte>, q: seq<byte>)
    requires |us| == |vs| && EncList(us) + p == EncList(vs) + q
    ensures us == vs && p == q
  {
    if us != [] {
      var n := |us| - 1;
      assert EncList(us) + p == EncList(us[..n]) + (Uvarint(us[n]) + p);
      assert EncList(vs) + q == EncList(vs[..n]) + (Uvarint(vs[n]) + q);
      ListUnique(us[..n], vs[..n], Uvarint(us[n]) + p, Uvarint(vs[n]) + q);
      UvarintUnique(us[n], vs[n], p, q);
      assert us == us[..n] + [us[n]] && vs == vs[..n] + [vs[n]];
    } else {
      assert EncList(us) + p == p && EncList(vs) + q == q;
    }
  }

  lemma ListsUnique(us: seq<uint64>, vs: seq<uint64>, p: seq<byte>, q: seq<byte>)
    requires Uvarint(|us|) + EncList(us) + p == Uvarint(|vs|) + EncList(vs) + q
    ensures us == vs && p == q
  {
    Regroup(Uvarint(|us|), EncList(us), p);
    Regroup(Uvarint(|vs|), EncList(vs), q);
    UvarintUnique(|us|, |vs|, EncList(us) + p, EncList(vs) + q);
    ListUnique(us, vs, p, q);
  }

  lemma ZigzagUnique(x: int64, y: int64, p: seq<byte>, q: seq<byte>)
    requires Uvarint(Zigzag(x)) + p == Uvarint(Zigzag(y)) + q
    ensures x == y && p == q
  {
    UvarintUnique(Zigzag(x), Zigzag(y), p, q);
    ZigzagInverse(x);
    ZigzagInverse(y);
  }

  lemma TextUnique(x: Text, y: Text, p: seq<byte>, q: seq<byte>)
    requires Lengthed(x) + p == Lengthed(y) + q
    ensures x == y && p == q
  {
    TakeLengthed(x, p);
    TakeLengthed(y, q);
  }

  /** The presence byte, then the rest. */
  function Tail(w: Wire): seq<byte> {
    match w
    case OU(Some(u)) => Uvarint(u)
    case OI(Some(i)) => Uvarint(Zigzag(i))
    case OB(Some(b)) => BoolByte(b)
    case _ => []
  }

  predicate Optional(w: Wire) {
    w.OU? || w.OI? || w.OB?
  }

  predicate Present(w: Wire)
    requires Optional(w)
  {
    match w
    case OU(o) => o.Some?
    case OI(o) => o.Some?
    case OB(o) => o.Some?
    case _ => false
  }

  lemma OptionalSplit(w: Wire, p: seq<byte>)
    requires Optional(w)
    ensures EncWire(w) + p == BoolByte(Present(w)) + (Tail(w) + p)
  {
  }

  predicate SameShape(w: Wire, x: Wire) {
    match w
    case U(_) => x.U?
    case I(_) => x.I?
    case B(_) => x.B?
    case S(_) => x.S?
    case L(_) => x.L?
    case OU(_) => x.OU?
    case OI(_) => x.OI?
    case OB(_) => x.OB?
  }

  lemma OptionalUnique(w: Wire, x: Wire, p: seq<byte>, q: seq<byte>)
    requires Optional(w) && SameShape(w, x) && EncWire(w) + p == EncWire(x) + q
    ensures w == x && p == q
  {
    OptionalSplit(w, p);
    OptionalSplit(x, q);
    BoolUnique(Present(w), Present(x), Tail(w) + p, Tail(x) + q);
    if !Present(w) {
      assert Tail(w) + p == p && Tail(x) + q == q;
    } else if w.OU? {
      UvarintUnique(w.ou.value, x.ou.value, p, q);
    } else if w.OI? {
      ZigzagUnique(w.oi.value, x.oi.value, p, q);
    } else {
      BoolUnique(w.ob.value, x.ob.value, p, q);
    }
  }

  lemma WireUnique(w: Wire, x: Wire, p: seq<byte>, q: seq<byte>)
    requires SameShape(w, x) && EncWire(w) + p == EncWire(x) + q
    ensures w == x && p == q
  {
    match w
    case U(_) => UvarintUnique(w.u, x.u, p, q);
    case I(_) => ZigzagUnique(w.i, x.i, p, q);
    case B(_) => BoolUnique(w.b, x.b, p, q);
    case S(_) => TextUnique(w.s, x.s, p, q);
    case L(_) => ListsUnique(w.us, x.us, p, q);
    case OU(_) => OptionalUnique(w, x, p, q);
    case OI(_) => OptionalUnique(w, x, p, q);
    case OB(_) => OptionalUnique(w, x, p, q);
  }

  /** Bytes that start with the encoding of a record of some shape start with no other, and what follows it is fixed. */
  lemma {:induction false} WiresUnique(ws: seq<Wire>, xs: seq<Wire>, p: seq<byte>, q: seq<byte>)
    requires |ws| == |xs| && forall i :: 0 <= i < |ws| ==> SameShape(ws[i], xs[i])
    requires EncWires(ws) + p == EncWires(xs) + q
    ensures ws == xs && p == q
  {
    hide SameShape, EncWire;
    if ws != [] {
      var n := |ws| - 1;
      Regroup(EncWires(ws[..n]), EncWire(ws[n]), p);
      Regroup(EncWires(xs[..n]), EncWire(xs[n]), q);
      WiresUnique(ws[..n], xs[..n], EncWire(ws[n]) + p, EncWire(xs[n]) + q);
      WireUnique(ws[n], xs[n], p, q);
      assert ws == ws[..n] + [ws[n]] && xs == xs[..n] + [xs[n]];
    } else {
      assert EncWires(ws) + p == p && EncWires(xs) + q == q;
    }
  }

  // ---------------------------------------------------------------- row to wire

  /** A scanned column. None is NULL. */
  datatype Cell =
    | UIntCell(u: uint64) | IntCell(i: int64) | BoolCell(b: bool) | FloatCell(f: uint64)
    | NullIntCell(n: Option<int64>) | NullStringCell(s: Option<Text>) | NullBoolCell(bn: Option<bool>) | NullFloatCell(fn: Option<uint64>)

  /** The cell was scanned through this pointer. */
  predicate ScannedBy(p: Pointer, c: Cell) {
    match p
    case UIntPointer => c.UIntCell?
    case IntPointer => c.IntCell?
    case BoolPointer => c.BoolCell?
    case FloatPointer => c.FloatCell?
    case NullIntPointer => c.NullIntCell?
    case NullStringPointer => c.NullStringCell? && (c.s.Some? ==> |c.s.value| < I64 - 1)
    case NullBoolPointer => c.NullBoolCell?
    case NullFloatPointer => c.NullFloatCell?
  }

  function TextOf(o: Option<Text>): Text {
    if o.None? then [] else o.value
  }

  /** MySQL's seconds, less the zone's offset unless they are too small. */
  function RowTime(env: Env, unix: int64): int64 {
    if Wrap(unix - TIME_STAMP_SECONDS) > env.timeOffset then Wrap(unix - env.timeOffset) else unix
  }

  function RowTimeNull(env: Env, unix: int64): int64 {
    if unix > env.timeOffset then Wrap(unix - env.timeOffset) else unix
  }

  const COMMA: byte := 44

  function Pieces(o: Option<Text>): seq<Text> {
    if o.Some? && o.value != [] then Split(o.value, COMMA) else []
  }

  /** What a scanned column is written as. */
  function FromRow(env: Env, k: Kind, f: Field, c: Cell): Wire
    requires ScannedBy(PointerOf(k), c) && SmallEnum(f)
  {
    match k
    case Ref => U(if c.n.None? then 0 else ToU64(c.n.value))
    case UInt => U(c.u)
    case Int => I(c.i)
    case Bool => B(c.b)
    case Float => U(c.f)
    case Time => I(RowTime(env, c.i))
    case Date => I(RowTime(env, c.i))
    case FakeDelete => B(c.u > 0)
    case Str => S(TextOf(c.s))
    case UIntNull => OU(if c.n.None? then None else Some(ToU64(c.n.value)))
    case IntNull => OI(c.n)
    case Enum => U(if c.s.None? then 0 else Index(f.members, c.s.value))
    case Bytes => S(TextOf(c.s))
    case Set => L(Indexes(f.members, Pieces(c.s)))
    case BoolNull => OB(c.bn)
    case FloatNull => OU(c.fn)
    case TimeNull => OI(if c.n.None? then None else Some(RowTimeNull(env, c.n.value)))
    case DateNull => OI(if c.n.None? then None else Some(RowTimeNull(env, c.n.value)))
    case Json => S(TextOf(c.s))
    case RefsMany => L(if c.s.None? then [] else env.ParseIds(c.s.value))
  }
}
