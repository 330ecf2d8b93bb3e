/** Comparing one column of the old record with the entity's new value: what goes into bind and current, and when nothing does. */
module DirtyValues {
  import opened Wrappers
  import opened SerializerBuffer
  import opened RecordSchema
  import opened RecordCodec

  /** The content of a column. A set is its members in order, a time its seconds, a date its day. */
  datatype Column =
    | Null | UIntC(u: uint64) | IntC(i: int64) | BoolC(b: bool) | FloatC(f: uint64) | TextC(t: Text)
    | TimeC(at: int64) | DateC(day: int) | SetC(ts: seq<Text>) | IdsC(ids: seq<uint64>)

  const ANCIENT: int64 := -30610224000

  /** The start of the year 1000. */
  lemma AncientTime()
    ensures ANCIENT == 86400 * (DaysTo(1000) - DaysTo(1970))
  {
  }

  predicate IsZero(t: int64) {
    t == ZERO_TIME || t == ANCIENT
  }

  function Day(env: Env, t: int64): int {
    (t + env.zone) / 86400
  }

  /** How an empty text, set or list is stored. */
  function Empty(f: Field): Column {
    if f.required then TextC([]) else Null
  }

  function List<T>(o: Option<seq<T>>): seq<T> {
    if o.None? then [] else o.value
  }

  /** The column a value is saved as. An empty enum that is required gets its default when the row is new. */
  function Saved(env: Env, k: Kind, f: Field, id: uint64, inDB: bool, v: Value): Column
    requires Fits(k, f, v)
  {
    match k
    case Ref => if v.ref.None? || v.ref.value == 0 then Null else UIntC(v.ref.value)
    case UInt => UIntC(v.u)
    case Int => IntC(v.i)
    case Bool => BoolC(v.b)
    case Float => FloatC(v.f)
    case Time => TimeC(v.t)
    case Date => DateC(Day(env, v.t))
    case FakeDelete => UIntC(if v.b then id else 0)
    case Str => if v.s == [] then Empty(f) else TextC(v.s)
    case UIntNull => if v.un.None? then Null else UIntC(v.un.value)
    case IntNull => if v.n.None? then Null else IntC(v.n.value)
    case Enum => if v.e != [] then TextC(v.e) else if f.required && !inDB then TextC(f.defaultMember) else Null
    case Bytes => if List(v.bytes) == [] then Null else TextC(List(v.bytes))
    case Set => if List(v.set_) == [] then Empty(f) else SetC(List(v.set_))
    case BoolNull => if v.bn.None? then Null else BoolC(v.bn.value)
    case FloatNull => if v.fn.None? then Null else FloatC(v.fn.value)
    case TimeNull => if v.tn.None? then Null else TimeC(v.tn.value)
    case DateNull => if v.tn.None? then Null else DateC(Day(env, v.tn.value))
    case Json => if v.j.None? then Empty(f) else TextC(env.Marshal(v.j.value))
    case RefsMany => if List(v.refs) == [] then Empty(f) else IdsC(List(v.refs))
  }

  /** NULL is saved exactly for what is not there or empty, and never for what is required. */
  lemma NullExact(env: Env, k: Kind, f: Field, id: uint64, inDB: bool, v: Value)
    requires Fits(k, f, v) && !Panics(k, f, inDB, v)
    ensures Saved(env, k, f, id, inDB, v) == Null <==>
      match v
      case RefV(r) => r in {None, Some(0)}
      case StrV(s) => s == [] && !f.required
      case UIntNullV(n) => n.None?
      case IntNullV(n) => n.None?
      case EnumV(e) => e == [] && !f.required
      case BytesV(b) => b in {None, Some([])}
      case SetV(ts) => ts in {None, Some([])} && !f.required
      case BoolNullV(b) => b.None?
      case FloatNullV(x) => x.None?
      case TimeNullV(t) => t.None?
      case JsonV(j) => j.None? && !f.required
      case RefsManyV(r) => r in {None, Some([])} && !f.required
      case _ => false
  {
  }

  /** Saving an enum that is not registered, or emptying a required one in an existing row, panics. */
  predicate Panics(k: Kind, f: Field, inDB: bool, v: Value)
    requires Fits(k, f, v)
  {
    k == Enum && (if v.e != [] then v.e !in f.members else f.required && inDB)
  }

  /** Closer than one unit in the last decimal place kept. */
  predicate Within(x: real, y: real, p: nat) {
    var d := x - y;
    (if d < 0.0 then -d else d) < 1.0 / Pow10(p)
  }

  predicate Near(env: Env, f: Field, x: uint64, y: uint64) {
    Within(env.Number(x), env.Number(y), f.precision)
  }

  function OldTime(i: int64): int64 {
    if i == ZERO_DATE_SECONDS then 0 else Wrap(i - TIME_STAMP_SECONDS)
  }

  /** Nothing to save: the new value counts as the old one. */
  predicate Same(env: Env, k: Kind, f: Field, w: Wire, v: Value)
    requires Fits(k, f, v) && Shaped(k, w)
  {
    match k
    case Ref => w.u == if v.ref.None? then 0 else v.ref.value
    case UInt => w.u == v.u
    case Int => w.i == v.i
    case Bool => w.b == v.b
    case Float => Near(env, f, v.f, w.u)
    case Time => (OldTime(w.i) == 0 && IsZero(v.t)) || OldTime(w.i) == v.t
    case Date => (OldTime(w.i) == 0 && IsZero(v.t)) || OldTime(w.i) == Midnight(env, v.t)
    case FakeDelete => w.b == v.b
    case Str => w.s == v.s
    case UIntNull => w.ou == v.un
    case IntNull => w.oi == v.n
    case Enum => w.u == Index(f.members, v.e)
    case Bytes => w.s == List(v.bytes)
    case Set => |w.us| == |List(v.set_)| && AllIndexed(f.members, List(v.set_), w.us)
    case BoolNull => w.ob == v.bn
    case FloatNull =>
      (w.ou.None? && v.fn.None?) || (w.ou.Some? && v.fn.Some? && Near(env, f, v.fn.value, w.ou.value))
    case TimeNull =>
      (w.oi.None? && v.tn.None?) || (w.oi.Some? && v.tn.Some? && Wrap(w.oi.value - TIME_STAMP_SECONDS) == v.tn.value)
    case DateNull =>
      || (w.oi.None? && v.tn.None?)
      || (w.oi.Some? && v.tn.Some? && Wrap(w.oi.value - TIME_STAMP_SECONDS) == Midnight(env, v.tn.value))
    case Json =>
      if w.s == [] then v.j.None?
      else env.Unmarshal(w.s) == if v.j.None? then env.nullJson else v.j.value
    case RefsMany => w.us == List(v.refs)
  }

  predicate AllIndexed(members: seq<Text>, ts: seq<Text>, us: seq<uint64>) {
    forall j :: 0 <= j < |ts| ==> Index(members, ts[j]) in us
  }

  /** The column the old record stands for. */
  function OldColumn(env: Env, k: Kind, f: Field, id: uint64, w: Wire): Column
    requires Decodable(k, f, w)
  {
    match k
    case Ref => if w.u == 0 then Null else UIntC(w.u)
    case UInt => UIntC(w.u)
    case Int => IntC(w.i)
    case Bool => BoolC(w.b)
    case Float => FloatC(w.u)
    case Time => TimeC(DecodedTime(w.i))
    case Date => DateC(Day(env, DecodedTime(w.i)))
    case FakeDelete => UIntC(if w.b then id else 0)
    case Str => if w.s == [] then Empty(f) else TextC(w.s)
    case UIntNull => if w.ou.None? then Null else UIntC(w.ou.value)
    case IntNull => if w.oi.None? then Null else IntC(w.oi.value)
    case Enum => if w.u == 0 then Null else TextC(f.members[w.u - 1])
    case Bytes => if w.s == [] then Null else TextC(w.s)
    case Set => if w.us == [] then Empty(f) else SetC(Members(f, w.us))
    case BoolNull => if w.ob.None? then Null else BoolC(w.ob.value)
    case FloatNull => if w.ou.None? then Null else FloatC(w.ou.value)
    case TimeNull => if w.oi.None? then Null else TimeC(Wrap(w.oi.value - TIME_STAMP_SECONDS))
    case DateNull => if w.oi.None? then Null else DateC(Day(env, Wrap(w.oi.value - TIME_STAMP_SECONDS)))
    case Json => if w.s == [] then Empty(f) else TextC(w.s)
    case RefsMany => if w.us == [] then Empty(f) else IdsC(w.us)
  }

  /** What is recorded as the column's current content; nothing for a list of references that was cleared. */
  function Current(env: Env, k: Kind, f: Field, id: uint64, w: Wire, v: Value): Option<Column>
    requires Fits(k, f, v) && Decodable(k, f, w)
  {
    match k
    case Time => Some(TimeC(OldTime(w.i)))
    case Date => Some(DateC(Day(env, OldTime(w.i))))
    case Bytes => Some(if w.s == [] then Null else TextC(List(v.bytes)))
    case Set =>
      if |List(v.set_)| == |w.us| && w.us != [] then Some(SetC(Members(f, w.us))) else Some(Empty(f))
    case RefsMany =>
      if w.us == [] then Some(Empty(f))
      else if List(v.refs) != [] then Some(IdsC(w.us))
      else None
    case _ => Some(OldColumn(env, k, f, id, w))
  }

  // ---------------------------------------------------------------- what current is worth

  /** When the recorded content is really what the column held. */
  predicate CurrentIsOld(env: Env, k: Kind, f: Field, w: Wire, v: Value)
    requires Fits(k, f, v) && Shaped(k, w)
  {
    match k
    case Time => w.i != ZERO_DATE_SECONDS
    case Date => w.i != ZERO_DATE_SECONDS || Day(env, ZERO_TIME) == Day(env, 0)
    case Bytes => w.s == [] || w.s == List(v.bytes)
    case Set => w.us == [] || |w.us| == |List(v.set_)|
    case RefsMany => w.us == [] || List(v.refs) != []
    case _ => true
  }

  /**
   * Zero times are recorded as 1970, bytes as the new value, sets of another size as empty, and cleared references not
   * at all; everything else is recorded as it was.
   */
  lemma CurrentExact(env: Env, k: Kind, f: Field, id: uint64, w: Wire, v: Value)
    requires Fits(k, f, v) && Decodable(k, f, w)
    ensures Current(env, k, f, id, w, v) == Some(OldColumn(env, k, f, id, w)) <==> CurrentIsOld(env, k, f, w, v)
  {
  }

  // ---------------------------------------------------------------- what an unchanged column is worth

  predicate ZeroLike(t: int64) {
    t == 0 || IsZero(t)
  }

  predicate ZeroDay(env: Env, day: int) {
    day in {Day(env, 0), Day(env, ZERO_TIME), Day(env, ANCIENT)}
  }

  function JsonOf(env: Env, c: Column): Json {
    if c.TextC? && c.t != [] then env.Unmarshal(c.t) else env.nullJson
  }

  /** Columns that are equal, or differ only in what the comparison tolerates. */
  predicate Tolerated(env: Env, k: Kind, f: Field, was: Column, now: Column) {
    || was == now
    || (was.FloatC? && now.FloatC? && Near(env, f, now.f, was.f))
    || (was.SetC? && now.SetC? && |was.ts| == |now.ts| && forall j :: 0 <= j < |now.ts| ==> now.ts[j] in was.ts)
    || (k == Time && was.TimeC? && now.TimeC? && was.at in {0, ZERO_TIME} && ZeroLike(now.at))
    || (k == Date && was.DateC? && now.DateC? && ZeroDay(env, was.day) && ZeroDay(env, now.day))
    || (k == Json && was.TextC? && was.t != [] && env.Unmarshal(was.t) == JsonOf(env, now))
  }

  /** The time's midnight fits in 64 bits. */
  predicate HasMidnight(env: Env, t: int64) {
    -I64 <= t - (t + env.zone) % 86400
  }

  predicate Sane(env: Env, k: Kind, f: Field, v: Value)
    requires Fits(k, f, v)
  {
    && (k == Date ==> HasMidnight(env, v.t))
    && (k == DateNull && v.tn.Some? ==> HasMidnight(env, v.tn.value))
    && (k == Enum ==> (v.e in f.members <==> v.e != []))
  }

  lemma MidnightDay(env: Env, t: int64)
    requires HasMidnight(env, t)
    ensures Midnight(env, t) == t - (t + env.zone) % 86400
    ensures Day(env, Midnight(env, t)) == Day(env, t)
  {
    var m := t - (t + env.zone) % 86400;
    assert m + env.zone == 86400 * Day(env, t);
  }

  lemma SetTolerated(f: Field, ts: seq<Text>, us: seq<uint64>)
    requires |f.members| < I64 && forall i :: 0 <= i < |us| ==> 1 <= us[i] <= |f.members|
    requires AllIndexed(f.members, ts, us)
    ensures forall j :: 0 <= j < |ts| ==> ts[j] in Members(f, us)
  {
    forall j | 0 <= j < |ts| ensures ts[j] in Members(f, us) {
      var i :| 0 <= i < |us| && us[i] == Index(f.members, ts[j]);
      assert Members(f, us)[i] == ts[j];
    }
  }

  /** A column that is not saved again holds the new value already, up to that tolerance. */
  lemma SameTolerated(env: Env, k: Kind, f: Field, id: uint64, w: Wire, v: Value)
    requires env.Valid() && Fits(k, f, v) && Sane(env, k, f, v) && Decodable(k, f, w)
    requires Same(env, k, f, w, v)
    ensures Tolerated(env, k, f, OldColumn(env, k, f, id, w), Saved(env, k, f, id, true, v))
  {
    if k == Set {
      SetTolerated(f, List(v.set_), w.us);
    } else if InSeconds(k) {
      SameTimeTolerated(env, k, f, id, w, v);
    } else {
      SameOtherTolerated(env, k, f, id, w, v);
    }
  }

  lemma SameTimeTolerated(env: Env, k: Kind, f: Field, id: uint64, w: Wire, v: Value)
    requires InSeconds(k) && Fits(k, f, v) && Sane(env, k, f, v) && Decodable(k, f, w)
    requires Same(env, k, f, w, v)
    ensures Tolerated(env, k, f, OldColumn(env, k, f, id, w), Saved(env, k, f, id, true, v))
  {
    if k == Date {
      MidnightDay(env, v.t);
    } else if k == DateNull && v.tn.Some? {
      MidnightDay(env, v.tn.value);
    }
  }

  lemma SameOtherTolerated(env: Env, k: Kind, f: Field, id: uint64, w: Wire, v: Value)
    requires k != Set && !InSeconds(k)
    requires env.Valid() && Fits(k, f, v) && Sane(env, k, f, v) && Decodable(k, f, w)
    requires Same(env, k, f, w, v)
    ensures Tolerated(env, k, f, OldColumn(env, k, f, id, w), Saved(env, k, f, id, true, v))
  {
  }

  /** The old record is one the program itself wrote: dates at midnight, indexes as Index gives them. */
  predicate Canonical(env: Env, k: Kind, f: Field, w: Wire)
    requires Decodable(k, f, w)
  {
    match k
    case Date => w.i == ZERO_DATE_SECONDS || Midnight(env, DecodedTime(w.i)) == DecodedTime(w.i)
    case DateNull => w.oi.None? || (var t := Wrap(w.oi.value - TIME_STAMP_SECONDS); Midnight(env, t) == t)
    case Enum => w.u > 0 ==> CanonicalIndex(f.members, w.u)
    case Set => forall i :: 0 <= i < |w.us| ==> CanonicalIndex(f.members, w.us[i])
    case _ => true
  }

  predicate CanonicalIndex(members: seq<Text>, u: uint64) {
    1 <= u <= |members| && Index(members, members[u - 1]) == u
  }

  /** What the program writes is such a record. */
  lemma WrittenCanonical(env: Env, k: Kind, f: Field, v: Value)
    requires env.Valid() && Fits(k, f, v) && Sane(env, k, f, v) && Decodable(k, f, ToWire(env, k, f, v))
    requires k == DateNull && v.tn.Some? ==> Midnight(env, v.tn.value) > 0
    ensures Canonical(env, k, f, ToWire(env, k, f, v))
  {
    if k == Date {
      hide Index;
      MidnightTwice(env, v.t);
      TimeInverse(Midnight(env, v.t));
    } else if k == DateNull {
      hide Index;
      if v.tn.Some? {
        MidnightTwice(env, v.tn.value);
        TimeInverse(Midnight(env, v.tn.value));
      }
    } else {
      hide Midnight;
    }
  }

  lemma MidnightTwice(env: Env, t: int64)
    requires HasMidnight(env, t)
    ensures HasMidnight(env, Midnight(env, t)) && Midnight(env, Midnight(env, t)) == Midnight(env, t)
  {
    MidnightDay(env, t);
    var m := Midnight(env, t);
    assert m + env.zone == 86400 * Day(env, t);
    assert (m + env.zone) % 86400 == 0;
  }

  /** A date without a time yet counts as unchanged by the new time itself, any other date by its day. */
  predicate SameDate(env: Env, f: Field, id: uint64, w: Wire, v: Value)
    requires Fits(Date, f, v) && Decodable(Date, f, w)
  {
    if OldTime(w.i) == 0 then IsZero(v.t) || Midnight(env, v.t) == 0
    else OldColumn(env, Date, f, id, w) == Saved(env, Date, f, id, true, v)
  }

  /**
   * A column of a record the program wrote is not saved again exactly when the old and the new column differ in
   * nothing but what is tolerated.
   */
  lemma SameExact(env: Env, k: Kind, f: Field, id: uint64, w: Wire, v: Value)
    requires env.Valid() && Fits(k, f, v) && Sane(env, k, f, v) && Decodable(k, f, w) && Canonical(env, k, f, w)
    requires k == FakeDelete ==> id != 0
    ensures Same(env, k, f, w, v)
       <==> if k == Date then SameDate(env, f, id, w, v)
            else Tolerated(env, k, f, OldColumn(env, k, f, id, w), Saved(env, k, f, id, true, v))
  {
    hide Tolerated, Saved, OldColumn, Same, SameDate, Canonical, Sane, Fits;
    if k == Date {
      DateExact(env, f, id, w, v);
    } else {
      if Same(env, k, f, w, v) {
        SameTolerated(env, k, f, id, w, v);
      }
      if Tolerated(env, k, f, OldColumn(env, k, f, id, w), Saved(env, k, f, id, true, v)) {
        ToleratedSame(env, k, f, id, w, v);
      }
    }
  }

  lemma DateExact(env: Env, f: Field, id: uint64, w: Wire, v: Value)
    requires Fits(Date, f, v) && Sane(env, Date, f, v) && Decodable(Date, f, w) && Canonical(env, Date, f, w)
    ensures Same(env, Date, f, w, v) <==> SameDate(env, f, id, w, v)
  {
    if OldTime(w.i) != 0 {
      MidnightDay(env, v.t);
      if Day(env, DecodedTime(w.i)) == Day(env, v.t) {
        SameDay(env, DecodedTime(w.i), v.t);
      }
    }
  }

  lemma ToleratedSame(env: Env, k: Kind, f: Field, id: uint64, w: Wire, v: Value)
    requires k != Date && env.Valid() && Fits(k, f, v) && Sane(env, k, f, v) && Decodable(k, f, w) && Canonical(env, k, f, w)
    requires k == FakeDelete ==> id != 0
    requires Tolerated(env, k, f, OldColumn(env, k, f, id, w), Saved(env, k, f, id, true, v))
    ensures Same(env, k, f, w, v)
  {
    if k == Set {
      ToleratedSetSame(env, f, id, w, v);
    } else if InSeconds(k) {
      ToleratedTimeSame(env, k, f, id, w, v);
    } else if k.UIntNull? || k.IntNull? || k.BoolNull? || k.FloatNull? {
      ToleratedOptionalSame(env, k, f, id, w, v);
    } else {
      ToleratedPlainSame(env, k, f, id, w, v);
    }
  }

  lemma MembersIndexed(f: Field, ts: seq<Text>, us: seq<uint64>)
    requires forall i :: 0 <= i < |us| ==> 1 <= us[i] <= |f.members| && CanonicalIndex(f.members, us[i])
    requires forall j :: 0 <= j < |ts| ==> ts[j] in Members(f, us)
    ensures AllIndexed(f.members, ts, us)
  {
    hide Index;
    forall j | 0 <= j < |ts| ensures Index(f.members, ts[j]) in us {
      var i :| 0 <= i < |us| && Members(f, us)[i] == ts[j];
      assert CanonicalIndex(f.members, us[i]);
    }
  }

  lemma ToleratedSetSame(env: Env, f: Field, id: uint64, w: Wire, v: Value)
    requires Fits(Set, f, v) && Decodable(Set, f, w) && Canonical(env, Set, f, w)
    requires Tolerated(env, Set, f, OldColumn(env, Set, f, id, w), Saved(env, Set, f, id, true, v))
    ensures Same(env, Set, f, w, v)
  {
    hide Index, CanonicalIndex, AllIndexed, Registered, Near;
    var ts := List(v.set_);
    assert |w.us| == |ts| && forall j :: 0 <= j < |ts| ==> ts[j] in Members(f, w.us);
    MembersIndexed(f, ts, w.us);
  }

  lemma ToleratedTimeSame(env: Env, k: Kind, f: Field, id: uint64, w: Wire, v: Value)
    requires InSeconds(k) && k != Date
    requires Fits(k, f, v) && Sane(env, k, f, v) && Decodable(k, f, w) && Canonical(env, k, f, w)
    requires Tolerated(env, k, f, OldColumn(env, k, f, id, w), Saved(env, k, f, id, true, v))
    ensures Same(env, k, f, w, v)
  {
    if k == DateNull && v.tn.Some? {
      SameDay(env, Wrap(w.oi.value - TIME_STAMP_SECONDS), v.tn.value);
    }
  }

  lemma ToleratedOptionalSame(env: Env, k: Kind, f: Field, id: uint64, w: Wire, v: Value)
    requires k.UIntNull? || k.IntNull? || k.BoolNull? || k.FloatNull?
    requires env.Valid() && Fits(k, f, v) && Decodable(k, f, w)
    requires Tolerated(env, k, f, OldColumn(env, k, f, id, w), Saved(env, k, f, id, true, v))
    ensures Same(env, k, f, w, v)
  {
    hide Index, Members, Midnight, Day, Within;
    NearSelf(env, f, if k == FloatNull && v.fn.Some? then v.fn.value else 0);
  }

  lemma NearSelf(env: Env, f: Field, x: uint64)
    ensures Near(env, f, x, x)
  {
    var p := Pow10(f.precision);
    assert 1.0 / p * p == 1.0;
  }

  lemma ToleratedPlainSame(env: Env, k: Kind, f: Field, id: uint64, w: Wire, v: Value)
    requires k != Set && !InSeconds(k) && !k.UIntNull? && !k.IntNull? && !k.BoolNull? && !k.FloatNull?
    requires env.Valid() && Fits(k, f, v) && Sane(env, k, f, v) && Decodable(k, f, w) && Canonical(env, k, f, w)
    requires k == FakeDelete ==> id != 0
    requires Tolerated(env, k, f, OldColumn(env, k, f, id, w), Saved(env, k, f, id, true, v))
    ensures Same(env, k, f, w, v)
  {
    hide Members, Midnight, Day, Within;
    NearSelf(env, f, if k == Float then v.f else 0);
  }

  lemma SameDay(env: Env, t: int64, u: int64)
    requires HasMidnight(env, t) && HasMidnight(env, u) && Day(env, t) == Day(env, u)
    ensures Midnight(env, t) == Midnight(env, u)
  {
  }

  // ---------------------------------------------------------------- the comparison as one of values

  /** The numbers are less than one unit of the last decimal place apart. */
  predicate SameDigits(x: real, y: real, decimals: nat) {
    -1.0 < x * Pow10(decimals) - y * Pow10(decimals) < 1.0
  }

  /** When a field counts as unchanged: old is what its record gives, v what it holds now. */
  predicate Unaltered(env: Env, k: Kind, f: Field, old': Value, v: Value)
    requires Fits(k, f, v) && Fits(k, f, old')
  {
    match k
    case Float => SameDigits(env.Number(v.f), env.Number(old'.f), f.precision)
    case FloatNull =>
      if v.fn.None? || old'.fn.None? then v.fn == old'.fn
      else SameDigits(env.Number(v.fn.value), env.Number(old'.fn.value), f.precision)
    case Time => v.t == old'.t || (old'.t in {0, ZERO_TIME} && v.t in {0, ZERO_TIME, ANCIENT})
    case Date =>
      if old'.t in {0, ZERO_TIME} then v.t in {ZERO_TIME, ANCIENT} || Midnight(env, v.t) == 0
      else Midnight(env, v.t) == old'.t
    case TimeNull => v.tn == old'.tn
    case DateNull => (if v.tn.Some? then Some(Midnight(env, v.tn.value)) else None) == old'.tn
    case Set => |List(v.set_)| == |List(old'.set_)| && forall i :: 0 <= i < |List(v.set_)| ==> List(v.set_)[i] in List(old'.set_)
    case Json => v.j == old'.j || (v.j.None? && old'.j == Some(env.nullJson))
    case _ => Normal(env, k, f, v) == old'
  }

  /** The bytes are compared as the values they stand for would be. */
  lemma ComparesValues(env: Env, k: Kind, f: Field, w: Wire, v: Value)
    requires env.Valid() && Fits(k, f, v) && Sane(env, k, f, v) && Decodable(k, f, w) && Canonical(env, k, f, w)
    requires Fits(k, f, FromWire(env, k, f, w))
    ensures Same(env, k, f, w, v) <==> Unaltered(env, k, f, FromWire(env, k, f, w), v)
  {
    hide Same, Unaltered, FromWire, Canonical, Sane, Fits;
    match k
    case Float => ComparesFloats(env, k, f, w, v);
    case FloatNull => ComparesFloats(env, k, f, w, v);
    case Set => ComparesSets(env, f, w, v);
    case Json => ComparesJson(env, f, w, v);
    case Enum => ComparesEnums(env, f, w, v);
    case _ =>
      if InSeconds(k) {
        ComparesTimes(env, k, f, w, v);
      } else {
        ComparesOthers(env, k, f, w, v);
      }
  }

  lemma ComparesFloats(env: Env, k: Kind, f: Field, w: Wire, v: Value)
    requires (k == Float || k == FloatNull) && Fits(k, f, v) && Decodable(k, f, w) && Fits(k, f, FromWire(env, k, f, w))
    ensures Same(env, k, f, w, v) <==> Unaltered(env, k, f, FromWire(env, k, f, w), v)
  {
    hide Within, SameDigits;
    if k == Float {
      WithinDigits(env.Number(v.f), env.Number(w.u), f.precision);
    } else if v.fn.Some? && w.ou.Some? {
      WithinDigits(env.Number(v.fn.value), env.Number(w.ou.value), f.precision);
    }
  }

  lemma WithinDigits(x: real, y: real, p: nat)
    ensures Within(x, y, p) <==> SameDigits(x, y, p)
  {
    hide Pow10;
    var d, q := x - y, Pow10(p);
    var u := 1.0 / q;
    assert u * q == 1.0;
    assert x * q - y * q == d * q;
    Below(d, u, q);
    Below(-d, u, q);
  }

  lemma Below(d: real, u: real, q: real)
    requires q > 0.0
    ensures d < u <==> d * q < u * q
  {
  }

  lemma ComparesSets(env: Env, f: Field, w: Wire, v: Value)
    requires Fits(Set, f, v) && Decodable(Set, f, w) && Canonical(env, Set, f, w) && Fits(Set, f, FromWire(env, Set, f, w))
    ensures Same(env, Set, f, w, v) <==> Unaltered(env, Set, f, FromWire(env, Set, f, w), v)
  {
    hide Index, CanonicalIndex, AllIndexed, Registered;
    var ts := List(v.set_);
    if AllIndexed(f.members, ts, w.us) {
      SetTolerated(f, ts, w.us);
    }
    if forall j :: 0 <= j < |ts| ==> ts[j] in Members(f, w.us) {
      MembersIndexed(f, ts, w.us);
    }
  }

  lemma ComparesTimes(env: Env, k: Kind, f: Field, w: Wire, v: Value)
    requires InSeconds(k) && Fits(k, f, v) && Decodable(k, f, w) && Fits(k, f, FromWire(env, k, f, w))
    ensures Same(env, k, f, w, v) <==> Unaltered(env, k, f, FromWire(env, k, f, w), v)
  {
    hide Midnight;
  }

  lemma ComparesJson(env: Env, f: Field, w: Wire, v: Value)
    requires env.Valid() && Fits(Json, f, v) && Decodable(Json, f, w) && Fits(Json, f, FromWire(env, Json, f, w))
    ensures Same(env, Json, f, w, v) <==> Unaltered(env, Json, f, FromWire(env, Json, f, w), v)
  {
  }

  lemma ComparesEnums(env: Env, f: Field, w: Wire, v: Value)
    requires Fits(Enum, f, v) && Sane(env, Enum, f, v) && Decodable(Enum, f, w) && Canonical(env, Enum, f, w)
    requires Fits(Enum, f, FromWire(env, Enum, f, w))
    ensures Same(env, Enum, f, w, v) <==> Unaltered(env, Enum, f, FromWire(env, Enum, f, w), v)
  {
  }

  lemma ComparesOthers(env: Env, k: Kind, f: Field, w: Wire, v: Value)
    requires !InSeconds(k) && k != Set && k != Float && k != FloatNull && k != Json && k != Enum
    requires env.Valid() && Fits(k, f, v) && Sane(env, k, f, v) && Decodable(k, f, w) && Canonical(env, k, f, w)
    requires Fits(k, f, FromWire(env, k, f, w))
    ensures Same(env, k, f, w, v) <==> Unaltered(env, k, f, FromWire(env, k, f, w), v)
  {
    hide Midnight, Within, Index, Members, CanonicalIndex, AllIndexed, Registered;
  }

  ghost predicate DuplicateFree<T>(s: seq<T>) {
    forall i, j :: 0 <= i < j < |s| ==> s[i] != s[j]
  }

  lemma {:induction false} NoDuplicates(was: seq<Text>, now: seq<Text>)
    requires |was| == |now| && forall j :: 0 <= j < |now| ==> now[j] in was
    requires DuplicateFree(now)
    ensures multiset(was) == multiset(now)
  {
    if now == [] {
      assert was == [];
    } else {
      var n := |now| - 1;
      var i :| 0 <= i < |was| && was[i] == now[n];
      var rest := was[..i] + was[i + 1..];
      forall j | 0 <= j < n ensures now[..n][j] in rest {
        var m :| 0 <= m < |was| && was[m] == now[j];
        assert m != i;
        assert rest[if m < i then m else m - 1] == now[j];
      }
      NoDuplicates(rest, now[..n]);
      assert was == was[..i] + [was[i]] + was[i + 1..];
      assert now == now[..n] + [now[n]];
    }
  }

  lemma OnceEach<T>(s: seq<T>, t: seq<T>)
    requires DuplicateFree(t) && multiset(s) == multiset(t)
    ensures DuplicateFree(s)
  {
    forall i, j | 0 <= i < j < |s| ensures s[i] != s[j] {
      if s[i] == s[j] {
        assert s == s[..i] + [s[i]] + s[i + 1..j] + [s[j]] + s[j + 1..];
        assert multiset(t)[s[i]] >= 2;
        Occurs(t, s[i]);
      }
    }
  }

  lemma {:induction false} Occurs<T>(t: seq<T>, x: T)
    requires DuplicateFree(t)
    ensures multiset(t)[x] <= 1
  {
    if t != [] {
      var n := |t| - 1;
      assert t == t[..n] + [t[n]];
      Occurs(t[..n], x);
      if x == t[n] {
        assert x !in t[..n];
      }
    }
  }

  /** A set that counts as unchanged holds the same members as before exactly when the new list has no duplicates. */
  lemma SetSeesExact(env: Env, f: Field, w: Wire, v: Value)
    requires Fits(Set, f, v) && Decodable(Set, f, w) && Canonical(env, Set, f, w) && DuplicateFree(w.us)
    requires Same(env, Set, f, w, v)
    ensures (forall t :: t in Members(f, w.us) <==> t in List(v.set_)) <==> DuplicateFree(List(v.set_))
  {
    hide Index, CanonicalIndex, Registered, DuplicateFree;
    SetTolerated(f, List(v.set_), w.us);
    MembersOnce(f, w.us);
    SameMembersExact(Members(f, w.us), List(v.set_));
  }

  lemma SameMembersExact(was: seq<Text>, now: seq<Text>)
    requires |was| == |now| && DuplicateFree(was) && forall j :: 0 <= j < |now| ==> now[j] in was
    ensures (forall t :: t in was <==> t in now) <==> DuplicateFree(now)
  {
    hide DuplicateFree;
    if DuplicateFree(now) {
      NoDuplicates(was, now);
      assert forall t :: t in was <==> t in multiset(was);
      assert forall t :: t in now <==> t in multiset(now);
    }
    if forall t :: t in was <==> t in now {
      NoDuplicates(now, was);
      OnceEach(now, was);
    }
  }

  lemma MembersOnce(f: Field, us: seq<uint64>)
    requires DuplicateFree(us) && forall i :: 0 <= i < |us| ==> 1 <= us[i] <= |f.members| && CanonicalIndex(f.members, us[i])
    ensures DuplicateFree(Members(f, us))
  {
    forall i, j | 0 <= i < j < |us| ensures Members(f, us)[i] != Members(f, us)[j] {
      assert CanonicalIndex(f.members, us[i]) && CanonicalIndex(f.members, us[j]);
    }
  }

  /** So it misses the change from a,b to a,a. */
  lemma DuplicateMissed(env: Env, f: Field, a: Text, b: Text)
    requires f.members == [a, b] && a != b
    ensures
      var v := SetV(Some([a, a]));
      && Fits(Set, f, v) && Same(env, Set, f, L([1, 2]), v)
      && multiset(Members(f, [1, 2])) != multiset([a, a])
  {
    var ms := f.members;
    assert ms[..1] == [a];
    assert Index(ms, a) == 1;
    assert [1, 2][0] == 1;
    assert Members(f, [1, 2]) == [a, b];
    assert b in multiset(Members(f, [1, 2])) && b !in multiset([a, a]);
  }

  // ---------------------------------------------------------------- right after writing and right after loading

  /** When nothing is dirty right after this value was written. */
  predicate CleanAfterWrite(env: Env, k: Kind, f: Field, v: Value)
    requires Fits(k, f, v)
  {
    match k
    case Time => v.t >= 0 || IsZero(v.t)
    case Date => Midnight(env, v.t) >= 0 || IsZero(v.t)
    case TimeNull => v.tn.Some? ==> v.tn.value > 0 || v.tn.value == ZERO_TIME
    case DateNull => v.tn.Some? ==> Midnight(env, v.tn.value) > 0 || Midnight(env, v.tn.value) == ZERO_TIME
    case Enum => v.e == [] ==> [] !in f.members
    case _ => true
  }

  lemma RoundedNear(env: Env, f: Field, x: uint64)
    requires env.Valid()
    ensures Near(env, f, x, env.Round(x, f.precision))
  {
    assert env.Number(env.Round(x, f.precision)) == Rounded(env.Number(x), f.precision);
    RoundedWithin(env.Number(x), f.precision);
  }

  lemma RoundedWithin(r: real, p: nat)
    ensures Within(r, Rounded(r, p), p)
  {
    HalfUnit(r * Pow10(p));
    ScaledNear(r, RoundHalf(r * Pow10(p)) as real, Pow10(p));
  }

  lemma HalfUnit(x: real)
    ensures -0.5 <= x - RoundHalf(x) as real <= 0.5
  {
  }

  lemma ScaledNear(r: real, n: real, p: real)
    requires p >= 1.0 && -0.5 <= r * p - n <= 0.5
    ensures
      var d := r - n / p;
      (if d < 0.0 then -d else d) < 1.0 / p
  {
    var d, q := r - n / p, 1.0 / p;
    assert n / p * p == n && q * p == 1.0;
    assert d * p == r * p - n;
    if d >= q {
      Monotone(q, d, p);
    } else if -d >= q {
      Monotone(q, -d, p);
    }
  }

  lemma Monotone(a: real, b: real, p: real)
    requires a <= b && p >= 0.0
    ensures a * p <= b * p
  {
  }

  lemma WrittenTime(t: int64)
    ensures OldTime(EncodedTime(t)) == if t > 0 then t else 0
  {
  }

  /** Right after a value is written it counts as unchanged, exactly when its time is not before the epoch. */
  lemma WrittenClean(env: Env, k: Kind, f: Field, v: Value)
    requires env.Valid() && Fits(k, f, v)
    ensures Same(env, k, f, ToWire(env, k, f, v), v) <==> CleanAfterWrite(env, k, f, v)
  {
    if k == Float {
      RoundedNear(env, f, v.f);
    } else if k == FloatNull && v.fn.Some? {
      RoundedNear(env, f, v.fn.value);
    } else if InSeconds(k) {
      WrittenTimeClean(env, k, f, v);
    } else if k == Set {
      var us := ToWire(env, k, f, v).us;
      forall j | 0 <= j < |List(v.set_)| ensures Index(f.members, List(v.set_)[j]) in us {
        assert us[j] == Index(f.members, List(v.set_)[j]);
      }
    }
  }

  lemma WrittenTimeClean(env: Env, k: Kind, f: Field, v: Value)
    requires Fits(k, f, v) && InSeconds(k)
    ensures Same(env, k, f, ToWire(env, k, f, v), v) <==> CleanAfterWrite(env, k, f, v)
  {
    if k == Time {
      WrittenTime(v.t);
    } else if k == Date {
      WrittenTime(Midnight(env, v.t));
    } else if k == TimeNull && v.tn.Some? {
      TimeInverse(v.tn.value);
    } else if k == DateNull && v.tn.Some? {
      TimeInverse(Midnight(env, v.tn.value));
    }
  }

  /** When nothing is dirty right after this column was loaded. */
  predicate CleanAfterLoad(env: Env, k: Kind, f: Field, w: Wire)
    requires Decodable(k, f, w)
  {
    match k
    case Date => w.i == ZERO_DATE_SECONDS || Midnight(env, DecodedTime(w.i)) == DecodedTime(w.i)
    case DateNull => w.oi.None? || (var t := Wrap(w.oi.value - TIME_STAMP_SECONDS); Midnight(env, t) == t)
    case Enum => if w.u == 0 then [] !in f.members else CanonicalIndex(f.members, w.u)
    case Set => AllIndexed(f.members, Members(f, w.us), w.us)
    case _ => true
  }

  /** Right after a record is read its columns count as unchanged, exactly when its dates are midnights of the entity's zone. */
  lemma LoadedClean(env: Env, k: Kind, f: Field, w: Wire)
    requires env.Valid() && Decodable(k, f, w) && Fits(k, f, FromWire(env, k, f, w))
    ensures Same(env, k, f, w, FromWire(env, k, f, w)) <==> CleanAfterLoad(env, k, f, w)
  {
  }
}
