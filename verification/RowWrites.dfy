/** What MySQL holds of an entity that was saved, against the record the entity has then: when a flush caches the row it made. */
module RowWrites {
  import opened Wrappers
  import opened SerializerBuffer
  import opened RecordSchema
  import opened RecordCodec
  import opened RecordTraversal
  import opened DirtyValues
  import opened DirtyDiff
  import opened CacheCoherence

  // ---------------------------------------------------------------- one column

  /** A DECIMAL column keeps its decimals, other floats are kept as they are. */
  function StoredFloat(env: Env, f: Field, x: uint64): uint64 {
    if f.decimals.Some? then env.Round(x, f.decimals.value) else x
  }

  /** The members of a set that are in ts, in the order of their definition. */
  function InOrder(members: seq<Text>, ts: seq<Text>): (r: seq<Text>)
    ensures |r| <= |members| && forall i :: 0 <= i < |r| ==> r[i] in members
  {
    if members == [] then []
    else
      var n := |members| - 1;
      InOrder(members[..n], ts) + if members[n] in ts then [members[n]] else []
  }

  /** The members of ts, each once, in the order of the definition. */
  lemma {:induction false} InOrderExact(members: seq<Text>, ts: seq<Text>)
    requires DuplicateFree(members)
    ensures forall t :: t in InOrder(members, ts) <==> t in members && t in ts
    ensures Ascending(members, InOrder(members, ts))
  {
    hide Index;
    if members != [] {
      var n := |members| - 1;
      var first, all := InOrder(members[..n], ts), InOrder(members, ts);
      assert members == members[..n] + [members[n]];
      InOrderExact(members[..n], ts);
      forall i, j | 0 <= i < j < |all| ensures Index(members, all[i]) < Index(members, all[j]) {
        assert all[i] == first[i] && first[i] in first && first[i] in members[..n];
        IndexBefore(members, first[i]);
        if j < |first| {
          assert first[j] in first && first[j] in members[..n];
          IndexBefore(members, first[j]);
        } else {
          IndexLast(members);
        }
      }
    }
  }

  /** Their places in the definition ascend. */
  ghost predicate Ascending(members: seq<Text>, ts: seq<Text>) {
    forall i, j :: 0 <= i < j < |ts| ==> Index(members, ts[i]) < Index(members, ts[j])
  }

  lemma IndexBefore(members: seq<Text>, t: Text)
    requires DuplicateFree(members) && members != [] && t in members[..|members| - 1]
    ensures Index(members, t) == Index(members[..|members| - 1], t) < |members|
  {
    var n := |members| - 1;
    var i :| 0 <= i < n && members[..n][i] == t;
    assert members[i] != members[n];
  }

  lemma IndexLast(members: seq<Text>)
    requires members != []
    ensures Index(members, members[|members| - 1]) == |members|
  {
  }

  /** A set is in the order of its definition exactly when its members' places ascend. */
  lemma InOrderWhen(members: seq<Text>, ts: seq<Text>)
    requires DuplicateFree(members) && forall t :: t in ts ==> t in members
    ensures ts == InOrder(members, ts) <==> Ascending(members, ts)
  {
    InOrderExact(members, ts);
    if Ascending(members, ts) {
      SameAscending(members, ts, InOrder(members, ts));
    }
  }

  lemma {:induction false} SameAscending(members: seq<Text>, a: seq<Text>, b: seq<Text>)
    requires Ascending(members, a) && Ascending(members, b) && forall t :: t in a <==> t in b
    ensures a == b
    decreases |a|
  {
    hide Index;
    BothEmpty(a, b);
    BothEmpty(b, a);
    if a != [] {
      var m, n := |a| - 1, |b| - 1;
      LastHighest(members, a, b);
      LastHighest(members, b, a);
      assert a == a[..m] + [a[m]] && b == b[..n] + [b[n]];
      LastOnce(members, a);
      LastOnce(members, b);
      AllButLast(a);
      AllButLast(b);
      AscendingPart(members, a, m);
      AscendingPart(members, b, n);
      forall t ensures t in a[..m] <==> t in b[..n] {
        assert t in a[..m] <==> t in a && t != a[m];
        assert t in b[..n] <==> t in b && t != b[n];
      }
      SameAscending(members, a[..m], b[..n]);
    }
  }

  lemma BothEmpty(a: seq<Text>, b: seq<Text>)
    requires forall t :: t in a <==> t in b
    ensures b == [] ==> a == []
  {
    assert a == [] || a[0] in a;
  }

  lemma AllButLast(a: seq<Text>)
    requires a != [] && a[|a| - 1] !in a[..|a| - 1]
    ensures forall t :: t in a[..|a| - 1] <==> t in a && t != a[|a| - 1]
  {
    assert a == a[..|a| - 1] + [a[|a| - 1]];
  }

  lemma AscendingPart(members: seq<Text>, a: seq<Text>, n: nat)
    requires Ascending(members, a) && n <= |a|
    ensures Ascending(members, a[..n])
  {
    hide Index;
  }

  lemma LastOnce(members: seq<Text>, a: seq<Text>)
    requires Ascending(members, a) && a != []
    ensures a[|a| - 1] !in a[..|a| - 1]
  {
  }

  /** The last of one is not after the last of the other, and a place is one member's. */
  lemma LastHighest(members: seq<Text>, a: seq<Text>, b: seq<Text>)
    requires Ascending(members, a) && Ascending(members, b) && a != [] && b != [] && forall t :: t in a <==> t in b
    ensures a[|a| - 1] == b[|b| - 1]
  {
    hide Index;
    var x, y := a[|a| - 1], b[|b| - 1];
    assert x in b && y in a;
    var i :| 0 <= i < |b| && b[i] == x;
    var j :| 0 <= j < |a| && a[j] == y;
  }

  /** What a SET column holds: a set of the empty text alone is the empty set. */
  function SetHeld(members: seq<Text>, ts: seq<Text>): (r: seq<Text>)
    ensures |r| <= |members| && forall i :: 0 <= i < |r| ==> r[i] in members
  {
    var r := InOrder(members, ts);
    if r == [[]] then [] else r
  }

  /** The seconds a time is written as; the zero time is one of UTC. */
  function LocalTime(env: Env, t: int64): int {
    if t == ZERO_TIME then t else t + env.zone
  }

  /** MySQL's seconds since the year 0. */
  function ToSeconds(t: int): int64 {
    Wrap(t + TIME_STAMP_SECONDS)
  }

  /** The record's column after MySQL has been given c and the row has been loaded. */
  function ReadBack(env: Env, k: Kind, f: Field, c: Column): Wire
    requires SmallEnum(f)
  {
    match k
    case Ref => U(if c.UIntC? then c.u else 0)
    case UInt => U(if c.UIntC? then c.u else 0)
    case Int => I(if c.IntC? then c.i else 0)
    case Bool => B(c.BoolC? && c.b)
    case Float => U(if c.FloatC? then StoredFloat(env, f, c.f) else 0)
    case Time => I(if c.TimeC? then RowTime(env, ToSeconds(LocalTime(env, c.at))) else 0)
    case Date => I(if c.DateC? then RowTime(env, ToSeconds(86400 * c.day)) else 0)
    case FakeDelete => B(c.UIntC? && c.u > 0)
    case Str => S(if c.TextC? then c.t else [])
    case UIntNull => OU(if c.UIntC? then Some(c.u) else None)
    case IntNull => OI(if c.IntC? then Some(c.i) else None)
    case Enum => U(if c.TextC? then Index(f.members, c.t) else 0)
    case Bytes => S(if c.TextC? then c.t else [])
    case Set => L(if c.SetC? then Indexes(f.members, SetHeld(f.members, c.ts)) else [])
    case BoolNull => OB(if c.BoolC? then Some(c.b) else None)
    case FloatNull => OU(if c.FloatC? then Some(StoredFloat(env, f, c.f)) else None)
    case TimeNull => OI(if c.TimeC? then Some(RowTimeNull(env, ToSeconds(LocalTime(env, c.at)))) else None)
    case DateNull => OI(if c.DateC? then Some(RowTimeNull(env, ToSeconds(86400 * c.day))) else None)
    case Json => S(if c.TextC? then c.t else [])
    case RefsMany => L(if c.IdsC? then c.ids else [])
  }

  lemma BackDecodable(env: Env, k: Kind, f: Field, id: uint64, inDB: bool, v: Value)
    requires env.Valid() && Fits(k, f, v) && SmallEnum(f)
    ensures Decodable(k, f, ReadBack(env, k, f, Saved(env, k, f, id, inDB, v)))
  {
  }

  /** What a load puts into the field once v has been saved. */
  function StoredValue(env: Env, k: Kind, f: Field, id: uint64, inDB: bool, v: Value): Value
    requires env.Valid() && Fits(k, f, v) && SmallEnum(f)
  {
    BackDecodable(env, k, f, id, inDB, v);
    FromWire(env, k, f, ReadBack(env, k, f, Saved(env, k, f, id, inDB, v)))
  }

  const YEAR_10000: int := 253402300800

  lemma Year10000()
    ensures YEAR_10000 == 86400 * (DaysTo(10000) - DaysTo(1970))
  {
  }

  /** Times MySQL can hold. */
  predicate InYears(t: int) {
    ZERO_TIME <= t < YEAR_10000
  }

  /** Zones are less than a day from UTC. */
  predicate Zones(env: Env) {
    -86400 < env.zone < 86400 && -86400 < env.timeOffset < 86400
  }

  /** The value's times can be held, empty enums that are required have a default, set members differ. */
  predicate Storable(env: Env, k: Kind, f: Field, v: Value)
    requires Fits(k, f, v)
  {
    && Sane(env, k, f, v) && SmallEnum(f)
    && (k == Time || k == Date ==> InYears(v.t))
    && ((k == TimeNull || k == DateNull) && v.tn.Some? ==> InYears(v.tn.value))
    && (k == Enum && f.required ==> f.defaultMember in f.members && f.defaultMember != [])
  }

  /**
   * A time that was put into a column of the entity's zone comes back from the machine's zone; no time before 1970 is
   * recorded.
   */
  predicate TimeKept(env: Env, t: int) {
    if t > 0 then env.zone == if t + env.zone > env.timeOffset then env.timeOffset else 0
    else t + env.zone == ZERO_TIME
  }

  /** For columns that may be NULL the offset is always taken off. */
  predicate TimeNullKept(env: Env, t: int) {
    if t > 0 then env.zone == env.timeOffset else t + env.zone - env.timeOffset == ZERO_TIME
  }

  /** When a saved value is loaded again as what the record says of it. */
  predicate KeptAsWritten(env: Env, k: Kind, f: Field, id: uint64, inDB: bool, v: Value)
    requires Fits(k, f, v)
  {
    match k
    case Float => StoredFloat(env, f, v.f) == env.Round(v.f, f.precision)
    case FloatNull => v.fn.Some? ==> StoredFloat(env, f, v.fn.value) == env.Round(v.fn.value, f.precision)
    case Time => v.t == ZERO_TIME || TimeKept(env, v.t)
    case Date => TimeKept(env, Midnight(env, v.t))
    case TimeNull => v.tn.Some? ==> if v.tn.value == ZERO_TIME then env.timeOffset == 0 else TimeNullKept(env, v.tn.value)
    case DateNull => v.tn.Some? ==> TimeNullKept(env, Midnight(env, v.tn.value))
    case FakeDelete => v.b ==> id != 0
    case Enum => v.e != [] || !f.required || inDB
    case Set => List(v.set_) == SetHeld(f.members, List(v.set_))
    case _ => true
  }

  lemma SmallWrap(x: int)
    requires -I64 <= x < I64
    ensures Wrap(x) == x
  {
  }

  lemma RowTimeIs(env: Env, t: int)
    requires Zones(env) && ZERO_TIME - 86400 <= t < YEAR_10000 + 86400
    ensures
      var back := if t > env.timeOffset then t - env.timeOffset else t;
      RowTime(env, ToSeconds(t)) == back + TIME_STAMP_SECONDS && DecodedTime(back + TIME_STAMP_SECONDS) == back
  {
    hide Wrap;
    SmallWrap(t + TIME_STAMP_SECONDS);
    SmallWrap(t);
    SmallWrap(t + TIME_STAMP_SECONDS - env.timeOffset);
    SmallWrap(t - env.timeOffset);
  }

  lemma RowTimeNullIs(env: Env, t: int)
    requires Zones(env) && ZERO_TIME - 86400 <= t < YEAR_10000 + 86400
    ensures
      var back := t - env.timeOffset;
      && RowTimeNull(env, ToSeconds(t)) == back + TIME_STAMP_SECONDS
      && Wrap(back + TIME_STAMP_SECONDS - TIME_STAMP_SECONDS) == back
  {
    hide Wrap;
    SmallWrap(t + TIME_STAMP_SECONDS);
    SmallWrap(t + TIME_STAMP_SECONDS - env.timeOffset);
    SmallWrap(t - env.timeOffset);
  }

  /** The time of day is at least 0 and less than a day. */
  lemma MidnightNear(env: Env, t: int64)
    requires Zones(env) && InYears(t)
    ensures HasMidnight(env, t) && t - 86400 < Midnight(env, t) <= t && 86400 * Day(env, t) == Midnight(env, t) + env.zone
  {
    SmallWrap(t - (t + env.zone) % 86400);
    MidnightDay(env, t);
  }

  lemma StoredTime(env: Env, f: Field, id: uint64, inDB: bool, v: Value)
    requires env.Valid() && Zones(env) && Fits(Time, f, v) && Storable(env, Time, f, v)
    ensures StoredValue(env, Time, f, id, inDB, v) == Normal(env, Time, f, v) <==> KeptAsWritten(env, Time, f, id, inDB, v)
  {
    hide Wrap, RowTime, ToSeconds, DecodedTime, Midnight;
    RowTimeIs(env, LocalTime(env, v.t));
  }

  lemma StoredDate(env: Env, f: Field, id: uint64, inDB: bool, v: Value)
    requires env.Valid() && Zones(env) && Fits(Date, f, v) && Storable(env, Date, f, v)
    ensures StoredValue(env, Date, f, id, inDB, v) == Normal(env, Date, f, v) <==> KeptAsWritten(env, Date, f, id, inDB, v)
  {
    hide Wrap, RowTime, ToSeconds, DecodedTime, Midnight, Day;
    MidnightNear(env, v.t);
    RowTimeIs(env, 86400 * Day(env, v.t));
  }

  lemma StoredTimeNull(env: Env, f: Field, id: uint64, inDB: bool, v: Value)
    requires env.Valid() && Zones(env) && Fits(TimeNull, f, v) && Storable(env, TimeNull, f, v)
    ensures StoredValue(env, TimeNull, f, id, inDB, v) == Normal(env, TimeNull, f, v) <==> KeptAsWritten(env, TimeNull, f, id, inDB, v)
  {
    hide Wrap, RowTimeNull, ToSeconds, DecodedTime, Midnight;
    if v.tn.Some? {
      RowTimeNullIs(env, LocalTime(env, v.tn.value));
    }
  }

  lemma StoredDateNull(env: Env, f: Field, id: uint64, inDB: bool, v: Value)
    requires env.Valid() && Zones(env) && Fits(DateNull, f, v) && Storable(env, DateNull, f, v)
    ensures StoredValue(env, DateNull, f, id, inDB, v) == Normal(env, DateNull, f, v) <==> KeptAsWritten(env, DateNull, f, id, inDB, v)
  {
    hide Wrap, RowTimeNull, ToSeconds, DecodedTime, Midnight, Day;
    if v.tn.Some? {
      MidnightNear(env, v.tn.value);
      RowTimeNullIs(env, 86400 * Day(env, v.tn.value));
    }
  }

  lemma StoredSet(env: Env, f: Field, id: uint64, inDB: bool, v: Value)
    requires env.Valid() && Fits(Set, f, v) && Storable(env, Set, f, v)
    ensures StoredValue(env, Set, f, id, inDB, v) == Normal(env, Set, f, v) <==> KeptAsWritten(env, Set, f, id, inDB, v)
  {
    hide SetHeld, Indexes, Members;
    if List(v.set_) == [] {
      NoneHeld(f.members);
    } else {
      SetStored(env, f, id, inDB, v);
    }
  }

  lemma SetStored(env: Env, f: Field, id: uint64, inDB: bool, v: Value)
    requires env.Valid() && Fits(Set, f, v) && SmallEnum(f) && List(v.set_) != []
    ensures StoredValue(env, Set, f, id, inDB, v) == SetV(NonEmpty(Some(SetHeld(f.members, List(v.set_)))))
  {
    hide SetHeld;
    var back := SetHeld(f.members, List(v.set_));
    MembersInverse(f, back);
    BackDecodable(env, Set, f, id, inDB, v);
    assert ReadBack(env, Set, f, Saved(env, Set, f, id, inDB, v)) == L(Indexes(f.members, back));
  }

  lemma NoneHeld(members: seq<Text>)
    ensures SetHeld(members, []) == []
  {
    NoneInOrder(members);
  }

  lemma {:induction false} NoneInOrder(members: seq<Text>)
    ensures InOrder(members, []) == []
  {
    if members != [] {
      NoneInOrder(members[..|members| - 1]);
    }
  }

  lemma StoredOther(env: Env, k: Kind, f: Field, id: uint64, inDB: bool, v: Value)
    requires !InSeconds(k) && k != Set && env.Valid() && Fits(k, f, v) && Storable(env, k, f, v)
    ensures StoredValue(env, k, f, id, inDB, v) == Normal(env, k, f, v) <==> KeptAsWritten(env, k, f, id, inDB, v)
  {
    hide SetHeld, RowTime, RowTimeNull, ToSeconds, Midnight, Day, Rounded;
  }

  /** A saved value is loaded as what the record says of it exactly under that condition. */
  lemma StoredExact(env: Env, k: Kind, f: Field, id: uint64, inDB: bool, v: Value)
    requires env.Valid() && Zones(env) && Fits(k, f, v) && Storable(env, k, f, v)
    ensures StoredValue(env, k, f, id, inDB, v) == Normal(env, k, f, v) <==> KeptAsWritten(env, k, f, id, inDB, v)
  {
    hide StoredValue, Normal, KeptAsWritten, Storable;
    match k
    case Time => StoredTime(env, f, id, inDB, v);
    case Date => StoredDate(env, f, id, inDB, v);
    case TimeNull => StoredTimeNull(env, f, id, inDB, v);
    case DateNull => StoredDateNull(env, f, id, inDB, v);
    case Set => StoredSet(env, f, id, inDB, v);
    case _ => StoredOther(env, k, f, id, inDB, v);
  }

  /** No time, or one after 1970. */
  predicate AfterEpoch(i: int64) {
    i == ZERO_DATE_SECONDS || Wrap(i - TIME_STAMP_SECONDS) > 0
  }

  /** When a value that counts as unchanged is, in its new record, what the old record had. */
  predicate StaysAsRead(env: Env, k: Kind, f: Field, w: Wire, v: Value)
    requires Fits(k, f, v) && Decodable(k, f, w)
  {
    match k
    case Float => env.Round(v.f, f.precision) == w.u
    case FloatNull => v.fn.Some? ==> w.ou == Some(env.Round(v.fn.value, f.precision))
    case Time => AfterEpoch(w.i)
    case Date => AfterEpoch(w.i)
    case TimeNull => w.oi.Some? ==> AfterEpoch(w.oi.value)
    case DateNull => w.oi.Some? ==> AfterEpoch(w.oi.value)
    case Set => Members(f, w.us) == List(v.set_)
    case Json => w.s == [] || v.j.Some?
    case _ => true
  }

  lemma UnchangedTime(env: Env, k: Kind, f: Field, w: Wire, v: Value)
    requires InSeconds(k) && Zones(env) && Fits(k, f, v) && Decodable(k, f, w) && Same(env, k, f, w, v) && Storable(env, k, f, v)
    ensures Normal(env, k, f, v) == FromWire(env, k, f, w) <==> StaysAsRead(env, k, f, w, v)
  {
    hide Midnight;
    if k == Date {
      MidnightNear(env, v.t);
    } else if k == DateNull && v.tn.Some? {
      MidnightNear(env, v.tn.value);
    }
  }

  lemma UnchangedSet(env: Env, f: Field, w: Wire, v: Value)
    requires Fits(Set, f, v) && Decodable(Set, f, w) && Same(env, Set, f, w, v)
    ensures Normal(env, Set, f, v) == FromWire(env, Set, f, w) <==> StaysAsRead(env, Set, f, w, v)
  {
    hide Index;
  }

  lemma UnchangedOther(env: Env, k: Kind, f: Field, w: Wire, v: Value)
    requires !InSeconds(k) && k != Set
    requires env.Valid() && Fits(k, f, v) && Decodable(k, f, w) && Same(env, k, f, w, v) && Storable(env, k, f, v)
    ensures Normal(env, k, f, v) == FromWire(env, k, f, w) <==> StaysAsRead(env, k, f, w, v)
  {
    hide Midnight, Day, Rounded, Within;
  }

  /** An unchanged value's record stays as it was read exactly under that condition. */
  lemma UnchangedExact(env: Env, k: Kind, f: Field, w: Wire, v: Value)
    requires env.Valid() && Zones(env) && Fits(k, f, v) && Decodable(k, f, w) && Same(env, k, f, w, v) && Storable(env, k, f, v)
    ensures Normal(env, k, f, v) == FromWire(env, k, f, w) <==> StaysAsRead(env, k, f, w, v)
  {
    hide Normal, FromWire, StaysAsRead, Same, Storable, Decodable, Fits;
    if k == Set {
      UnchangedSet(env, f, w, v);
    } else if InSeconds(k) {
      UnchangedTime(env, k, f, w, v);
    } else {
      UnchangedOther(env, k, f, w, v);
    }
  }

  // ---------------------------------------------------------------- whole rows

  /** The row that a record or a load stands for. */
  ghost function OldRow(env: Env, leaves: seq<Leaf>, ws: seq<Wire>): Row
    requires DistinctColumns(leaves) && AllDecodable(leaves, ws)
  {
    map i | 0 <= i < |leaves| :: leaves[i].column := FromWire(env, leaves[i].kind, leaves[i].field, ws[i])
  }

  /** The row that the entity's record stands for once it is written. */
  ghost function NewRow(env: Env, leaves: seq<Leaf>, vals: Values): Row
    requires DistinctColumns(leaves) && AllFit(leaves, vals)
  {
    map i | 0 <= i < |leaves| :: leaves[i].column := Normal(env, leaves[i].kind, leaves[i].field, vals[leaves[i].path])
  }

  predicate AllStorable(env: Env, leaves: seq<Leaf>, vals: Values)
    requires AllFit(leaves, vals)
  {
    forall i :: 0 <= i < |leaves| ==> LeafFits(leaves[i], vals) && Storable(env, leaves[i].kind, leaves[i].field, vals[leaves[i].path])
  }

  function StoredLeaf(env: Env, m: Mode, l: Leaf, vals: Values): Value
    requires env.Valid() && LeafFits(l, vals) && SmallEnum(l.field)
  {
    StoredValue(env, l.kind, l.field, m.id, m.inDB, vals[l.path])
  }

  /** What MySQL makes of the columns in bind. */
  ghost function BindRow(env: Env, m: Mode, leaves: seq<Leaf>, vals: Values, ws: seq<Wire>): Row
    requires env.Valid() && DistinctColumns(leaves) && AllComparable(m, leaves, vals, ws)
    requires AllFit(leaves, vals) && AllStorable(env, leaves, vals)
  {
    map i | 0 <= i < |leaves| && Comparable(leaves[i], m, vals, ws[i]) && Changed(env, m, leaves[i], vals, ws[i]) ::
      leaves[i].column := StoredLeaf(env, m, leaves[i], vals)
  }

  /** An entity that was loaded with the record ws is saved. */
  ghost function UpdateOf(env: Env, m: Mode, leaves: seq<Leaf>, vals: Values, ws: seq<Wire>): Change
    requires env.Valid() && DistinctColumns(leaves) && AllComparable(m, leaves, vals, ws) && AllDecodable(leaves, ws)
    requires AllFit(leaves, vals) && AllStorable(env, leaves, vals)
  {
    Update(m.id, OldRow(env, leaves, ws), BindRow(env, m, leaves, vals, ws), NewRow(env, leaves, vals))
  }

  /**
   * A new entity is saved; all its columns are. The comparison knows the id it has then, 0 when MySQL is to give it
   * one; id is its row's.
   */
  ghost function InsertOf(env: Env, m: Mode, id: uint64, leaves: seq<Leaf>, vals: Values): Change
    requires env.Valid() && DistinctColumns(leaves) && AllFit(leaves, vals) && AllStorable(env, leaves, vals)
  {
    Insert(id, map i | 0 <= i < |leaves| && LeafFits(leaves[i], vals) && SmallEnum(leaves[i].field) ::
                   leaves[i].column := StoredLeaf(env, m, leaves[i], vals),
           NewRow(env, leaves, vals))
  }

  /** What an update needs of a column for its record to be its row. The ID is never saved. */
  predicate ColumnKept(env: Env, m: Mode, l: Leaf, vals: Values, w: Wire)
    requires Comparable(l, m, vals, w) && Decodable(l.kind, l.field, w)
  {
    if IsId(l) then vals[l.path].u == w.u
    else if Same(env, l.kind, l.field, w, vals[l.path]) then StaysAsRead(env, l.kind, l.field, w, vals[l.path])
    else KeptAsWritten(env, l.kind, l.field, m.id, true, vals[l.path])
  }

  lemma ColumnExact(env: Env, m: Mode, l: Leaf, vals: Values, w: Wire)
    requires env.Valid() && Zones(env) && m.inDB && Comparable(l, m, vals, w) && Decodable(l.kind, l.field, w)
    requires Storable(env, l.kind, l.field, vals[l.path])
    ensures
      var v := vals[l.path];
      (if Changed(env, m, l, vals, w) then StoredLeaf(env, m, l, vals) else FromWire(env, l.kind, l.field, w))
        == Normal(env, l.kind, l.field, v)
      <==> ColumnKept(env, m, l, vals, w)
  {
    hide StoredValue, KeptAsWritten, StaysAsRead, Storable, Same;
    var v := vals[l.path];
    if IsId(l) {
    } else if Same(env, l.kind, l.field, w, v) {
      UnchangedExact(env, l.kind, l.field, w, v);
    } else {
      StoredExact(env, l.kind, l.field, m.id, true, v);
    }
  }

  /**
   * The record an update leaves is the row it makes exactly when every column that counts as unchanged stays as it
   * was read and every other is loaded as it was written.
   */
  lemma UpdateKept(env: Env, m: Mode, leaves: seq<Leaf>, vals: Values, ws: seq<Wire>)
    requires env.Valid() && Zones(env) && m.inDB && DistinctColumns(leaves)
    requires AllComparable(m, leaves, vals, ws) && AllDecodable(leaves, ws) && AllFit(leaves, vals) && AllStorable(env, leaves, vals)
    ensures Kept(UpdateOf(env, m, leaves, vals, ws))
       <==> (forall i :: 0 <= i < |leaves| ==> ColumnKept(env, m, leaves[i], vals, ws[i]))
  {
    hide ColumnKept, Comparable, Changed, StoredLeaf, Storable, FromWire, Normal;
    var was, bind, now := OldRow(env, leaves, ws), BindRow(env, m, leaves, vals, ws), NewRow(env, leaves, vals);
    assert (was + bind).Keys == now.Keys;
    forall i | 0 <= i < |leaves|
      ensures (was + bind)[leaves[i].column] == now[leaves[i].column] <==> ColumnKept(env, m, leaves[i], vals, ws[i])
    {
      ColumnExact(env, m, leaves[i], vals, ws[i]);
      BindRowAt(env, m, leaves, vals, ws, i);
    }
  }

  lemma BindRowAt(env: Env, m: Mode, leaves: seq<Leaf>, vals: Values, ws: seq<Wire>, i: nat)
    requires env.Valid() && DistinctColumns(leaves) && AllComparable(m, leaves, vals, ws)
    requires AllFit(leaves, vals) && AllStorable(env, leaves, vals) && i < |leaves|
    ensures LeafFits(leaves[i], vals) && Comparable(leaves[i], m, vals, ws[i])
    ensures leaves[i].column in BindRow(env, m, leaves, vals, ws) <==> Changed(env, m, leaves[i], vals, ws[i])
    ensures Changed(env, m, leaves[i], vals, ws[i]) ==>
      BindRow(env, m, leaves, vals, ws)[leaves[i].column] == StoredLeaf(env, m, leaves[i], vals)
  {
    hide Changed, StoredLeaf, Storable;
  }

  /** The same for an insert; with an empty enum that is required it is false, as the row gets the default. */
  lemma InsertKept(env: Env, m: Mode, id: uint64, leaves: seq<Leaf>, vals: Values)
    requires env.Valid() && Zones(env) && !m.inDB && DistinctColumns(leaves) && AllFit(leaves, vals) && AllStorable(env, leaves, vals)
    ensures Kept(InsertOf(env, m, id, leaves, vals))
       <==> (forall i :: 0 <= i < |leaves| ==>
              KeptAsWritten(env, leaves[i].kind, leaves[i].field, m.id, false, vals[leaves[i].path]))
  {
    hide KeptAsWritten, InsertOf, Storable, Fits;
    var c := InsertOf(env, m, id, leaves, vals);
    InsertKeys(env, m, id, leaves, vals);
    forall i | 0 <= i < |leaves|
      ensures leaves[i].column in c.stored && leaves[i].column in c.now
      ensures c.stored[leaves[i].column] == c.now[leaves[i].column]
         <==> KeptAsWritten(env, leaves[i].kind, leaves[i].field, m.id, false, vals[leaves[i].path])
    {
      InsertColumn(env, m, id, leaves, vals, i);
    }
  }

  lemma InsertKeys(env: Env, m: Mode, id: uint64, leaves: seq<Leaf>, vals: Values)
    requires env.Valid() && DistinctColumns(leaves) && AllFit(leaves, vals) && AllStorable(env, leaves, vals)
    ensures
      var c := InsertOf(env, m, id, leaves, vals);
      c.Insert? && c.stored.Keys == c.now.Keys && forall x :: x in c.now ==> exists i :: 0 <= i < |leaves| && leaves[i].column == x
  {
    hide StoredLeaf, Normal, Fits;
    var c := InsertOf(env, m, id, leaves, vals);
    forall i | 0 <= i < |leaves| ensures leaves[i].column in c.stored {
      StorableSmall(env, leaves[i].kind, leaves[i].field, vals[leaves[i].path]);
    }
  }

  lemma InsertColumn(env: Env, m: Mode, id: uint64, leaves: seq<Leaf>, vals: Values, i: nat)
    requires env.Valid() && Zones(env) && !m.inDB && DistinctColumns(leaves) && AllFit(leaves, vals) && AllStorable(env, leaves, vals)
    requires i < |leaves|
    ensures
      var c, l := InsertOf(env, m, id, leaves, vals), leaves[i];
      && l.column in c.stored && l.column in c.now && LeafFits(l, vals)
      && (c.stored[l.column] == c.now[l.column] <==> KeptAsWritten(env, l.kind, l.field, m.id, false, vals[l.path]))
  {
    hide KeptAsWritten, Storable, StoredValue, Normal, Fits;
    var l := leaves[i];
    assert LeafFits(l, vals) && Storable(env, l.kind, l.field, vals[l.path]);
    StorableSmall(env, l.kind, l.field, vals[l.path]);
    StoredExact(env, l.kind, l.field, m.id, false, vals[l.path]);
  }

  lemma StorableSmall(env: Env, k: Kind, f: Field, v: Value)
    requires Fits(k, f, v) && Storable(env, k, f, v)
    ensures SmallEnum(f)
  {
  }

  /** Saving an entity that is not older than its row caches the new row exactly then. */
  lemma UpdateCached(env: Env, m: Mode, leaves: seq<Leaf>, vals: Values, ws: seq<Wire>, view: map<nat, Row>)
    requires env.Valid() && Zones(env) && m.inDB && DistinctColumns(leaves)
    requires AllComparable(m, leaves, vals, ws) && AllDecodable(leaves, ws) && AllFit(leaves, vals) && AllStorable(env, leaves, vals)
    requires Find(view, m.id) == Some(OldRow(env, leaves, ws))
    ensures
      var c := UpdateOf(env, m, leaves, vals, ws);
      SetOf(c) == (m.id, EntryOf(Apply(view, c), m.id))
      <==> (forall i :: 0 <= i < |leaves| ==> ColumnKept(env, m, leaves[i], vals, ws[i]))
  {
    hide ColumnKept, OldRow, BindRow, NewRow, AllComparable, AllStorable;
    UpdateKept(env, m, leaves, vals, ws);
    ApplyOne(view, view, UpdateOf(env, m, leaves, vals, ws));
  }

  lemma InsertCached(env: Env, m: Mode, id: uint64, leaves: seq<Leaf>, vals: Values, view: map<nat, Row>)
    requires env.Valid() && Zones(env) && !m.inDB && DistinctColumns(leaves) && AllFit(leaves, vals) && AllStorable(env, leaves, vals)
    requires id as nat !in view
    ensures
      var c := InsertOf(env, m, id, leaves, vals);
      SetOf(c) == (id, EntryOf(Apply(view, c), id))
      <==> (forall i :: 0 <= i < |leaves| ==>
              KeptAsWritten(env, leaves[i].kind, leaves[i].field, m.id, false, vals[leaves[i].path]))
  {
    hide KeptAsWritten, NewRow, StoredLeaf, AllStorable;
    InsertKept(env, m, id, leaves, vals);
    ApplyOne(view, view, InsertOf(env, m, id, leaves, vals));
  }

  // ---------------------------------------------------------------- an update that caches what it did not save

  const MOST: uint64 := 4000000000

  /** Floats with three decimals. */
  function Milli(f: uint64): real {
    if f <= MOST then f as real / 1000.0 else 0.0
  }

  function Unit(p: nat): nat {
    if p == 0 then 1000 else if p == 1 then 100 else 10
  }

  function MilliRound(f: uint64, p: nat): uint64 {
    if f > MOST then 0 else if p >= 3 then f else (f + Unit(p) / 2) / Unit(p) * Unit(p)
  }

  lemma Halves(f: nat, u: nat, q: nat)
    requires u > 0 && u % 2 == 0 && q == (f + u / 2) / u
    ensures RoundHalf(f as real / u as real) == q
  {
    var r := (f + u / 2) - q * u;
    assert 0 <= r < u;
    var x := f as real / u as real;
    assert x * u as real == f as real;
    var d := x + 0.5 - q as real;
    assert d * u as real == x * u as real + 0.5 * u as real - q as real * u as real;
    Product(q, u);
    assert 0.5 * u as real == (u / 2) as real;
    assert d * u as real == r as real;
    FractionOf(d, u as real, r as real);
  }

  lemma FractionOf(d: real, u: real, r: real)
    requires d * u == r && 0.0 <= r < u
    ensures 0.0 <= d < 1.0
  {
  }

  lemma Finer(f: nat, p: nat)
    requires p >= 3
    ensures Rounded(f as real / 1000.0, p) == f as real / 1000.0
  {
    var n := WholePower(p - 3);
    assert Pow10(p) == 1000.0 * Pow10(p - 3) by {
      assert Pow10(p) == 10.0 * Pow10(p - 1) && Pow10(p - 1) == 10.0 * Pow10(p - 2) && Pow10(p - 2) == 10.0 * Pow10(p - 3);
    }
    Product(f, n);
    RoundedTo(f as real / 1000.0, p, f * n);
  }

  lemma SameRound(x: real, y: real)
    requires x == y
    ensures RoundHalf(x) == RoundHalf(y)
  {
  }

  lemma RoundedBy(x: real, p: nat, y: real, q: int)
    requires x * Pow10(p) == y && RoundHalf(y) == q
    ensures Rounded(x, p) == q as real / Pow10(p)
  {
    hide RoundHalf, Pow10;
    SameRound(x * Pow10(p), y);
    assert RoundHalf(x * Pow10(p)) == q;
  }

  lemma Coarser(f: nat, p: nat)
    requires p < 3
    ensures
      var q := (f + Unit(p) / 2) / Unit(p);
      Rounded(f as real / 1000.0, p) == (q * Unit(p)) as real / 1000.0
  {
    hide RoundHalf, Rounded;
    var u, x := Unit(p), f as real / 1000.0;
    var q := (f + u / 2) / u;
    Halves(f, u, q);
    assert x * Pow10(p) == f as real / u as real by {
      assert p == 0 || p == 1 || p == 2;
    }
    RoundedBy(x, p, f as real / u as real, q);
    assert Pow10(p) * u as real == 1000.0;
    Product(q, u);
    Thousandths(q as real, u as real, Pow10(p));
  }

  lemma Thousandths(q: real, u: real, p: real)
    requires p * u == 1000.0 && p > 0.0
    ensures q / p == q * u / 1000.0
  {
    var x := q * u / 1000.0;
    assert x * p == q * (p * u) / 1000.0;
    Quotient(x, p, q);
  }

  lemma MilliRounded(f: uint64, p: nat)
    ensures Milli(MilliRound(f, p)) == Rounded(Milli(f), p)
  {
    hide Rounded;
    if f > MOST {
      WholeRounded(0, p);
    } else if p >= 3 {
      Finer(f, p);
    } else {
      Coarser(f, p);
    }
  }

  lemma MilliEnv() returns (env: Env)
    ensures env.Valid() && Zones(env)
    ensures forall f: uint64 :: env.Number(f) == Milli(f)
    ensures forall f: uint64, p: nat :: env.Round(f, p) == MilliRound(f, p)
  {
    hide MilliRound, Milli, Rounded;
    var e := EnvExists();
    var number: uint64 -> real := (f: uint64) => Milli(f);
    var round: (uint64, nat) -> uint64 := (f: uint64, p: nat) => MilliRound(f, p);
    env := e.(values := number, roundings := round, zone := 0, timeOffset := 0);
    forall f: uint64, p: nat ensures env.Number(env.Round(f, p)) == Rounded(env.Number(f), p) {
      MilliRounded(f, p);
    }
    forall f: uint64 ensures env.Number(f) == Milli(f) {
      assert number(f) == Milli(f);
    }
    forall f: uint64, p: nat ensures env.Round(f, p) == MilliRound(f, p) {
      assert round(f, p) == MilliRound(f, p);
    }
    forall j: Json ensures 0 < |env.Marshal(j)| < I64 && env.Unmarshal(env.Marshal(j)) == j {
      assert env.Marshal(j) == e.Marshal(j) && env.Unmarshal(env.Marshal(j)) == e.Unmarshal(e.Marshal(j));
    }
    forall t: Text ensures |env.ParseIds(t)| < I64 {
      assert env.ParseIds(t) == e.ParseIds(t);
    }
  }

  function Plain(index: nat, name: string): Field {
    Field(index, name, 2, [], [], false, None)
  }

  function LeafAt(k: Kind, f: Field): Leaf {
    Leaf([f.index], f.name, k, f)
  }

  /** What an update needs to be one. */
  ghost predicate Updates(env: Env, m: Mode, leaves: seq<Leaf>, vals: Values, ws: seq<Wire>) {
    && env.Valid() && Zones(env) && m.inDB && DistinctColumns(leaves)
    && AllComparable(m, leaves, vals, ws) && AllDecodable(leaves, ws) && AllFit(leaves, vals) && AllStorable(env, leaves, vals)
  }

  lemma Price()
    ensures Milli(1009) == 1.009 && Milli(1000) == 1.0 && MilliRound(1009, 2) == 1010
  {
  }

  lemma PriceNear(env: Env, f: Field)
    requires f.precision == 2 && env.Number(1009) == 1.009 && env.Number(1000) == 1.0
    ensures Near(env, f, 1009, 1000)
  {
    assert Pow10(0) == 1.0 && Pow10(1) == 10.0 && Pow10(2) == 100.0;
  }

  lemma PriceUpdate(env: Env, m: Mode, leaves: seq<Leaf>, vals: Values, ws: seq<Wire>)
    requires env.Valid() && Zones(env) && m == Mode(1, true, false)
    requires env.Number(1009) == 1.009 && env.Number(1000) == 1.0 && env.Round(1009, 2) == 1010
    requires leaves == [LeafAt(UInt, Plain(1, "ID")), LeafAt(Float, Plain(2, "Price")), LeafAt(UInt, Plain(3, "Count"))]
    requires vals == map[[1] := UIntV(1), [2] := FloatV(1009), [3] := UIntV(6)] && ws == [U(1), U(1000), U(5)]
    ensures Updates(env, m, leaves, vals, ws)
    ensures Changed(env, m, leaves[2], vals, ws[2]) && !Changed(env, m, leaves[1], vals, ws[1])
    ensures !ColumnKept(env, m, leaves[1], vals, ws[1])
  {
    hide Index, Rounded, Within;
    assert leaves[0].path == [1] && leaves[1].path == [2] && leaves[2].path == [3];
    assert [1][0] != [2][0] && [1][0] != [3][0] && [2][0] != [3][0];
    assert "ID"[0] != "Price"[0] && "ID"[0] != "Count"[0] && "Price"[0] != "Count"[0];
    PriceNear(env, leaves[1].field);
  }

  /**
   * Two decimals, a price that goes from 1.00 to 1.009 and another column that changes: the price is not saved, but the
   * record says 1.01. After this flush of an entity as it is in the database the local cache is wrong.
   */
  lemma SkippedFloat() returns (env: Env, m: Mode, leaves: seq<Leaf>, vals: Values, ws: seq<Wire>, ss: seq<State>, acts: seq<CacheCoherence.Action>)
    ensures Updates(env, m, leaves, vals, ws) && |leaves| == 3 && leaves[1].kind == Float && leaves[1].field.precision == 2
    ensures env.Number(ws[1].u) == 1.0 && env.Number(vals[leaves[1].path].f) == 1.009
    ensures Changed(env, m, leaves[2], vals, ws[2]) && !Changed(env, m, leaves[1], vals, ws[1])
    ensures Run(ss, acts) && |acts| == 1 && acts[0].Flush? && acts[0].changes == [UpdateOf(env, m, leaves, vals, ws)]
    ensures ss[0].db == map[m.id as nat := OldRow(env, leaves, ws)] && Joins(ss[0], acts[0]) && !Coherent(ss[1])
  {
    hide Run, Coherent, Joins, ColumnKept, OldRow, BindRow, NewRow;
    hide AllComparable, AllStorable, AllDecodable, AllFit, Milli, MilliRound;
    env := MilliEnv();
    Price();
    m := Mode(1, true, false);
    leaves := [LeafAt(UInt, Plain(1, "ID")), LeafAt(Float, Plain(2, "Price")), LeafAt(UInt, Plain(3, "Count"))];
    vals, ws := map[[1] := UIntV(1), [2] := FloatV(1009), [3] := UIntV(6)], [U(1), U(1000), U(5)];
    PriceUpdate(env, m, leaves, vals, ws);
    UpdateKept(env, m, leaves, vals, ws);
    ss, acts := UnkeptRun(UpdateOf(env, m, leaves, vals, ws));
  }

  /** An insert with an empty enum that is required: the row has the default, the cached record has none. */
  lemma DefaultedEnum(env: Env, m: Mode, id: uint64, leaves: seq<Leaf>, vals: Values, i: nat) returns (ss: seq<State>, acts: seq<CacheCoherence.Action>)
    requires env.Valid() && Zones(env) && !m.inDB && DistinctColumns(leaves) && AllFit(leaves, vals) && AllStorable(env, leaves, vals)
    requires i < |leaves| && leaves[i].kind == Enum && leaves[i].field.required && vals[leaves[i].path] == EnumV([])
    ensures Run(ss, acts) && |acts| == 1 && acts[0].Flush? && acts[0].changes == [InsertOf(env, m, id, leaves, vals)]
    ensures !Coherent(ss[1])
  {
    hide Run, Coherent, AllStorable, InsertOf;
    InsertKept(env, m, id, leaves, vals);
    assert LeafFits(leaves[i], vals) && !KeptAsWritten(env, leaves[i].kind, leaves[i].field, m.id, false, vals[leaves[i].path]);
    ss, acts := UnkeptRun(InsertOf(env, m, id, leaves, vals));
  }

  // ---------------------------------------------------------------- runs of flushed entities

  /** The change saves a loaded entity whose columns are all kept. */
  ghost predicate SavesLoaded(c: Change, env: Env, m: Mode, leaves: seq<Leaf>, vals: Values, ws: seq<Wire>) {
    && Updates(env, m, leaves, vals, ws) && c == UpdateOf(env, m, leaves, vals, ws)
    && forall i :: 0 <= i < |leaves| ==> ColumnKept(env, m, leaves[i], vals, ws[i])
  }

  /** The change saves a new one. */
  ghost predicate SavesNew(c: Change, env: Env, m: Mode, id: uint64, leaves: seq<Leaf>, vals: Values) {
    && env.Valid() && Zones(env) && !m.inDB && DistinctColumns(leaves) && AllFit(leaves, vals) && AllStorable(env, leaves, vals)
    && c == InsertOf(env, m, id, leaves, vals)
    && forall i :: 0 <= i < |leaves| ==> KeptAsWritten(env, leaves[i].kind, leaves[i].field, m.id, false, vals[leaves[i].path])
  }

  /** Some entity is saved, all its columns kept, or one is deleted. */
  ghost predicate SavesEntity(c: Change) {
    || c.Delete?
    || (exists env, m, leaves, vals, ws :: SavesLoaded(c, env, m, leaves, vals, ws))
    || (exists env, m, id, leaves, vals :: SavesNew(c, env, m, id, leaves, vals))
  }

  lemma EntityKept(c: Change)
    requires SavesEntity(c)
    ensures Kept(c)
  {
    hide SavesLoaded, SavesNew, Kept;
    if env, m, leaves, vals, ws :| SavesLoaded(c, env, m, leaves, vals, ws) {
      LoadedKept(c, env, m, leaves, vals, ws);
    } else if env, m, id, leaves, vals :| SavesNew(c, env, m, id, leaves, vals) {
      NewKept(c, env, m, id, leaves, vals);
    } else {
      DeleteKept(c);
    }
  }

  lemma LoadedKept(c: Change, env: Env, m: Mode, leaves: seq<Leaf>, vals: Values, ws: seq<Wire>)
    requires SavesLoaded(c, env, m, leaves, vals, ws)
    ensures Kept(c)
  {
    hide Kept, UpdateOf, ColumnKept, AllStorable;
    UpdateKept(env, m, leaves, vals, ws);
  }

  lemma NewKept(c: Change, env: Env, m: Mode, id: uint64, leaves: seq<Leaf>, vals: Values)
    requires SavesNew(c, env, m, id, leaves, vals)
    ensures Kept(c)
  {
    hide Kept, InsertOf, KeptAsWritten, AllStorable;
    InsertKept(env, m, id, leaves, vals);
  }

  lemma DeleteKept(c: Change)
    requires c.Delete?
    ensures Kept(c)
  {
  }

  /**
   * In every run that flushes such entities only, and whose flushers cover what their transaction has changed, the
   * caches are coherent and every load returns the committed row.
   */
  lemma EntityRunCoherent(ss: seq<State>, acts: seq<CacheCoherence.Action>, i: nat)
    requires Run(ss, acts) && i < |ss| && forall j :: 0 <= j < |acts| ==> Joins(ss[j], acts[j])
    requires forall j :: 0 <= j < |acts| && acts[j].Flush? && ss[j].hasLocal ==> forall c <- acts[j].changes :: SavesEntity(c)
    ensures Coherent(ss[i])
    ensures i < |acts| && acts[i].Load? ==> Loaded(ss[i], acts[i].id).1 == Find(ss[i].db, acts[i].id)
  {
    hide Next, Enabled, Init, Joins, SavesEntity, Kept, Coherent, Loaded, Find;
    forall j | 0 <= j < |acts| ensures Joins(ss[j], acts[j]) && Faithful(ss[j], acts[j]) {
      if acts[j].Flush? && ss[j].hasLocal {
        forall c | c in acts[j].changes ensures Kept(c) {
          EntityKept(c);
        }
      }
    }
    RunCoherent(ss, acts, i);
    InvCoherent(ss[i]);
  }

  lemma InvCoherent(s: State)
    requires Inv(s)
    ensures Coherent(s)
  {
  }
}
