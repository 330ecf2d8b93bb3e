/**
 * The keys of the lists a saved entity leaves and joins, as the comparison with its record makes them out, against
 * what MySQL holds.
 */
module RowKeys {
  import opened Wrappers
  import opened SerializerBuffer
  import opened RecordSchema
  import opened RecordCodec
  import opened RecordTraversal
  import opened DirtyValues
  import opened DirtyDiff
  import opened RowWrites
  import QueryKeys

  // ---------------------------------------------------------------- one column

  /** What MySQL holds of a record: a required list of references without any is an empty JSON list there. */
  function HeldOld(env: Env, k: Kind, f: Field, id: uint64, w: Wire): Column
    requires Decodable(k, f, w)
  {
    if k == RefsMany && f.required && w.us == [] then IdsC([]) else OldColumn(env, k, f, id, w)
  }

  /** What MySQL holds once v has been saved. */
  function Held(env: Env, k: Kind, f: Field, id: uint64, inDB: bool, v: Value): Column
    requires env.Valid() && Fits(k, f, v) && SmallEnum(f)
  {
    BackDecodable(env, k, f, id, inDB, v);
    HeldOld(env, k, f, id, ReadBack(env, k, f, Saved(env, k, f, id, inDB, v)))
  }

  /** The offset that is taken off a column that cannot be NULL. */
  function Offset(env: Env, local: int): int {
    if local > env.timeOffset then env.timeOffset else 0
  }

  /** When MySQL holds what it was given. */
  predicate HeldAsSaved(env: Env, k: Kind, f: Field, v: Value)
    requires Fits(k, f, v)
  {
    match k
    case Float => StoredFloat(env, f, v.f) == v.f
    case FloatNull => v.fn.Some? ==> StoredFloat(env, f, v.fn.value) == v.fn.value
    case Time => v.t == ZERO_TIME || env.zone == Offset(env, v.t + env.zone)
    case Date => 0 <= env.zone - Offset(env, Midnight(env, v.t) + env.zone) < 86400
    case TimeNull => v.tn.Some? ==> env.timeOffset == if v.tn.value == ZERO_TIME then 0 else env.zone
    case DateNull => v.tn.Some? ==> 0 <= env.zone - env.timeOffset < 86400
    case Set => List(v.set_) == SetHeld(f.members, List(v.set_))
    case RefsMany => f.required ==> List(v.refs) != []
    case _ => true
  }

  lemma DayOf(env: Env, day: int, back: int64)
    requires -I64 <= 86400 * day < I64
    ensures Day(env, back) == day <==> 0 <= back + env.zone - 86400 * day < 86400
  {
  }

  lemma HeldTime(env: Env, k: Kind, f: Field, id: uint64, inDB: bool, v: Value)
    requires k == Time || k == TimeNull
    requires env.Valid() && Zones(env) && Fits(k, f, v) && Storable(env, k, f, v)
    ensures Held(env, k, f, id, inDB, v) == Saved(env, k, f, id, inDB, v) <==> HeldAsSaved(env, k, f, v)
  {
    hide Wrap, RowTime, RowTimeNull, ToSeconds, DecodedTime, Midnight;
    if k == Time {
      RowTimeIs(env, LocalTime(env, v.t));
    } else if v.tn.Some? {
      RowTimeNullIs(env, LocalTime(env, v.tn.value));
    }
  }

  lemma HeldDate(env: Env, k: Kind, f: Field, id: uint64, inDB: bool, v: Value)
    requires k == Date || k == DateNull
    requires env.Valid() && Zones(env) && Fits(k, f, v) && Storable(env, k, f, v)
    ensures Held(env, k, f, id, inDB, v) == Saved(env, k, f, id, inDB, v) <==> HeldAsSaved(env, k, f, v)
  {
    hide Wrap, RowTime, RowTimeNull, ToSeconds, DecodedTime, Midnight, Day;
    if k == Date {
      var day := Day(env, v.t);
      MidnightNear(env, v.t);
      RowTimeIs(env, 86400 * day);
      DayOf(env, day, 86400 * day - Offset(env, 86400 * day));
    } else if v.tn.Some? {
      var day := Day(env, v.tn.value);
      MidnightNear(env, v.tn.value);
      RowTimeNullIs(env, 86400 * day);
      DayOf(env, day, 86400 * day - env.timeOffset);
    }
  }

  lemma HeldSet(env: Env, f: Field, id: uint64, inDB: bool, v: Value)
    requires env.Valid() && Fits(Set, f, v) && Storable(env, Set, f, v)
    ensures Held(env, Set, f, id, inDB, v) == Saved(env, Set, f, id, inDB, v) <==> HeldAsSaved(env, Set, f, v)
  {
    hide SetHeld, Members;
    var ts := List(v.set_);
    if ts == [] {
      NoneHeld(f.members);
    } else {
      var back := SetHeld(f.members, ts);
      MembersInverse(f, back);
      BackDecodable(env, Set, f, id, inDB, v);
      assert ReadBack(env, Set, f, Saved(env, Set, f, id, inDB, v)) == L(Indexes(f.members, back));
    }
  }

  lemma HeldOther(env: Env, k: Kind, f: Field, id: uint64, inDB: bool, v: Value)
    requires !InSeconds(k) && k != Set && env.Valid() && Fits(k, f, v) && Storable(env, k, f, v)
    ensures Held(env, k, f, id, inDB, v) == Saved(env, k, f, id, inDB, v) <==> HeldAsSaved(env, k, f, v)
  {
    hide SetHeld, RowTime, RowTimeNull, ToSeconds, Midnight, Day, Rounded;
  }

  /** MySQL holds what it was given exactly under that condition. */
  lemma HeldExact(env: Env, k: Kind, f: Field, id: uint64, inDB: bool, v: Value)
    requires env.Valid() && Zones(env) && Fits(k, f, v) && Storable(env, k, f, v)
    ensures Held(env, k, f, id, inDB, v) == Saved(env, k, f, id, inDB, v) <==> HeldAsSaved(env, k, f, v)
  {
    hide Held, Saved, HeldAsSaved, Storable;
    if k == Set {
      HeldSet(env, f, id, inDB, v);
    } else if k == Time || k == TimeNull {
      HeldTime(env, k, f, id, inDB, v);
    } else if k == Date || k == DateNull {
      HeldDate(env, k, f, id, inDB, v);
    } else {
      HeldOther(env, k, f, id, inDB, v);
    }
  }

  // ---------------------------------------------------------------- the rows and the change

  /** The columns of a table: different names, ID only for the entity's own. */
  ghost predicate TableLeaves(leaves: seq<Leaf>) {
    DistinctColumns(leaves) && forall i :: 0 <= i < |leaves| ==> (IsId(leaves[i]) <==> leaves[i].column == QueryKeys.ID)
  }

  predicate HasColumn(leaves: seq<Leaf>, f: string) {
    exists i :: 0 <= i < |leaves| && leaves[i].column == f
  }

  /** The columns a query asks for or orders by are the table's. */
  ghost predicate NamesColumns(q: QueryKeys.Query, hasFakeDelete: bool, leaves: seq<Leaf>) {
    && (forall f :: f in q.conjuncts + q.orders ==> HasColumn(leaves, f))
    && (hasFakeDelete ==> HasColumn(leaves, QueryKeys.FAKE_DELETE))
  }

  /** Everything is as it must be for an entity with these columns to be saved. */
  ghost predicate Comparing(env: Env, m: Mode, leaves: seq<Leaf>, vals: Values, ws: seq<Wire>) {
    && env.Valid() && Zones(env) && TableLeaves(leaves) && AllComparable(m, leaves, vals, ws)
    && AllFit(leaves, vals) && AllStorable(env, leaves, vals) && (m.inDB ==> AllDecodable(leaves, ws) && m.hasCurrent)
  }

  function Was(env: Env, m: Mode, l: Leaf, w: Wire): Column
    requires Decodable(l.kind, l.field, w)
  {
    HeldOld(env, l.kind, l.field, m.id, w)
  }

  /** When the old content of a column is told right: it is recorded as the record has it, and MySQL holds that. */
  predicate OldIsTold(env: Env, l: Leaf, vals: Values, w: Wire)
    requires LeafFits(l, vals) && Shaped(l.kind, w)
  {
    CurrentIsOld(env, l.kind, l.field, w, vals[l.path]) && (l.kind == RefsMany && l.field.required ==> w.us != [])
  }

  /** A column that was not saved is as it was, any other as MySQL holds it. */
  function Is(env: Env, m: Mode, l: Leaf, vals: Values, w: Wire): Column
    requires env.Valid() && Comparable(l, m, vals, w) && SmallEnum(l.field)
  {
    if Changed(env, m, l, vals, w) || !m.inDB then Held(env, l.kind, l.field, m.id, m.inDB, vals[l.path]) else Was(env, m, l, w)
  }

  ghost function WasRow(env: Env, m: Mode, leaves: seq<Leaf>, ws: seq<Wire>): QueryKeys.Row
    requires DistinctColumns(leaves) && AllDecodable(leaves, ws)
  {
    map i | 0 <= i < |leaves| && !IsId(leaves[i]) :: leaves[i].column := Was(env, m, leaves[i], ws[i])
  }

  ghost function IsRow(env: Env, m: Mode, leaves: seq<Leaf>, vals: Values, ws: seq<Wire>): QueryKeys.Row
    requires Comparing(env, m, leaves, vals, ws)
  {
    map i | 0 <= i < |leaves| && !IsId(leaves[i]) && Comparable(leaves[i], m, vals, ws[i]) && SmallEnum(leaves[i].field) ::
      leaves[i].column := Is(env, m, leaves[i], vals, ws[i])
  }

  /** The entity is saved, or when it is there no more, deleted. id is the row's; a new one gets it after the comparison. */
  ghost function ChangeOf(env: Env, m: Mode, id: uint64, leaves: seq<Leaf>, vals: Values, ws: seq<Wire>, deleted: bool): QueryKeys.Change
    requires Comparing(env, m, leaves, vals, ws)
  {
    var d := DiffOf(env, m, leaves, vals, ws, Diff(map[], map[]));
    QueryKeys.Change(id, if m.inDB then Some(WasRow(env, m, leaves, ws)) else None,
      if deleted then None else Some(IsRow(env, m, leaves, vals, ws)), d.bind, d.current)
  }

  lemma RowsAt(env: Env, m: Mode, id: uint64, leaves: seq<Leaf>, vals: Values, ws: seq<Wire>, i: nat)
    requires Comparing(env, m, leaves, vals, ws) && i < |leaves| && !IsId(leaves[i])
    ensures Comparable(leaves[i], m, vals, ws[i]) && SmallEnum(leaves[i].field)
    ensures
      var c, l := ChangeOf(env, m, id, leaves, vals, ws, false), leaves[i];
      && l.column in c.after.value && c.after.value[l.column] == Is(env, m, l, vals, ws[i])
      && (m.inDB ==> Decodable(l.kind, l.field, ws[i]) && l.column in c.before.value && c.before.value[l.column] == Was(env, m, l, ws[i]))
  {
    hide Was, Is, DiffOf, Fits, Decodable;
    StorableSmall(env, leaves[i].kind, leaves[i].field, vals[leaves[i].path]);
  }

  /** What the flush takes the old content of a column for, and the new. */
  function Told(d: Diff, column: string, old': bool): Column {
    if column !in d.bind || old' then QueryKeys.Lookup(d.current, column) else d.bind[column]
  }

  /** When the new content of a column is told right. */
  predicate NewRight(env: Env, m: Mode, l: Leaf, vals: Values, w: Wire)
    requires Comparable(l, m, vals, w)
  {
    if m.inDB && Same(env, l.kind, l.field, w, vals[l.path]) then OldIsTold(env, l, vals, w)
    else HeldAsSaved(env, l.kind, l.field, vals[l.path])
  }

  lemma OldTold(env: Env, m: Mode, leaves: seq<Leaf>, vals: Values, ws: seq<Wire>, i: nat)
    requires Comparing(env, m, leaves, vals, ws) && m.inDB && i < |leaves| && !IsId(leaves[i])
    requires Comparable(leaves[i], m, vals, ws[i])
    ensures
      var d, l := DiffOf(env, m, leaves, vals, ws, Diff(map[], map[])), leaves[i];
      Told(d, l.column, true) == Was(env, m, l, ws[i]) <==> OldIsTold(env, l, vals, ws[i])
  {
    hide DiffOf, AllStorable, Same, Saved;
    var l := leaves[i];
    CurrentAt(env, m, leaves, vals, ws, Diff(map[], map[]), i);
    CurrentExact(env, l.kind, l.field, m.id, ws[i], vals[l.path]);
    NothingTold(env, l.kind, l.field, m.id, ws[i], vals[l.path]);
    NoReferencesTold(env, l.field, m.id, ws[i], vals[l.path], l.kind);
  }

  /** Only a list of references that was there and is cleared is not recorded. */
  lemma NothingTold(env: Env, k: Kind, f: Field, id: uint64, w: Wire, v: Value)
    requires Fits(k, f, v) && Decodable(k, f, w)
    ensures Current(env, k, f, id, w, v).None? ==> OldColumn(env, k, f, id, w) != Null
  {
  }

  /** An empty list that is required is recorded as an empty text. */
  lemma NoReferencesTold(env: Env, f: Field, id: uint64, w: Wire, v: Value, k: Kind)
    requires Fits(k, f, v) && Decodable(k, f, w)
    ensures k == RefsMany && f.required && w.us == [] ==> Current(env, k, f, id, w, v) == Some(TextC([]))
  {
  }

  lemma NewTold(env: Env, m: Mode, leaves: seq<Leaf>, vals: Values, ws: seq<Wire>, i: nat)
    requires Comparing(env, m, leaves, vals, ws) && i < |leaves| && !IsId(leaves[i])
    requires Comparable(leaves[i], m, vals, ws[i]) && SmallEnum(leaves[i].field)
    ensures
      var d, l := DiffOf(env, m, leaves, vals, ws, Diff(map[], map[])), leaves[i];
      Told(d, l.column, false) == Is(env, m, l, vals, ws[i]) <==> NewRight(env, m, l, vals, ws[i])
  {
    hide DiffOf, Same, Saved, Storable, HeldAsSaved, OldIsTold, Held, Was;
    var l := leaves[i];
    BindAt(env, m, leaves, vals, ws, Diff(map[], map[]), i);
    assert Storable(env, l.kind, l.field, vals[l.path]);
    if Changed(env, m, l, vals, ws[i]) {
      HeldExact(env, l.kind, l.field, m.id, m.inDB, vals[l.path]);
    } else {
      OldTold(env, m, leaves, vals, ws, i);
    }
  }

  // ---------------------------------------------------------------- the keys

  /** Every column the query asks for is recorded as MySQL held it. */
  ghost predicate OldRight(env: Env, m: Mode, leaves: seq<Leaf>, vals: Values, ws: seq<Wire>, q: QueryKeys.Query)
    requires Comparing(env, m, leaves, vals, ws) && m.inDB
  {
    forall i :: 0 <= i < |leaves| && leaves[i].column in q.conjuncts && Comparable(leaves[i], m, vals, ws[i]) ==>
      OldIsTold(env, leaves[i], vals, ws[i])
  }

  ghost predicate AllNewRight(env: Env, m: Mode, leaves: seq<Leaf>, vals: Values, ws: seq<Wire>, q: QueryKeys.Query)
    requires Comparing(env, m, leaves, vals, ws)
  {
    forall i :: 0 <= i < |leaves| && leaves[i].column in q.conjuncts && Comparable(leaves[i], m, vals, ws[i]) ==>
      NewRight(env, m, leaves[i], vals, ws[i])
  }

  /**
   * The key of the list the row was on has the right arguments exactly when every column the query asks for is
   * recorded as it was.
   */
  lemma OldKeyExact(env: Env, m: Mode, leaves: seq<Leaf>, vals: Values, ws: seq<Wire>, deleted: bool,
                    q: QueryKeys.Query, hasFakeDelete: bool)
    requires Comparing(env, m, leaves, vals, ws) && m.inDB && QueryKeys.Usable(q, hasFakeDelete) && NamesColumns(q, hasFakeDelete, leaves)
    ensures
      var c := ChangeOf(env, m, m.id, leaves, vals, ws, deleted);
      QueryKeys.OldKey(q, hasFakeDelete, c) == QueryKeys.Columns(m.id, c.before.value, q.conjuncts)
      <==> OldRight(env, m, leaves, vals, ws, q)
  {
    hide DiffOf, OldIsTold, QueryKeys.KeyFields, Was, AllStorable, WasRow, IsRow, Told;
    var d := DiffOf(env, m, leaves, vals, ws, Diff(map[], map[]));
    var c := ChangeOf(env, m, m.id, leaves, vals, ws, deleted);
    QueryKeys.WellNamedKeys(q, hasFakeDelete);
    var made, stands := QueryKeys.OldKey(q, hasFakeDelete, c), QueryKeys.Columns(m.id, c.before.value, q.conjuncts);
    forall j, i | 0 <= j < |q.conjuncts| && 0 <= i < |leaves| && leaves[i].column == q.conjuncts[j]
      ensures !IsId(leaves[i]) && Comparable(leaves[i], m, vals, ws[i])
      ensures made[j] == stands[j] <==> OldIsTold(env, leaves[i], vals, ws[i])
    {
      RowsAt(env, m, m.id, leaves, vals, ws, i);
      OldTold(env, m, leaves, vals, ws, i);
      ToldOld(q, hasFakeDelete, c, d, j);
    }
    Everywhere(q, hasFakeDelete, leaves);
  }

  lemma ToldOld(q: QueryKeys.Query, hasFakeDelete: bool, c: QueryKeys.Change, d: Diff, j: nat)
    requires c.bind == d.bind && c.current == d.current && j < |q.conjuncts|
    requires QueryKeys.KeyFields(q, hasFakeDelete) == q.conjuncts
    ensures j < |QueryKeys.OldKey(q, hasFakeDelete, c)| && QueryKeys.OldKey(q, hasFakeDelete, c)[j] == Told(d, q.conjuncts[j], true)
  {
    hide QueryKeys.KeyFields;
  }

  lemma ToldNew(q: QueryKeys.Query, hasFakeDelete: bool, c: QueryKeys.Change, d: Diff, j: nat)
    requires c.bind == d.bind && c.current == d.current && j < |q.conjuncts|
    requires QueryKeys.KeyFields(q, hasFakeDelete) == q.conjuncts
    requires c.before.None? ==> q.conjuncts[j] in d.bind
    ensures j < |QueryKeys.NewKey(q, hasFakeDelete, c)| && QueryKeys.NewKey(q, hasFakeDelete, c)[j] == Told(d, q.conjuncts[j], false)
  {
    hide QueryKeys.KeyFields;
  }

  lemma Everywhere(q: QueryKeys.Query, hasFakeDelete: bool, leaves: seq<Leaf>)
    requires NamesColumns(q, hasFakeDelete, leaves)
    ensures forall j :: 0 <= j < |q.conjuncts| ==> HasColumn(leaves, q.conjuncts[j])
  {
    forall j | 0 <= j < |q.conjuncts| ensures HasColumn(leaves, q.conjuncts[j]) {
      assert q.conjuncts[j] in q.conjuncts + q.orders;
    }
  }

  /**
   * The key of the list the row is on has the right arguments exactly when every column the query asks for either is saved
   * and held as it was saved, or counts as unchanged and is recorded as it was.
   */
  lemma NewKeyExact(env: Env, m: Mode, id: uint64, leaves: seq<Leaf>, vals: Values, ws: seq<Wire>, q: QueryKeys.Query, hasFakeDelete: bool)
    requires Comparing(env, m, leaves, vals, ws) && QueryKeys.Usable(q, hasFakeDelete) && NamesColumns(q, hasFakeDelete, leaves)
    ensures
      var c := ChangeOf(env, m, id, leaves, vals, ws, false);
      QueryKeys.NewKey(q, hasFakeDelete, c) == QueryKeys.Columns(id, c.after.value, q.conjuncts)
      <==> AllNewRight(env, m, leaves, vals, ws, q)
  {
    hide DiffOf, NewRight, QueryKeys.KeyFields, Is, AllStorable, WasRow, IsRow, Told;
    var d := DiffOf(env, m, leaves, vals, ws, Diff(map[], map[]));
    var c := ChangeOf(env, m, id, leaves, vals, ws, false);
    QueryKeys.WellNamedKeys(q, hasFakeDelete);
    var made, stands := QueryKeys.NewKey(q, hasFakeDelete, c), QueryKeys.Columns(id, c.after.value, q.conjuncts);
    forall j, i | 0 <= j < |q.conjuncts| && 0 <= i < |leaves| && leaves[i].column == q.conjuncts[j]
      ensures !IsId(leaves[i]) && Comparable(leaves[i], m, vals, ws[i])
      ensures made[j] == stands[j] <==> NewRight(env, m, leaves[i], vals, ws[i])
    {
      RowsAt(env, m, id, leaves, vals, ws, i);
      NewTold(env, m, leaves, vals, ws, i);
      BindAt(env, m, leaves, vals, ws, Diff(map[], map[]), i);
      ToldNew(q, hasFakeDelete, c, d, j);
    }
    Everywhere(q, hasFakeDelete, leaves);
  }

  /** What is not in bind is as it was. */
  lemma ChangeFits(env: Env, m: Mode, id: uint64, leaves: seq<Leaf>, vals: Values, ws: seq<Wire>, deleted: bool, q: QueryKeys.Query, hasFakeDelete: bool)
    requires Comparing(env, m, leaves, vals, ws) && NamesColumns(q, hasFakeDelete, leaves)
    requires deleted ==> m.inDB
    ensures QueryKeys.Fitting(ChangeOf(env, m, id, leaves, vals, ws, deleted), q, hasFakeDelete)
  {
    hide DiffOf, Is, Was, AllStorable, WasRow, IsRow, Comparable, Decodable;
    var c := ChangeOf(env, m, id, leaves, vals, ws, false);
    RowKeysAre(env, m, id, leaves, vals, ws);
    forall i | 0 <= i < |leaves| && !IsId(leaves[i])
      ensures leaves[i].column in c.after.value && (m.inDB ==> leaves[i].column in c.before.value)
      ensures m.inDB && leaves[i].column !in c.bind ==> c.after.value[leaves[i].column] == c.before.value[leaves[i].column]
    {
      RowsAt(env, m, id, leaves, vals, ws, i);
      BindAt(env, m, leaves, vals, ws, Diff(map[], map[]), i);
      if m.inDB {
        UnsavedIs(env, m, leaves[i], vals, ws[i]);
      }
    }
  }

  lemma UnsavedIs(env: Env, m: Mode, l: Leaf, vals: Values, w: Wire)
    requires env.Valid() && Comparable(l, m, vals, w) && SmallEnum(l.field) && m.inDB
    ensures !Changed(env, m, l, vals, w) ==> Is(env, m, l, vals, w) == Was(env, m, l, w)
  {
  }

  lemma RowKeysAre(env: Env, m: Mode, id: uint64, leaves: seq<Leaf>, vals: Values, ws: seq<Wire>)
    requires Comparing(env, m, leaves, vals, ws)
    ensures
      var c := ChangeOf(env, m, id, leaves, vals, ws, false);
      && c.after.value.Keys == (set i | 0 <= i < |leaves| && !IsId(leaves[i]) :: leaves[i].column)
      && (m.inDB ==> c.before.value.Keys == c.after.value.Keys)
  {
    hide DiffOf, Is, Was, Fits, Decodable;
    var c := ChangeOf(env, m, id, leaves, vals, ws, false);
    forall i | 0 <= i < |leaves| && !IsId(leaves[i]) ensures leaves[i].column in c.after.value {
      RowsAt(env, m, id, leaves, vals, ws, i);
    }
  }

  /** Saving a new entity removes every list it joins exactly when it joins none or MySQL holds its columns as they were saved. */
  lemma InsertedCovered(env: Env, m: Mode, id: uint64, leaves: seq<Leaf>, vals: Values, ws: seq<Wire>, index: QueryKeys.Index, hasFakeDelete: bool)
    requires Comparing(env, m, leaves, vals, ws) && !m.inDB && QueryKeys.Usable(index.query, hasFakeDelete)
    requires NamesColumns(index.query, hasFakeDelete, leaves)
    ensures
      var c := ChangeOf(env, m, id, leaves, vals, ws, false);
      QueryKeys.Covered(index, hasFakeDelete, c)
      <==> (QueryKeys.On(index.query, hasFakeDelete, id, c.after, QueryKeys.Columns(id, c.after.value, index.query.conjuncts)) ==>
             AllNewRight(env, m, leaves, vals, ws, index.query))
  {
    hide QueryKeys.OldKey, QueryKeys.NewKey, QueryKeys.Columns, QueryKeys.Matches;
    hide QueryKeys.Fitting, QueryKeys.Covered, AllNewRight;
    hide DiffOf, WasRow, IsRow;
    NewKeyExact(env, m, id, leaves, vals, ws, index.query, hasFakeDelete);
    ChangeFits(env, m, id, leaves, vals, ws, false, index.query, hasFakeDelete);
    QueryKeys.CoveredExact(index, hasFakeDelete, ChangeOf(env, m, id, leaves, vals, ws, false));
  }

  /** What the new content of a column is told to be is what MySQL held before. */
  predicate NewToldOld(env: Env, m: Mode, l: Leaf, vals: Values, w: Wire)
    requires Comparable(l, m, vals, w) && Decodable(l.kind, l.field, w)
  {
    if Same(env, l.kind, l.field, w, vals[l.path]) then OldIsTold(env, l, vals, w)
    else Saved(env, l.kind, l.field, m.id, true, vals[l.path]) == Was(env, m, l, w)
  }

  /** What the old content of a column is told to be is what MySQL holds now. */
  predicate OldToldNew(env: Env, m: Mode, l: Leaf, vals: Values, w: Wire)
    requires env.Valid() && Comparable(l, m, vals, w) && Decodable(l.kind, l.field, w) && SmallEnum(l.field)
  {
    if Same(env, l.kind, l.field, w, vals[l.path]) then OldIsTold(env, l, vals, w)
    else
      var c := Current(env, l.kind, l.field, m.id, w, vals[l.path]);
      (if c.Some? then c.value else Null) == Held(env, l.kind, l.field, m.id, true, vals[l.path])
  }

  ghost predicate NewKeyOld(env: Env, m: Mode, leaves: seq<Leaf>, vals: Values, ws: seq<Wire>, q: QueryKeys.Query)
    requires Comparing(env, m, leaves, vals, ws) && m.inDB
  {
    forall i :: 0 <= i < |leaves| && leaves[i].column in q.conjuncts && Comparable(leaves[i], m, vals, ws[i]) ==>
      NewToldOld(env, m, leaves[i], vals, ws[i])
  }

  ghost predicate OldKeyNew(env: Env, m: Mode, leaves: seq<Leaf>, vals: Values, ws: seq<Wire>, q: QueryKeys.Query)
    requires Comparing(env, m, leaves, vals, ws) && m.inDB
  {
    forall i :: 0 <= i < |leaves| && leaves[i].column in q.conjuncts && Comparable(leaves[i], m, vals, ws[i]) && SmallEnum(leaves[i].field) ==>
      OldToldNew(env, m, leaves[i], vals, ws[i])
  }

  lemma CrossTold(env: Env, m: Mode, leaves: seq<Leaf>, vals: Values, ws: seq<Wire>, i: nat)
    requires Comparing(env, m, leaves, vals, ws) && m.inDB && i < |leaves| && !IsId(leaves[i])
    requires Comparable(leaves[i], m, vals, ws[i]) && SmallEnum(leaves[i].field)
    ensures
      var d, l := DiffOf(env, m, leaves, vals, ws, Diff(map[], map[])), leaves[i];
      && (Told(d, l.column, false) == Was(env, m, l, ws[i]) <==> NewToldOld(env, m, l, vals, ws[i]))
      && (Told(d, l.column, true) == Is(env, m, l, vals, ws[i]) <==> OldToldNew(env, m, l, vals, ws[i]))
  {
    hide DiffOf, Same, Saved, Storable, OldIsTold, Held, Was, Current;
    BindAt(env, m, leaves, vals, ws, Diff(map[], map[]), i);
    CurrentAt(env, m, leaves, vals, ws, Diff(map[], map[]), i);
    OldTold(env, m, leaves, vals, ws, i);
  }

  /** When the key of one of the two lists is that of the other, column by column. */
  lemma CrossKeys(env: Env, m: Mode, leaves: seq<Leaf>, vals: Values, ws: seq<Wire>, q: QueryKeys.Query, hasFakeDelete: bool)
    requires Comparing(env, m, leaves, vals, ws) && m.inDB && QueryKeys.Usable(q, hasFakeDelete) && NamesColumns(q, hasFakeDelete, leaves)
    ensures
      var c := ChangeOf(env, m, m.id, leaves, vals, ws, false);
      && (QueryKeys.NewKey(q, hasFakeDelete, c) == QueryKeys.Columns(m.id, c.before.value, q.conjuncts)
          <==> NewKeyOld(env, m, leaves, vals, ws, q))
      && (QueryKeys.OldKey(q, hasFakeDelete, c) == QueryKeys.Columns(m.id, c.after.value, q.conjuncts)
          <==> OldKeyNew(env, m, leaves, vals, ws, q))
  {
    hide DiffOf, NewToldOld, OldToldNew, QueryKeys.KeyFields, Was, Is, AllStorable, WasRow, IsRow, Told;
    var d := DiffOf(env, m, leaves, vals, ws, Diff(map[], map[]));
    var c := ChangeOf(env, m, m.id, leaves, vals, ws, false);
    QueryKeys.WellNamedKeys(q, hasFakeDelete);
    var old', new' := QueryKeys.OldKey(q, hasFakeDelete, c), QueryKeys.NewKey(q, hasFakeDelete, c);
    var was, now := QueryKeys.Columns(m.id, c.before.value, q.conjuncts), QueryKeys.Columns(m.id, c.after.value, q.conjuncts);
    forall j, i | 0 <= j < |q.conjuncts| && 0 <= i < |leaves| && leaves[i].column == q.conjuncts[j]
      ensures !IsId(leaves[i]) && Comparable(leaves[i], m, vals, ws[i]) && SmallEnum(leaves[i].field)
      ensures new'[j] == was[j] <==> NewToldOld(env, m, leaves[i], vals, ws[i])
      ensures old'[j] == now[j] <==> OldToldNew(env, m, leaves[i], vals, ws[i])
    {
      RowsAt(env, m, m.id, leaves, vals, ws, i);
      CrossTold(env, m, leaves, vals, ws, i);
      ToldOld(q, hasFakeDelete, c, d, j);
      ToldNew(q, hasFakeDelete, c, d, j);
    }
    Everywhere(q, hasFakeDelete, leaves);
  }

  /**
   * Saving a loaded entity removes every list it leaves, joins or moves on exactly when the columns of the list it was on
   * are recorded as MySQL held them and those of the list it is on are told right, or those of one are told as the other's.
   */
  lemma UpdatedCovered(env: Env, m: Mode, leaves: seq<Leaf>, vals: Values, ws: seq<Wire>, index: QueryKeys.Index, hasFakeDelete: bool)
    requires Comparing(env, m, leaves, vals, ws) && m.inDB && QueryKeys.Usable(index.query, hasFakeDelete)
    requires NamesColumns(index.query, hasFakeDelete, leaves)
    ensures
      var c, q := ChangeOf(env, m, m.id, leaves, vals, ws, false), index.query;
      var was, now := QueryKeys.Columns(m.id, c.before.value, q.conjuncts), QueryKeys.Columns(m.id, c.after.value, q.conjuncts);
      QueryKeys.Covered(index, hasFakeDelete, c)
      <==> && (QueryKeys.ListChanges(q, hasFakeDelete, c, was) ==>
                OldRight(env, m, leaves, vals, ws, q) || NewKeyOld(env, m, leaves, vals, ws, q))
           && (QueryKeys.ListChanges(q, hasFakeDelete, c, now) ==>
                AllNewRight(env, m, leaves, vals, ws, q) || OldKeyNew(env, m, leaves, vals, ws, q))
  {
    hide QueryKeys.OldKey, QueryKeys.NewKey, QueryKeys.Columns, QueryKeys.ListChanges;
    hide QueryKeys.Fitting, QueryKeys.Covered, OldRight, AllNewRight;
    hide DiffOf, WasRow, IsRow, NewKeyOld, OldKeyNew;
    OldKeyExact(env, m, leaves, vals, ws, false, index.query, hasFakeDelete);
    NewKeyExact(env, m, m.id, leaves, vals, ws, index.query, hasFakeDelete);
    CrossKeys(env, m, leaves, vals, ws, index.query, hasFakeDelete);
    ChangeFits(env, m, m.id, leaves, vals, ws, false, index.query, hasFakeDelete);
    QueryKeys.CoveredExact(index, hasFakeDelete, ChangeOf(env, m, m.id, leaves, vals, ws, false));
  }

  /** Deleting the entity removes every list it was on exactly when it was on none or its columns are recorded as they were. */
  lemma DeletedCovered(env: Env, m: Mode, leaves: seq<Leaf>, vals: Values, ws: seq<Wire>, index: QueryKeys.Index, hasFakeDelete: bool)
    requires Comparing(env, m, leaves, vals, ws) && m.inDB && QueryKeys.Usable(index.query, hasFakeDelete)
    requires NamesColumns(index.query, hasFakeDelete, leaves)
    ensures
      var c := ChangeOf(env, m, m.id, leaves, vals, ws, true);
      QueryKeys.Covered(index, hasFakeDelete, c)
      <==> (QueryKeys.On(index.query, hasFakeDelete, m.id, c.before, QueryKeys.Columns(m.id, c.before.value, index.query.conjuncts)) ==>
             OldRight(env, m, leaves, vals, ws, index.query))
  {
    hide QueryKeys.OldKey, QueryKeys.NewKey, QueryKeys.Columns, QueryKeys.Matches, QueryKeys.Fitting, QueryKeys.Covered, OldRight;
    hide DiffOf, WasRow, IsRow;
    OldKeyExact(env, m, leaves, vals, ws, true, index.query, hasFakeDelete);
    ChangeFits(env, m, m.id, leaves, vals, ws, true, index.query, hasFakeDelete);
    QueryKeys.CoveredExact(index, hasFakeDelete, ChangeOf(env, m, m.id, leaves, vals, ws, true));
  }

  // ---------------------------------------------------------------- lists that are missed

  function Tags(members: seq<Text>): Field {
    Field(2, "Tags", 0, members, [], false, None)
  }

  lemma TagsColumn(env: Env, a: Text, b: Text, m: Mode, l: Leaf, vals: Values)
    requires env.Valid() && Zones(env) && a != b && m == Mode(1, true, true) && l == LeafAt(Set, Tags([a, b]))
    requires [2] in vals && vals[[2]] == SetV(Some([a, b]))
    ensures Comparable(l, m, vals, L([1])) && Decodable(Set, l.field, L([1])) && Storable(env, Set, l.field, vals[l.path]) && !IsId(l)
    ensures Was(env, m, l, L([1])) == SetC([a]) && Is(env, m, l, vals, L([1])) == SetC([a, b])
    ensures !OldIsTold(env, l, vals, L([1])) && NewRight(env, m, l, vals, L([1]))
  {
    hide Index, SetHeld, Held, Saved;
    TwoInOrder(a, b);
    assert Members(l.field, [1]) == [a];
    assert Fits(Set, l.field, vals[l.path]);
    HeldExact(env, Set, l.field, 1, true, vals[l.path]);
    SavedSet(env, l.field, 1, [a, b]);
  }

  lemma SavedSet(env: Env, f: Field, id: uint64, ts: seq<Text>)
    requires Fits(Set, f, SetV(Some(ts))) && ts != []
    ensures Saved(env, Set, f, id, true, SetV(Some(ts))) == SetC(ts)
  {
  }

  lemma IdColumn(env: Env, m: Mode, l: Leaf, vals: Values)
    requires l == LeafAt(UInt, Plain(1, "ID")) && [1] in vals && vals[[1]].UIntV?
    ensures Comparable(l, m, vals, U(1)) && Decodable(UInt, l.field, U(1)) && Storable(env, UInt, l.field, vals[l.path]) && IsId(l)
  {
  }

  /** The ID and one more column. */
  lemma TwoColumns(env: Env, m: Mode, leaves: seq<Leaf>, vals: Values, w: Wire, x: Wire)
    requires env.Valid() && Zones(env) && m.hasCurrent && |leaves| == 2
    requires IsId(leaves[0]) && leaves[0].column == QueryKeys.ID && !IsId(leaves[1]) && leaves[1].column != QueryKeys.ID
    requires Comparable(leaves[0], m, vals, w) && Decodable(leaves[0].kind, leaves[0].field, w)
    requires Comparable(leaves[1], m, vals, x) && Decodable(leaves[1].kind, leaves[1].field, x)
    requires Storable(env, leaves[0].kind, leaves[0].field, vals[leaves[0].path])
    requires Storable(env, leaves[1].kind, leaves[1].field, vals[leaves[1].path])
    ensures Comparing(env, m, leaves, vals, [w, x])
  {
    hide Fits, Decodable, Storable, IsId, Env.Valid;
    var ws := [w, x];
    forall i | 0 <= i < |ws| ensures Comparable(leaves[i], m, vals, ws[i]) {}
    forall i | 0 <= i < |ws| ensures Decodable(leaves[i].kind, leaves[i].field, ws[i]) {}
    forall i | 0 <= i < |leaves| ensures LeafFits(leaves[i], vals) {}
    forall i | 0 <= i < |leaves| ensures LeafFits(leaves[i], vals) && Storable(env, leaves[i].kind, leaves[i].field, vals[leaves[i].path]) {}
  }

  lemma TwoInOrder(a: Text, b: Text)
    ensures SetHeld([a, b], [a, b]) == [a, b]
  {
    assert [a, b][..1] == [a] && [a][..0] == [] && InOrder([], [a, b]) == [];
    assert InOrder([a], [a, b]) == [] + [a];
  }

  /** The index of one column, and what a change does to its lists. */
  lemma OneColumnIndex(name: string)
    requires name != QueryKeys.ID
    ensures QueryKeys.Usable(QueryKeys.Query([name], false, []), false)
    ensures forall id, r :: QueryKeys.Columns(id, r, [name]) == [QueryKeys.Lookup(r, name)]
  {
  }

  lemma MovesLists(name: string, c: QueryKeys.Change)
    requires name != QueryKeys.ID && c.before.Some? && c.after.Some?
    requires QueryKeys.Lookup(c.before.value, name) != QueryKeys.Lookup(c.after.value, name)
    requires QueryKeys.Lookup(c.before.value, name) != Null && QueryKeys.Lookup(c.after.value, name) != Null
    ensures
      var q := QueryKeys.Query([name], false, []);
      && QueryKeys.ListChanges(q, false, c, QueryKeys.Columns(c.id, c.before.value, q.conjuncts))
      && QueryKeys.ListChanges(q, false, c, QueryKeys.Columns(c.id, c.after.value, q.conjuncts))
      && QueryKeys.Columns(c.id, c.before.value, q.conjuncts) != QueryKeys.Columns(c.id, c.after.value, q.conjuncts)
  {
    OneColumnIndex(name);
    var was, now := [QueryKeys.Lookup(c.before.value, name)], [QueryKeys.Lookup(c.after.value, name)];
    assert was[0] != now[0];
  }

  /** The second column moves the entity to another list, and just one of its contents is told wrong: that list is missed. */
  lemma MissedList(env: Env, m: Mode, leaves: seq<Leaf>, vals: Values, ws: seq<Wire>, index: QueryKeys.Index)
    returns (ss: seq<QueryKeys.State>, acts: seq<QueryKeys.Action>)
    requires Comparing(env, m, leaves, vals, ws) && m.inDB && |leaves| == |ws| == 2 && IsId(leaves[0]) && !IsId(leaves[1])
    requires index.query == QueryKeys.Query([leaves[1].column], false, [])
    requires Comparable(leaves[1], m, vals, ws[1]) && SmallEnum(leaves[1].field)
    requires Was(env, m, leaves[1], ws[1]) != Is(env, m, leaves[1], vals, ws[1])
    requires Was(env, m, leaves[1], ws[1]) != Null && Is(env, m, leaves[1], vals, ws[1]) != Null
    requires NewRight(env, m, leaves[1], vals, ws[1])
      != OldIsTold(env, leaves[1], vals, ws[1])
    ensures QueryKeys.Usable(index.query, false)
    ensures QueryKeys.Run([index], false, ss, acts) && |acts| == 2 && acts[1] == QueryKeys.Save(ChangeOf(env, m, m.id, leaves, vals, ws, false))
    ensures !QueryKeys.ListsRight([index], false, ss[2])
  {
    hide QueryKeys.Run, QueryKeys.ListsRight, QueryKeys.Covered, QueryKeys.Usable, QueryKeys.ListChanges;
    hide QueryKeys.Columns, DiffOf, Is, Was;
    hide WasRow, IsRow, OldIsTold, NewRight, AllStorable, AllComparable;
    hide AllDecodable, QueryKeys.OldKey, QueryKeys.NewKey, QueryKeys.Fitting, NewKeyOld, OldKeyNew;
    var q, c := index.query, ChangeOf(env, m, m.id, leaves, vals, ws, false);
    OneColumnIndex(leaves[1].column);
    assert HasColumn(leaves, leaves[1].column);
    assert NamesColumns(q, false, leaves);
    RowsAt(env, m, m.id, leaves, vals, ws, 1);
    MovesLists(leaves[1].column, c);
    assert OldRight(env, m, leaves, vals, ws, q) <==> OldIsTold(env, leaves[1], vals, ws[1]);
    assert AllNewRight(env, m, leaves, vals, ws, q) <==> NewRight(env, m, leaves[1], vals, ws[1]);
    OldKeyExact(env, m, leaves, vals, ws, false, q, false);
    NewKeyExact(env, m, m.id, leaves, vals, ws, q, false);
    CrossKeys(env, m, leaves, vals, ws, q, false);
    UpdatedCovered(env, m, leaves, vals, ws, index, false);
    ChangeFits(env, m, m.id, leaves, vals, ws, false, q, false);
    ss, acts := QueryKeys.MissedRun(index, false, map[c.id := c.before.value], c);
  }

  /** An entity with one tag gets a second one: the list of the first tag alone stays as it was. */
  lemma ResizedSet() returns (env: Env, m: Mode, leaves: seq<Leaf>, vals: Values, ws: seq<Wire>, index: QueryKeys.Index,
                              ss: seq<QueryKeys.State>, acts: seq<QueryKeys.Action>)
    ensures Comparing(env, m, leaves, vals, ws) && m.inDB && |leaves| == 2 && leaves[1].kind == Set
    ensures index.query == QueryKeys.Query([leaves[1].column], false, []) && QueryKeys.Usable(index.query, false)
    ensures QueryKeys.Run([index], false, ss, acts) && |acts| == 2 && acts[1] == QueryKeys.Save(ChangeOf(env, m, m.id, leaves, vals, ws, false))
    ensures !QueryKeys.ListsRight([index], false, ss[2])
  {
    hide QueryKeys.Run, QueryKeys.ListsRight, QueryKeys.Covered, QueryKeys.Usable, QueryKeys.ListChanges;
    hide QueryKeys.Columns, DiffOf, Is, Was;
    hide WasRow, IsRow, OldIsTold, NewRight, AllStorable, AllComparable;
    hide AllDecodable, Milli, MilliRound, Comparing, Comparable, Storable;
    env := MilliEnv();
    var a, b: Text := [97], [98];
    assert a[0] != b[0];
    m := Mode(1, true, true);
    leaves := [LeafAt(UInt, Plain(1, "ID")), LeafAt(Set, Tags([a, b]))];
    vals, ws := map[[1] := UIntV(1), [2] := SetV(Some([a, b]))], [U(1), L([1])];
    index := QueryKeys.Index("ByTags", QueryKeys.Query(["Tags"], false, []));
    assert [1][0] != [2][0] && "ID"[0] != "Tags"[0];
    TagsColumn(env, a, b, m, leaves[1], vals);
    IdColumn(env, m, leaves[0], vals);
    TwoColumns(env, m, leaves, vals, U(1), L([1]));
    ss, acts := MissedList(env, m, leaves, vals, ws, index);
  }

  function Cost(): Field {
    Field(2, "Price", 2, [], [], false, Some(2))
  }

  lemma CostColumn(env: Env, m: Mode, l: Leaf, vals: Values)
    requires env.Valid() && Zones(env) && m == Mode(1, true, true) && l == LeafAt(Float, Cost())
    requires env.Number(1000) == 1.0 && env.Number(1019) == 1.019 && env.Round(1019, 2) == 1020
    requires [2] in vals && vals[[2]] == FloatV(1019)
    ensures Comparable(l, m, vals, U(1000)) && Decodable(Float, l.field, U(1000)) && Storable(env, Float, l.field, vals[l.path]) && !IsId(l)
    ensures Was(env, m, l, U(1000)) == FloatC(1000) && Is(env, m, l, vals, U(1000)) == FloatC(1020)
    ensures OldIsTold(env, l, vals, U(1000)) && !NewRight(env, m, l, vals, U(1000))
  {
    assert [1][0] != [2][0];
    assert Pow10(0) == 1.0 && Pow10(1) == 10.0 && Pow10(2) == 100.0;
    assert !Near(env, l.field, 1019, 1000);
  }

  /** A price in a column of two decimals becomes 1.019: MySQL holds 1.02, whose list keeps lacking the entity. */
  lemma RoundedPrice() returns (env: Env, m: Mode, leaves: seq<Leaf>, vals: Values, ws: seq<Wire>, index: QueryKeys.Index,
                                ss: seq<QueryKeys.State>, acts: seq<QueryKeys.Action>)
    ensures Comparing(env, m, leaves, vals, ws) && m.inDB && |leaves| == 2 && leaves[1].kind == Float
    ensures leaves[1].field.decimals == Some(leaves[1].field.precision)
    ensures index.query == QueryKeys.Query([leaves[1].column], false, []) && QueryKeys.Usable(index.query, false)
    ensures QueryKeys.Run([index], false, ss, acts) && |acts| == 2 && acts[1] == QueryKeys.Save(ChangeOf(env, m, m.id, leaves, vals, ws, false))
    ensures !QueryKeys.ListsRight([index], false, ss[2])
  {
    hide QueryKeys.Run, QueryKeys.ListsRight, QueryKeys.Covered, QueryKeys.Usable, QueryKeys.ListChanges;
    hide QueryKeys.Columns, DiffOf, Is, Was;
    hide WasRow, IsRow, OldIsTold, NewRight, AllStorable, AllComparable;
    hide AllDecodable, Comparing, Comparable, Storable, Milli, MilliRound;
    env := MilliEnv();
    Cents();
    m := Mode(1, true, true);
    leaves := [LeafAt(UInt, Plain(1, "ID")), LeafAt(Float, Cost())];
    vals, ws := map[[1] := UIntV(1), [2] := FloatV(1019)], [U(1), U(1000)];
    index := QueryKeys.Index("ByPrice", QueryKeys.Query(["Price"], false, []));
    assert [1][0] != [2][0] && "ID"[0] != "Price"[0];
    CostColumn(env, m, leaves[1], vals);
    IdColumn(env, m, leaves[0], vals);
    TwoColumns(env, m, leaves, vals, U(1), U(1000));
    ss, acts := MissedList(env, m, leaves, vals, ws, index);
  }

  lemma Cents()
    ensures Milli(1000) == 1.0 && Milli(1019) == 1.019 && MilliRound(1019, 2) == 1020
  {
  }
}
