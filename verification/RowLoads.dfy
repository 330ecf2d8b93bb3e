/** Loading a row that an entity was saved to: what MySQL returns for each column, and what the fields hold then. */
module RowLoads {
  import opened Wrappers
  import opened SerializerBuffer
  import opened RecordSchema
  import opened RecordCodec
  import opened RecordFields
  import opened RecordTraversal
  import opened DirtyValues
  import opened DirtyDiff
  import opened RowWrites

  // ---------------------------------------------------------------- what MySQL returns

  /** A text, if it fits in memory. */
  function TextCell(t: Text): Option<Cell> {
    if |t| < I64 - 1 then Some(NullStringCell(Some(t))) else None
  }

  /** A number that is scanned into a signed one: those from 2^63 on are refused. */
  function SignedCell(u: uint64): Option<Cell> {
    if u < I64 then Some(NullIntCell(Some(u))) else None
  }

  /** The members of a set as MySQL lists them. */
  function Joined(ts: seq<Text>): Text {
    if ts == [] then [] else if |ts| == 1 then ts[0] else Joined(ts[..|ts| - 1]) + [COMMA] + ts[|ts| - 1]
  }

  /** What scanning a column with this content gives; None when that panics. */
  function CellOf(env: Env, k: Kind, f: Field, c: Column): Option<Cell> {
    match k
    case Ref => if c.UIntC? then SignedCell(c.u) else if c.Null? then Some(NullIntCell(None)) else None
    case UInt => if c.UIntC? then Some(UIntCell(c.u)) else None
    case Int => if c.IntC? then Some(IntCell(c.i)) else None
    case Bool => if c.BoolC? then Some(BoolCell(c.b)) else None
    case Float => if c.FloatC? then Some(FloatCell(StoredFloat(env, f, c.f))) else None
    case Time => if c.TimeC? then Some(IntCell(ToSeconds(LocalTime(env, c.at)))) else None
    case Date => if c.DateC? then Some(IntCell(ToSeconds(86400 * c.day))) else None
    case FakeDelete => if c.UIntC? then Some(UIntCell(c.u)) else None
    case UIntNull => if c.UIntC? then SignedCell(c.u) else if c.Null? then Some(NullIntCell(None)) else None
    case IntNull => if c.IntC? then Some(NullIntCell(Some(c.i))) else if c.Null? then Some(NullIntCell(None)) else None
    case BoolNull => if c.BoolC? then Some(NullBoolCell(Some(c.b))) else if c.Null? then Some(NullBoolCell(None)) else None
    case FloatNull =>
      if c.FloatC? then Some(NullFloatCell(Some(StoredFloat(env, f, c.f)))) else if c.Null? then Some(NullFloatCell(None)) else None
    case TimeNull =>
      if c.TimeC? then Some(NullIntCell(Some(ToSeconds(LocalTime(env, c.at))))) else if c.Null? then Some(NullIntCell(None)) else None
    case DateNull =>
      if c.DateC? then Some(NullIntCell(Some(ToSeconds(86400 * c.day)))) else if c.Null? then Some(NullIntCell(None)) else None
    case Set =>
      if c.SetC? then TextCell(Joined(InOrder(f.members, c.ts)))
      else if c.TextC? then TextCell(c.t)
      else if c.Null? then Some(NullStringCell(None))
      else None
    case RefsMany =>
      if c.IdsC? then TextCell(env.FormatIds(c.ids))
      else if c.TextC? then TextCell(env.FormatIds([]))
      else if c.Null? then Some(NullStringCell(None))
      else None
    case _ => if c.TextC? then TextCell(c.t) else if c.Null? then Some(NullStringCell(None)) else None
  }

  /** MySQL refuses a SET whose members have commas. */
  predicate Definable(f: Field) {
    forall m :: m in f.members ==> COMMA !in m
  }

  lemma {:induction false} SplitPlain(t: Text)
    requires COMMA !in t
    ensures Split(t, COMMA) == [t]
  {
    if t != [] {
      assert t == t[..|t| - 1] + [t[|t| - 1]];
      SplitPlain(t[..|t| - 1]);
    }
  }

  lemma {:induction false} SplitAfter(a: Text, t: Text)
    requires COMMA !in t
    ensures Split(a + [COMMA] + t, COMMA) == Split(a, COMMA) + [t]
  {
    var all := a + [COMMA] + t;
    if t == [] {
      assert all[..|all| - 1] == a;
    } else {
      var n := |t| - 1;
      assert t == t[..n] + [t[n]];
      SplitAfter(a, t[..n]);
      assert all[..|all| - 1] == a + [COMMA] + t[..n];
    }
  }

  /** A list of texts without commas is what its text is split into, unless it is empty. */
  lemma {:induction false} SplitJoined(ts: seq<Text>)
    requires ts != [] && forall t :: t in ts ==> COMMA !in t
    ensures Split(Joined(ts), COMMA) == ts
  {
    var n := |ts| - 1;
    if n == 0 {
      assert ts[0] in ts;
      SplitPlain(ts[0]);
    } else {
      assert ts == ts[..n] + [ts[n]];
      SplitJoined(ts[..n]);
      SplitAfter(Joined(ts[..n]), ts[n]);
    }
  }

  lemma JoinedEmpty(ts: seq<Text>)
    ensures Joined(ts) == [] <==> ts == [] || ts == [[]]
  {
  }

  lemma SetPieces(f: Field, ts: seq<Text>)
    requires Definable(f)
    ensures Pieces(Some(Joined(InOrder(f.members, ts)))) == SetHeld(f.members, ts)
  {
    hide InOrder;
    var r := InOrder(f.members, ts);
    JoinedEmpty(r);
    if r != [] {
      forall t | t in r ensures COMMA !in t {
        assert t in f.members;
      }
      SplitJoined(r);
    }
  }

  /** The column holds what saving some value puts there. */
  predicate Holds(k: Kind, c: Column) {
    match k
    case Ref => c.UIntC? || c.Null?
    case UInt => c.UIntC?
    case Int => c.IntC?
    case Bool => c.BoolC?
    case Float => c.FloatC?
    case Time => c.TimeC?
    case Date => c.DateC?
    case FakeDelete => c.UIntC?
    case UIntNull => c.UIntC? || c.Null?
    case IntNull => c.IntC? || c.Null?
    case BoolNull => c.BoolC? || c.Null?
    case FloatNull => c.FloatC? || c.Null?
    case TimeNull => c.TimeC? || c.Null?
    case DateNull => c.DateC? || c.Null?
    case Set => c.SetC? || c.Null? || c == TextC([])
    case RefsMany => c.Null? || c == TextC([]) || (c.IdsC? && |c.ids| < I64)
    case _ => c.TextC? || c.Null?
  }

  lemma SavedHolds(env: Env, k: Kind, f: Field, id: uint64, inDB: bool, v: Value)
    requires Fits(k, f, v)
    ensures Holds(k, Saved(env, k, f, id, inDB, v))
  {
  }

  /** What is scanned is written into the record as what a load was said to read back. */
  lemma RowReadsBack(env: Env, k: Kind, f: Field, c: Column)
    requires env.ListsKept() && SmallEnum(f) && Holds(k, c) && CellOf(env, k, f, c).Some? && (k == Set ==> Definable(f))
    ensures ScannedBy(PointerOf(k), CellOf(env, k, f, c).value)
    ensures FromRow(env, k, f, CellOf(env, k, f, c).value) == ReadBack(env, k, f, c)
  {
    hide InOrder, SetHeld, Joined, Split, Index, RowTime, RowTimeNull, ToSeconds;
    if k == Set && c.SetC? {
      SetPieces(f, c.ts);
    }
  }

  /**
   * Scanning what was saved panics only for a number of 2^63 or more that is scanned into a signed one, or a text too
   * long for memory.
   */
  lemma Scannable(env: Env, k: Kind, f: Field, c: Column)
    requires Holds(k, c)
    ensures CellOf(env, k, f, c).None?
       <==> || ((k == Ref || k == UIntNull) && c.UIntC? && c.u >= I64)
            || (c.TextC? && |if k == RefsMany then env.FormatIds([]) else c.t| >= I64 - 1)
            || (c.SetC? && |Joined(InOrder(f.members, c.ts))| >= I64 - 1)
            || (c.IdsC? && |env.FormatIds(c.ids)| >= I64 - 1)
  {
    hide InOrder, Joined;
  }

  // ---------------------------------------------------------------- loading the entity again

  /** The row was saved from these values, and scanned. */
  ghost predicate SavedRow(env: Env, m: Mode, leaves: seq<Leaf>, vals: Values, cells: seq<Cell>) {
    && |cells| == |leaves|
    && forall i :: 0 <= i < |leaves| ==> LeafFits(leaves[i], vals) && SavedCell(env, m, leaves[i], vals, cells[i])
  }

  ghost predicate SavedCell(env: Env, m: Mode, l: Leaf, vals: Values, c: Cell)
    requires LeafFits(l, vals)
  {
    && Storable(env, l.kind, l.field, vals[l.path]) && (l.kind == Set ==> Definable(l.field))
    && if IsId(l) then c.UIntCell?
       else CellOf(env, l.kind, l.field, Saved(env, l.kind, l.field, m.id, m.inDB, vals[l.path])) == Some(c)
  }

  lemma CellRead(env: Env, m: Mode, l: Leaf, vals: Values, c: Cell)
    requires env.Valid() && env.ListsKept() && LeafFits(l, vals) && SavedCell(env, m, l, vals, c)
    ensures CellFits(l, c) && Decodable(l.kind, l.field, CellWire(env, l, c))
    ensures !IsId(l) ==> CellWire(env, l, c) == ReadBack(env, l.kind, l.field, Saved(env, l.kind, l.field, m.id, m.inDB, vals[l.path]))
  {
    hide FromRow, ReadBack, CellOf, Fits, Holds, Saved, Decodable, ScannedBy;
    StorableSmall(env, l.kind, l.field, vals[l.path]);
    if IsId(l) {
      IdRead(env, l, c);
    } else {
      var saved := Saved(env, l.kind, l.field, m.id, m.inDB, vals[l.path]);
      SavedHolds(env, l.kind, l.field, m.id, m.inDB, vals[l.path]);
      RowReadsBack(env, l.kind, l.field, saved);
      BackDecodable(env, l.kind, l.field, m.id, m.inDB, vals[l.path]);
    }
  }

  lemma IdRead(env: Env, l: Leaf, c: Cell)
    requires l.kind == UInt && c.UIntCell? && SmallEnum(l.field)
    ensures CellFits(l, c) && Decodable(l.kind, l.field, CellWire(env, l, c))
  {
  }

  lemma RowRead(env: Env, m: Mode, leaves: seq<Leaf>, vals: Values, cells: seq<Cell>)
    requires env.Valid() && env.ListsKept() && SavedRow(env, m, leaves, vals, cells)
    ensures RowFits(leaves, cells, 0) && AllDecodable(leaves, RowWires(env, leaves, cells, 0))
    ensures forall i :: 0 <= i < |leaves| && !IsId(leaves[i]) ==>
      LeafFits(leaves[i], vals) && SmallEnum(leaves[i].field)
      && RowWires(env, leaves, cells, 0)[i]
         == ReadBack(env, leaves[i].kind, leaves[i].field, Saved(env, leaves[i].kind, leaves[i].field, m.id, m.inDB, vals[leaves[i].path]))
  {
    hide SavedCell, CellFits, CellWire, ReadBack, Saved, Fits, Decodable;
    forall i | 0 <= i < |leaves|
      ensures CellFits(leaves[i], cells[i]) && Decodable(leaves[i].kind, leaves[i].field, CellWire(env, leaves[i], cells[i]))
      ensures SmallEnum(leaves[i].field)
      ensures !IsId(leaves[i]) ==>
        CellWire(env, leaves[i], cells[i])
        == ReadBack(env, leaves[i].kind, leaves[i].field, Saved(env, leaves[i].kind, leaves[i].field, m.id, m.inDB, vals[leaves[i].path]))
    {
      CellRead(env, m, leaves[i], vals, cells[i]);
      FitsSmall(leaves[i], cells[i]);
    }
  }

  lemma FitsSmall(l: Leaf, c: Cell)
    requires CellFits(l, c)
    ensures SmallEnum(l.field)
  {
  }

  /**
   * Loading a row that was saved from an entity fills every field but the ID with the normal form of what was saved, exactly
   * when it is kept as it was written.
   */
  method LoadSaved(env: Env, s: Serializer, id: uint64, fields: TableFields, structureHash: uint64, cells: seq<Cell>, orm: Orm,
                   ghost m: Mode, ghost vals: Values)
    requires s.Valid() && s.buffer == [] && env.Valid() && env.ListsKept() && Zones(env) && WellFormed(fields)
    requires SavedRow(env, m, Leaves(fields, [], ""), vals, cells)
    modifies s`buffer, s.scratch, orm
    ensures forall i :: 0 <= i < |Leaves(fields, [], "")| && !IsId(Leaves(fields, [], "")[i]) ==>
      var l := Leaves(fields, [], "")[i];
      && l.path in orm.values && LeafFits(l, vals)
      && (orm.values[l.path] == Normal(env, l.kind, l.field, vals[l.path])
          <==> KeptAsWritten(env, l.kind, l.field, m.id, m.inDB, vals[l.path]))
  {
    hide WellFormed, Leaves, SavedRow, SavedCell, RowFits, AllDecodable, Stored, RowWires, Normal, KeptAsWritten, ReadBack;
    ghost var leaves := Leaves(fields, [], "");
    RowRead(env, m, leaves, vals, cells);
    PathsDistinct(fields, [], "");
    FillFromDBRow(env, s, id, fields, structureHash, cells, orm);
    forall i | 0 <= i < |leaves| && !IsId(leaves[i])
      ensures
        var l := leaves[i];
        && l.path in orm.values && LeafFits(l, vals)
        && (orm.values[l.path] == Normal(env, l.kind, l.field, vals[l.path])
            <==> KeptAsWritten(env, l.kind, l.field, m.id, m.inDB, vals[l.path]))
    {
      FieldLoaded(env, m, leaves, vals, cells, old(orm.values)[[1] := UIntV(id)], i);
    }
  }

  lemma FieldLoaded(env: Env, m: Mode, leaves: seq<Leaf>, vals: Values, cells: seq<Cell>, other: Values, i: nat)
    requires env.Valid() && env.ListsKept() && Zones(env) && DistinctPaths(leaves) && SavedRow(env, m, leaves, vals, cells)
    requires i < |leaves| && !IsId(leaves[i])
    ensures RowFits(leaves, cells, 0) && AllDecodable(leaves, RowWires(env, leaves, cells, 0))
    ensures
      var l := leaves[i];
      var loaded := Stored(env, leaves, RowWires(env, leaves, cells, 0), other);
      && l.path in loaded && LeafFits(l, vals)
      && (loaded[l.path] == Normal(env, l.kind, l.field, vals[l.path])
          <==> KeptAsWritten(env, l.kind, l.field, m.id, m.inDB, vals[l.path]))
  {
    hide RowFits, AllDecodable, Stored, RowWires, Normal, KeptAsWritten, ReadBack;
    hide Storable, CellOf, FromWire, Saved, Decodable, Fits;
    var l := leaves[i];
    RowRead(env, m, leaves, vals, cells);
    StoredAt(env, leaves, RowWires(env, leaves, cells, 0), other, i);
    StoredExact(env, l.kind, l.field, m.id, m.inDB, vals[l.path]);
  }

  /** A nullable number from 2^63 on can be saved, and its row then not be loaded. */
  lemma BigNumber(env: Env, f: Field, id: uint64, u: uint64)
    requires u >= I64
    ensures Fits(UIntNull, f, UIntNullV(Some(u))) && CellOf(env, UIntNull, f, Saved(env, UIntNull, f, id, true, UIntNullV(Some(u)))).None?
  {
  }
}
