/** The comparison of an entity with the record it was loaded from, column by column over one shared cursor. */
module DirtyDiff {
  import opened Wrappers
  import opened SerializerBuffer
  import opened RecordSchema
  import opened RecordCodec
  import opened RecordFields
  import opened RecordTraversal
  import opened DirtyValues

  /** What a builder is asked to find out: whether there is an old record, and whether its content is wanted too. */
  datatype Mode = Mode(id: uint64, inDB: bool, hasCurrent: bool)

  datatype Diff = Diff(bind: map<string, Column>, current: map<string, Column>)

  /** The entity's own ID, the first field after the embedded ORM. */
  predicate IsId(l: Leaf) {
    l.kind == UInt && l.path == [1]
  }

  predicate Comparable(l: Leaf, m: Mode, vals: Values, w: Wire) {
    LeafFits(l, vals) && (m.inDB ==> Decodable(l.kind, l.field, w))
  }

  /** Whether the column has to be saved. */
  predicate Changed(env: Env, m: Mode, l: Leaf, vals: Values, w: Wire)
    requires Comparable(l, m, vals, w)
  {
    !IsId(l) && !(m.inDB && Same(env, l.kind, l.field, w, vals[l.path]))
  }

  function WithColumn(env: Env, m: Mode, l: Leaf, vals: Values, w: Wire, d: Diff): Diff
    requires Comparable(l, m, vals, w)
  {
    var v := vals[l.path];
    var current :=
      if m.hasCurrent && m.inDB && !IsId(l) then
        var c := Current(env, l.kind, l.field, m.id, w, v);
        if c.Some? then d.current[l.column := c.value] else d.current
      else d.current;
    var bind := if Changed(env, m, l, vals, w) then d.bind[l.column := Saved(env, l.kind, l.field, m.id, m.inDB, v)] else d.bind;
    Diff(bind, current)
  }

  predicate AllComparable(m: Mode, leaves: seq<Leaf>, vals: Values, ws: seq<Wire>) {
    |ws| == |leaves| && forall i :: 0 <= i < |ws| ==> Comparable(leaves[i], m, vals, ws[i])
  }

  function DiffOf(env: Env, m: Mode, leaves: seq<Leaf>, vals: Values, ws: seq<Wire>, was: Diff): Diff
    requires AllComparable(m, leaves, vals, ws)
  {
    if leaves == [] then was
    else
      var n := |leaves| - 1;
      WithColumn(env, m, leaves[n], vals, ws[n], DiffOf(env, m, leaves[..n], vals, ws[..n], was))
  }

  predicate LeafPanics(env: Env, m: Mode, l: Leaf, vals: Values, w: Wire)
    requires Comparable(l, m, vals, w)
  {
    Changed(env, m, l, vals, w) && Panics(l.kind, l.field, m.inDB, vals[l.path])
  }

  /** No column makes the comparison panic. */
  predicate Clear(env: Env, m: Mode, leaves: seq<Leaf>, vals: Values, ws: seq<Wire>)
    requires AllComparable(m, leaves, vals, ws)
  {
    forall i :: 0 <= i < |ws| ==> !LeafPanics(env, m, leaves[i], vals, ws[i])
  }

  /**
   * The comparison panics exactly when some enum that is to be saved holds a text that is not a member, or is to be emptied
   * in a row that is there although it is required.
   */
  lemma ClearExact(env: Env, m: Mode, leaves: seq<Leaf>, vals: Values, ws: seq<Wire>)
    requires AllComparable(m, leaves, vals, ws)
    ensures Clear(env, m, leaves, vals, ws) <==>
      forall i :: 0 <= i < |leaves| && leaves[i].kind == Enum && LeafFits(leaves[i], vals) ==>
        var e, f := vals[leaves[i].path].e, leaves[i].field;
        (m.inDB && ws[i] == U(Index(f.members, e))) || if e == [] then !(f.required && m.inDB) else e in f.members
  {
    hide Index;
    forall i | 0 <= i < |leaves|
      ensures Comparable(leaves[i], m, vals, ws[i])
      ensures !LeafPanics(env, m, leaves[i], vals, ws[i]) <==>
        (leaves[i].kind == Enum ==>
          var e, f := vals[leaves[i].path].e, leaves[i].field;
          (m.inDB && ws[i] == U(Index(f.members, e))) || if e == [] then !(f.required && m.inDB) else e in f.members)
    {
      EnumPanics(env, m, leaves[i], vals, ws[i]);
    }
  }

  lemma EnumPanics(env: Env, m: Mode, l: Leaf, vals: Values, w: Wire)
    requires Comparable(l, m, vals, w)
    ensures !LeafPanics(env, m, l, vals, w) <==>
      (l.kind == Enum ==>
        var e, f := vals[l.path].e, l.field;
        (m.inDB && w == U(Index(f.members, e))) || if e == [] then !(f.required && m.inDB) else e in f.members)
  {
  }

  // ---------------------------------------------------------------- what the whole comparison means

  ghost predicate DistinctColumns(leaves: seq<Leaf>) {
    forall i, j :: 0 <= i < j < |leaves| ==> leaves[i].column != leaves[j].column
  }

  lemma {:induction false} BindAt(env: Env, m: Mode, leaves: seq<Leaf>, vals: Values, ws: seq<Wire>, was: Diff, i: nat)
    requires AllComparable(m, leaves, vals, ws) && DistinctColumns(leaves) && i < |leaves|
    requires forall j :: 0 <= j < |leaves| ==> leaves[j].column !in was.bind
    ensures
      var d, l := DiffOf(env, m, leaves, vals, ws, was), leaves[i];
      && (l.column in d.bind <==> Changed(env, m, l, vals, ws[i]))
      && (l.column in d.bind ==> d.bind[l.column] == Saved(env, l.kind, l.field, m.id, m.inDB, vals[l.path]))
  {
    var n := |leaves| - 1;
    assert Comparable(leaves[n], m, vals, ws[n]);
    if i < n {
      BindAt(env, m, leaves[..n], vals, ws[..n], was, i);
    } else {
      BindOutside(env, m, leaves[..n], vals, ws[..n], was, leaves[n].column);
    }
  }

  lemma {:induction false} BindOutside(env: Env, m: Mode, leaves: seq<Leaf>, vals: Values, ws: seq<Wire>, was: Diff, c: string)
    requires AllComparable(m, leaves, vals, ws)
    requires forall j :: 0 <= j < |leaves| ==> leaves[j].column != c
    ensures c in DiffOf(env, m, leaves, vals, ws, was).bind <==> c in was.bind
  {
    if leaves != [] {
      var n := |leaves| - 1;
      assert Comparable(leaves[n], m, vals, ws[n]) && leaves[n].column != c;
      BindOutside(env, m, leaves[..n], vals, ws[..n], was, c);
    }
  }

  /** What is recorded of the old content of a column. */
  lemma {:induction false} CurrentAt(env: Env, m: Mode, leaves: seq<Leaf>, vals: Values, ws: seq<Wire>, was: Diff, i: nat)
    requires AllComparable(m, leaves, vals, ws) && DistinctColumns(leaves) && i < |leaves|
    requires m.inDB && m.hasCurrent && !IsId(leaves[i])
    requires forall j :: 0 <= j < |leaves| ==> leaves[j].column !in was.current
    ensures Comparable(leaves[i], m, vals, ws[i])
    ensures
      var d, l := DiffOf(env, m, leaves, vals, ws, was), leaves[i];
      var c := Current(env, l.kind, l.field, m.id, ws[i], vals[l.path]);
      (if l.column in d.current then Some(d.current[l.column]) else None) == c
  {
    hide Current, Saved, Same;
    var n := |leaves| - 1;
    assert Comparable(leaves[n], m, vals, ws[n]);
    if i < n {
      CurrentAt(env, m, leaves[..n], vals, ws[..n], was, i);
    } else {
      CurrentOutside(env, m, leaves[..n], vals, ws[..n], was, leaves[n].column);
    }
  }

  lemma {:induction false} CurrentOutside(env: Env, m: Mode, leaves: seq<Leaf>, vals: Values, ws: seq<Wire>, was: Diff, c: string)
    requires AllComparable(m, leaves, vals, ws)
    requires forall j :: 0 <= j < |leaves| ==> leaves[j].column != c
    ensures c in DiffOf(env, m, leaves, vals, ws, was).current <==> c in was.current
  {
    hide Current, Saved, Same;
    if leaves != [] {
      var n := |leaves| - 1;
      assert Comparable(leaves[n], m, vals, ws[n]) && leaves[n].column != c;
      CurrentOutside(env, m, leaves[..n], vals, ws[..n], was, c);
    }
  }

  /** The entity's record is one the program wrote, and every field is as it can be. */
  ghost predicate Written(env: Env, leaves: seq<Leaf>, vals: Values, ws: seq<Wire>)
    requires |ws| == |leaves|
  {
    forall i :: 0 <= i < |leaves| ==>
      && LeafFits(leaves[i], vals) && Sane(env, leaves[i].kind, leaves[i].field, vals[leaves[i].path])
      && Decodable(leaves[i].kind, leaves[i].field, ws[i]) && Canonical(env, leaves[i].kind, leaves[i].field, ws[i])
      && Fits(leaves[i].kind, leaves[i].field, FromWire(env, leaves[i].kind, leaves[i].field, ws[i]))
  }

  /**
   * A column of a loaded entity is in bind exactly when it is not the ID, which is the root struct's second field, and its
   * value is another than the record gives.
   */
  lemma InBindExact(env: Env, m: Mode, leaves: seq<Leaf>, vals: Values, ws: seq<Wire>, i: nat)
    requires env.Valid() && m.inDB && |ws| == |leaves| && Written(env, leaves, vals, ws) && DistinctColumns(leaves) && i < |leaves|
    ensures AllComparable(m, leaves, vals, ws)
    ensures
      var l := leaves[i];
      l.column in DiffOf(env, m, leaves, vals, ws, Diff(map[], map[])).bind
      <==> (l.kind, l.path) != (UInt, [1]) && !Unaltered(env, l.kind, l.field, FromWire(env, l.kind, l.field, ws[i]), vals[l.path])
  {
    hide Same, Fits, Canonical, Decodable, Sane, Unaltered, FromWire, DiffOf;
    assert AllComparable(m, leaves, vals, ws);
    var l := leaves[i];
    BindAt(env, m, leaves, vals, ws, Diff(map[], map[]), i);
    ComparesValues(env, l.kind, l.field, ws[i], vals[l.path]);
  }

  /** The number of a float field, if it has one. */
  function NumberIn(env: Env, v: Value): Option<real> {
    match v
    case FloatV(x) => Some(env.Number(x))
    case FloatNullV(Some(x)) => Some(env.Number(x))
    case _ => None
  }

  /** By a unit of the last decimal place or more, or between a number and NULL. */
  predicate Moved(was: Option<real>, now: Option<real>, decimals: nat) {
    if was.None? || now.None? then was != now
    else
      var d := now.value * Pow10(decimals) - was.value * Pow10(decimals);
      d >= 1.0 || d <= -1.0
  }

  /** A float is in bind exactly when it has moved. */
  lemma FloatInBind(env: Env, m: Mode, leaves: seq<Leaf>, vals: Values, ws: seq<Wire>, i: nat)
    requires env.Valid() && m.inDB && |ws| == |leaves| && Written(env, leaves, vals, ws) && DistinctColumns(leaves) && i < |leaves|
    requires leaves[i].kind in {Float, FloatNull}
    ensures AllComparable(m, leaves, vals, ws)
    ensures
      var l := leaves[i];
      l.column in DiffOf(env, m, leaves, vals, ws, Diff(map[], map[])).bind
      <==> Moved(NumberIn(env, FromWire(env, l.kind, l.field, ws[i])), NumberIn(env, vals[l.path]), l.field.precision)
  {
    hide Same, Canonical, Decodable, Sane, FromWire, Unaltered, NumberIn, Fits, Moved;
    var l := leaves[i];
    var old', v := FromWire(env, l.kind, l.field, ws[i]), vals[l.path];
    InBindExact(env, m, leaves, vals, ws, i);
    FloatAltered(env, l.kind, l.field, old', v);
  }

  lemma FloatAltered(env: Env, k: Kind, f: Field, old': Value, v: Value)
    requires k in {Float, FloatNull} && Fits(k, f, old') && Fits(k, f, v)
    ensures !Unaltered(env, k, f, old', v) <==> Moved(NumberIn(env, old'), NumberIn(env, v), f.precision)
  {
    hide SameDigits;
    var was, now := NumberIn(env, old'), NumberIn(env, v);
    if was.Some? && now.Some? {
      DigitsMoved(now.value, was.value, f.precision);
    }
  }

  lemma DigitsMoved(x: real, y: real, p: nat)
    ensures !SameDigits(x, y, p) <==> Moved(Some(y), Some(x), p)
  {
    var d := x * Pow10(p) - y * Pow10(p);
    assert SameDigits(x, y, p) <==> -1.0 < d < 1.0;
  }

  /** Nothing is dirty exactly when every column but the ID counts as unchanged. */
  lemma BindEmpty(env: Env, m: Mode, leaves: seq<Leaf>, vals: Values, ws: seq<Wire>, current: map<string, Column>)
    requires AllComparable(m, leaves, vals, ws) && DistinctColumns(leaves)
    ensures DiffOf(env, m, leaves, vals, ws, Diff(map[], current)).bind == map[]
       <==> (forall i :: 0 <= i < |leaves| ==> !Changed(env, m, leaves[i], vals, ws[i]))
  {
    var d := DiffOf(env, m, leaves, vals, ws, Diff(map[], current));
    forall i | 0 <= i < |leaves|
      ensures leaves[i].column in d.bind <==> Changed(env, m, leaves[i], vals, ws[i])
    {
      BindAt(env, m, leaves, vals, ws, Diff(map[], current), i);
    }
    if c :| c in d.bind && forall i :: 0 <= i < |leaves| ==> leaves[i].column != c {
      BindOutside(env, m, leaves, vals, ws, Diff(map[], current), c);
    }
  }

  /** The content of column i once bind has been saved over the old record. */
  function Overwritten(env: Env, m: Mode, l: Leaf, w: Wire, d: Diff): Column
    requires Decodable(l.kind, l.field, w)
  {
    if l.column in d.bind then d.bind[l.column] else OldColumn(env, l.kind, l.field, m.id, w)
  }

  /** The old record overwritten by bind is the new row, up to what the comparison tolerates. */
  lemma OldPlusBindIsNew(env: Env, m: Mode, leaves: seq<Leaf>, vals: Values, ws: seq<Wire>, current: map<string, Column>, i: nat)
    requires env.Valid() && m.inDB && AllComparable(m, leaves, vals, ws) && DistinctColumns(leaves)
    requires i < |leaves| && !IsId(leaves[i])
    requires Comparable(leaves[i], m, vals, ws[i]) && Sane(env, leaves[i].kind, leaves[i].field, vals[leaves[i].path])
    ensures
      var d, l := DiffOf(env, m, leaves, vals, ws, Diff(map[], current)), leaves[i];
      Tolerated(env, l.kind, l.field, Overwritten(env, m, l, ws[i], d),
        Saved(env, l.kind, l.field, m.id, true, vals[l.path]))
  {
    var l := leaves[i];
    BindAt(env, m, leaves, vals, ws, Diff(map[], current), i);
    if !Changed(env, m, l, vals, ws[i]) {
      SameTolerated(env, l.kind, l.field, m.id, ws[i], vals[l.path]);
    }
  }

  /** Right after the entity is written nothing is dirty, exactly when none of its times is before the epoch. */
  lemma CleanOnceWritten(env: Env, m: Mode, leaves: seq<Leaf>, vals: Values)
    requires env.Valid() && m.inDB && AllFit(leaves, vals) && DistinctColumns(leaves)
    ensures AllComparable(m, leaves, vals, Wires(env, leaves, vals))
    ensures DiffOf(env, m, leaves, vals, Wires(env, leaves, vals), Diff(map[], map[])).bind == map[]
       <==> (forall i :: 0 <= i < |leaves| && !IsId(leaves[i]) ==>
               LeafFits(leaves[i], vals) && CleanAfterWrite(env, leaves[i].kind, leaves[i].field, vals[leaves[i].path]))
  {
    hide Fits, ToWire, CleanAfterWrite, Same;
    var ws := Wires(env, leaves, vals);
    forall i | 0 <= i < |leaves|
      ensures Comparable(leaves[i], m, vals, ws[i])
      ensures Same(env, leaves[i].kind, leaves[i].field, ws[i], vals[leaves[i].path])
         <==> CleanAfterWrite(env, leaves[i].kind, leaves[i].field, vals[leaves[i].path])
    {
      var l := leaves[i];
      assert LeafFits(l, vals) && ws[i] == LeafWire(env, l, vals);
      WireRoundTrip(env, l.kind, l.field, vals[l.path]);
      WrittenClean(env, l.kind, l.field, vals[l.path]);
    }
    BindEmpty(env, m, leaves, vals, ws, map[]);
  }

  /** Right after the entity is read back nothing is dirty, exactly when its dates are midnights. */
  lemma CleanOnceRead(env: Env, m: Mode, leaves: seq<Leaf>, ws: seq<Wire>, other: Values)
    requires env.Valid() && m.inDB && AllDecodable(leaves, ws) && DistinctColumns(leaves) && DistinctPaths(leaves)
    requires AllFit(leaves, Stored(env, leaves, ws, other))
    ensures AllComparable(m, leaves, Stored(env, leaves, ws, other), ws)
    ensures DiffOf(env, m, leaves, Stored(env, leaves, ws, other), ws, Diff(map[], map[])).bind == map[]
       <==> (forall i :: 0 <= i < |leaves| && !IsId(leaves[i]) ==>
               CleanAfterLoad(env, leaves[i].kind, leaves[i].field, ws[i]))
  {
    hide Fits, FromWire, CleanAfterLoad, Same, Shaped;
    var vals := Stored(env, leaves, ws, other);
    forall i | 0 <= i < |leaves|
      ensures Comparable(leaves[i], m, vals, ws[i])
      ensures Same(env, leaves[i].kind, leaves[i].field, ws[i], vals[leaves[i].path])
         <==> CleanAfterLoad(env, leaves[i].kind, leaves[i].field, ws[i])
    {
      var l := leaves[i];
      assert LeafFits(l, vals);
      StoredAt(env, leaves, ws, other, i);
      LoadedClean(env, l.kind, l.field, ws[i]);
    }
    BindEmpty(env, m, leaves, vals, ws, map[]);
  }

  // ---------------------------------------------------------------- stretches of columns

  lemma {:induction false} DiffConcat(env: Env, m: Mode, p: seq<Leaf>, a: seq<Wire>, q: seq<Leaf>, b: seq<Wire>, vals: Values, was: Diff)
    requires AllComparable(m, p, vals, a) && AllComparable(m, q, vals, b)
    ensures AllComparable(m, p + q, vals, a + b)
    ensures DiffOf(env, m, p + q, vals, a + b, was) == DiffOf(env, m, q, vals, b, DiffOf(env, m, p, vals, a, was))
  {
    hide Comparable, WithColumn;
    if q == [] {
      assert p + q == p && a + b == a;
    } else {
      var n := |q| - 1;
      DiffConcat(env, m, p, a, q[..n], b[..n], vals, was);
      assert (p + q)[..|p| + n] == p + q[..n] && (a + b)[..|p| + n] == a + b[..n];
    }
  }

  lemma ComparableParts(m: Mode, done: seq<Leaf>, next: seq<Leaf>, all: seq<Leaf>, vals: Values, ws: seq<Wire>)
    requires AllComparable(m, all, vals, ws) && done + next <= all
    ensures AllComparable(m, done, vals, ws[..|done|]) && AllComparable(m, next, vals, ws[|done|..|done| + |next|])
    ensures AllComparable(m, done + next, vals, ws[..|done| + |next|])
  {
    hide Comparable;
    forall i | 0 <= i < |done + next| ensures (done + next)[i] == all[i] {}
    forall i | 0 <= i < |done| ensures Comparable(done[i], m, vals, ws[..|done|][i]) {
      assert done[i] == (done + next)[i];
    }
    forall i | 0 <= i < |next| ensures Comparable(next[i], m, vals, ws[|done|..|done| + |next|][i]) {
      assert next[i] == (done + next)[|done| + i];
    }
  }

  /** No column panics iff none of the first stretch and none of the second does. */
  lemma ClearParts(env: Env, m: Mode, done: seq<Leaf>, next: seq<Leaf>, all: seq<Leaf>, vals: Values, ws: seq<Wire>)
    requires AllComparable(m, all, vals, ws) && done + next <= all
    requires AllComparable(m, done, vals, ws[..|done|]) && AllComparable(m, next, vals, ws[|done|..|done| + |next|])
    requires AllComparable(m, done + next, vals, ws[..|done| + |next|])
    ensures Clear(env, m, all, vals, ws) ==> Clear(env, m, next, vals, ws[|done|..|done| + |next|])
    ensures Clear(env, m, done, vals, ws[..|done|]) && Clear(env, m, next, vals, ws[|done|..|done| + |next|])
        ==> Clear(env, m, done + next, vals, ws[..|done| + |next|])
  {
    hide Comparable, LeafPanics;
    var a, b := |done|, |done| + |next|;
    forall i | 0 <= i < |next| ensures next[i] == all[a + i] && ws[a..b][i] == ws[a + i] {
      assert (done + next)[a + i] == next[i];
    }
    forall i | 0 <= i < |done| ensures done[i] == (done + next)[i] && ws[..a][i] == ws[..b][i] {}
    if Clear(env, m, done, vals, ws[..a]) && Clear(env, m, next, vals, ws[a..b]) {
      forall i | 0 <= i < b ensures !LeafPanics(env, m, (done + next)[i], vals, ws[..b][i]) {
        if i >= a {
          assert next[i - a] == (done + next)[i] && ws[a..b][i - a] == ws[..b][i];
        }
      }
    }
  }

  /** What is left of the cursor after n columns. A new entity has no record to read. */
  ghost predicate Cursor(m: Mode, buffer: seq<byte>, ws: seq<Wire>, n: nat, rest: seq<byte>)
    requires n <= |ws|
  {
    if m.inDB then buffer == EncWires(ws[n..]) + rest else buffer == []
  }

  /** The columns in done have been compared. */
  ghost predicate Building(env: Env, m: Mode, buffer: seq<byte>, now: Diff, index: int, start: int, done: seq<Leaf>, vals: Values,
                           ws: seq<Wire>, rest: seq<byte>, was: Diff) {
    && |done| <= |ws| && AllComparable(m, done, vals, ws[..|done|])
    && Clear(env, m, done, vals, ws[..|done|])
    && now == DiffOf(env, m, done, vals, ws[..|done|], was)
    && index == start + |done| && Cursor(m, buffer, ws, |done|, rest)
  }

  lemma BuildingStart(env: Env, m: Mode, buffer: seq<byte>, now: Diff, index: int, vals: Values, ws: seq<Wire>, rest: seq<byte>)
    requires Cursor(m, buffer, ws, 0, rest)
    ensures Building(env, m, buffer, now, index, index, [], vals, ws, rest, now)
  {
  }

  lemma BuildingEnd(env: Env, m: Mode, buffer: seq<byte>, now: Diff, index: int, start: int, all: seq<Leaf>, vals: Values,
                    ws: seq<Wire>, rest: seq<byte>, was: Diff)
    requires Building(env, m, buffer, now, index, start, all, vals, ws, rest, was) && |ws| == |all|
    ensures AllComparable(m, all, vals, ws) && Clear(env, m, all, vals, ws) && now == DiffOf(env, m, all, vals, ws, was)
    ensures index == start + |all| && buffer == if m.inDB then rest else []
  {
    assert ws[..|all|] == ws && ws[|all|..] == [];
    assert [] + rest == rest;
  }

  /** What the next stretch of columns finds. */
  lemma BuildingNext(env: Env, m: Mode, buffer: seq<byte>, now: Diff, index: int, start: int,
                     done: seq<Leaf>, next: seq<Leaf>, all: seq<Leaf>, vals: Values, ws: seq<Wire>, rest: seq<byte>, was: Diff)
    requires AllComparable(m, all, vals, ws) && done + next <= all
    requires Building(env, m, buffer, now, index, start, done, vals, ws, rest, was)
    ensures index == start + |done|
    ensures
      var a, b := |done|, |done| + |next|;
      && b <= |ws| && AllComparable(m, next, vals, ws[a..b])
      && Cursor(m, buffer, ws[a..b], 0, EncWires(ws[b..]) + rest)
  {
    hide Comparable, EncWires;
    ComparableParts(m, done, next, all, vals, ws);
    var a, b := |done|, |done| + |next|;
    Slice(ws, a, b, rest);
    assert ws[a..b][0..] == ws[a..b];
  }

  /** The comparison of the longer stretch, from those of its two parts. */
  lemma LongerStretch(env: Env, m: Mode, done: seq<Leaf>, next: seq<Leaf>, all: seq<Leaf>, vals: Values, ws: seq<Wire>, was: Diff)
    requires AllComparable(m, all, vals, ws) && done + next <= all
    requires AllComparable(m, done, vals, ws[..|done|]) && AllComparable(m, next, vals, ws[|done|..|done| + |next|])
    requires Clear(env, m, done, vals, ws[..|done|]) && Clear(env, m, next, vals, ws[|done|..|done| + |next|])
    ensures |done| + |next| <= |ws|
    ensures AllComparable(m, done + next, vals, ws[..|done| + |next|]) && Clear(env, m, done + next, vals, ws[..|done| + |next|])
    ensures DiffOf(env, m, done + next, vals, ws[..|done| + |next|], was)
         == DiffOf(env, m, next, vals, ws[|done|..|done| + |next|], DiffOf(env, m, done, vals, ws[..|done|], was))
  {
    hide Comparable, Clear, DiffOf;
    ComparableParts(m, done, next, all, vals, ws);
    ClearParts(env, m, done, next, all, vals, ws);
    assert ws[..|done| + |next|] == ws[..|done|] + ws[|done|..|done| + |next|];
    DiffConcat(env, m, done, ws[..|done|], next, ws[|done|..|done| + |next|], vals, was);
  }

  lemma BuildingAfter(env: Env, m: Mode, buffer: seq<byte>, now: Diff, index: int, start: int,
                      done: seq<Leaf>, next: seq<Leaf>, all: seq<Leaf>, vals: Values,
                      ws: seq<Wire>, rest: seq<byte>, was: Diff, buffer': seq<byte>, now': Diff, index': int)
    requires AllComparable(m, all, vals, ws) && done + next <= all
    requires Building(env, m, buffer, now, index, start, done, vals, ws, rest, was)
    requires AllComparable(m, next, vals, ws[|done|..|done| + |next|])
    requires now' == DiffOf(env, m, next, vals, ws[|done|..|done| + |next|], now)
    requires Clear(env, m, next, vals, ws[|done|..|done| + |next|])
    requires index' == index + |next|
    requires buffer' == if m.inDB then EncWires(ws[|done| + |next|..]) + rest else []
    ensures Building(env, m, buffer', now', index', start, done + next, vals, ws, rest, was)
  {
    hide Comparable, AllComparable, EncWires, Clear, DiffOf;
    assert |done + next| == |done| + |next|;
    LongerStretch(env, m, done, next, all, vals, ws, was);
  }

  lemma OneColumn(env: Env, m: Mode, l: Leaf, vals: Values, w: Wire, was: Diff)
    requires Comparable(l, m, vals, w)
    ensures AllComparable(m, [l], vals, [w])
    ensures Clear(env, m, [l], vals, [w]) <==> !LeafPanics(env, m, l, vals, w)
    ensures DiffOf(env, m, [l], vals, [w], was) == WithColumn(env, m, l, vals, w, was)
  {
    hide Comparable, WithColumn, LeafPanics;
    assert [l][0] == l && [w][0] == w && [l][..0] == [] && [w][..0] == [];
    assert DiffOf(env, m, [l][..0], vals, [w][..0], was) == was;
  }

  // ---------------------------------------------------------------- the builder

  /** Every new member is among the old ones. */
  method SetCompare(members: seq<Text>, val: seq<Text>, oldValues: seq<uint64>) returns (valid: bool)
    ensures valid == AllIndexed(members, val, oldValues)
  {
    for j := 0 to |val|
      invariant forall i :: 0 <= i < j ==> Index(members, val[i]) in oldValues
    {
      var enumIndex := Index(members, val[j]);
      var found := false;
      for o := 0 to |oldValues|
        invariant found <==> enumIndex in oldValues[..o]
      {
        if oldValues[o] == enumIndex {
          found := true;
        }
      }
      assert oldValues[..|oldValues|] == oldValues;
      if !found {
        return false;
      }
    }
    return true;
  }

  /** Each kind's comparison of the old column with the new value. */
  method Unchanged(env: Env, k: Kind, f: Field, was: Wire, v: Value) returns (same: bool)
    requires Fits(k, f, v) && Shaped(k, was)
    ensures same == Same(env, k, f, was, v)
  {
    hide Midnight, Index, Within, Wrap, AllIndexed, Registered;
    match k {
      case Ref =>
        var val := 0;
        if v.ref.Some? {
          val := v.ref.value;
        }
        same := was.u == val;
      case UInt => same := was.u == v.u;
      case Int => same := was.i == v.i;
      case Bool => same := was.b == v.b;
      case Float => same := Near(env, f, v.f, was.u);
      case Time => same := SameTime(v.t, v.t, was.i);
      case Date => same := SameTime(v.t, Midnight(env, v.t), was.i);
      case FakeDelete => same := was.b == v.b;
      case Str => same := was.s == v.s;
      case UIntNull => same := if was.ou.Some? then v.un.Some? && was.ou.value == v.un.value else v.un.None?;
      case IntNull => same := if was.oi.Some? then v.n.Some? && was.oi.value == v.n.value else v.n.None?;
      case Enum => same := was.u == Index(f.members, v.e);
      case Bytes => same := was.s == List(v.bytes);
      case Set =>
        same := |List(v.set_)| == |was.us|;
        if same {
          same := SetCompare(f.members, List(v.set_), was.us);
        }
      case BoolNull => same := if was.ob.Some? then v.bn.Some? && was.ob.value == v.bn.value else v.bn.None?;
      case FloatNull => same := if was.ou.Some? then v.fn.Some? && Near(env, f, v.fn.value, was.ou.value) else v.fn.None?;
      case TimeNull => same := if was.oi.Some? then v.tn.Some? && Wrap(was.oi.value - TIME_STAMP_SECONDS) == v.tn.value else v.tn.None?;
      case DateNull =>
        same := if was.oi.Some? then v.tn.Some? && Wrap(was.oi.value - TIME_STAMP_SECONDS) == Midnight(env, v.tn.value) else v.tn.None?;
      case Json =>
        if |was.s| == 0 {
          same := v.j.None?;
        } else {
          var newValue := env.nullJson;
          if v.j.Some? {
            newValue := v.j.value;
          }
          same := env.Unmarshal(was.s) == newValue;
        }
      case RefsMany => same := was.us == List(v.refs);
    }
  }

  /** A time that was none counts as a zero time; otherwise the seconds are compared. */
  method SameTime(t: int64, seconds: int64, was: int64) returns (same: bool)
    ensures same <==> (OldTime(was) == 0 && IsZero(t)) || OldTime(was) == seconds
  {
    var isZero := t == ZERO_TIME || t == ANCIENT;
    var old' := 0;
    if was != ZERO_DATE_SECONDS {
      old' := Wrap(was - TIME_STAMP_SECONDS);
    }
    same := (old' == 0 && isZero) || old' == seconds;
  }

  /** Reads an old column. */
  method OldWire(s: Serializer, k: Kind, ghost w: Wire, ghost rest: seq<byte>) returns (r: Wire)
    requires s.Valid() && Shaped(k, w) && s.buffer == EncWire(w) + rest
    modifies s`buffer, s.scratch
    ensures r == w && s.buffer == rest
  {
    match k
    case Ref | UInt | Float | Enum =>
      var u := DeserializeU(s, w.u, rest);
      r := U(u);
    case Int | Time | Date =>
      var i := DeserializeI(s, w.i, rest);
      r := I(i);
    case Bool | FakeDelete =>
      var b := DeserializeB(s, w.b, rest);
      r := B(b);
    case Str | Bytes | Json =>
      var t := DeserializeS(s, w.s, rest);
      r := S(t);
    case UIntNull | FloatNull =>
      var o := DeserializeOU(s, w.ou, rest);
      r := OU(o);
    case IntNull | TimeNull | DateNull =>
      var o := DeserializeOI(s, w.oi, rest);
      r := OI(o);
    case BoolNull =>
      var o := DeserializeOB(s, w.ob, rest);
      r := OB(o);
    case Set | RefsMany =>
      var us := DeserializeLengthed(s, w.us, rest);
      r := L(us);
  }

  class BindBuilder {
    const mode: Mode
    const columnNames: seq<string>
    var bind: map<string, Column>
    var current: map<string, Column>
    var index: int

    constructor (mode: Mode, columnNames: seq<string>)
      ensures this.mode == mode && this.columnNames == columnNames
      ensures Now() == Diff(map[], map[]) && index == -1
    {
      this.mode, this.columnNames := mode, columnNames;
      bind, current, index := map[], map[], -1;
    }

    ghost function Now(): Diff
      reads this
    {
      Diff(bind, current)
    }

    /** The next columns of the table are these. */
    ghost predicate Names(at: int, leaves: seq<Leaf>) {
      0 <= at && at + |leaves| <= |columnNames| && forall j :: 0 <= j < |leaves| ==> columnNames[at + j] == leaves[j].column
    }

    method BuildField(env: Env, s: Serializer, k: Kind, f: Field, isId: bool, vals: Values, path: seq<nat>,
                      ghost l: Leaf, ghost w: Wire, ghost rest: seq<byte>)
      returns (ok: bool)
      requires s.Valid() && Comparable(l, mode, vals, w) && l.kind == k && l.field == f && l.path == path && isId == IsId(l)
      requires Names(index + 1, [l])
      requires s.buffer == if mode.inDB then EncWire(w) + rest else []
      modifies this`bind, this`current, this`index, s`buffer, s.scratch
      ensures index == old(index) + 1
      ensures s.buffer == if mode.inDB then rest else []
      ensures ok == !LeafPanics(env, mode, l, vals, w)
      ensures ok ==> Now() == WithColumn(env, mode, l, vals, w, old(Now()))
    {
      hide Shaped, Saved, Current, Same, EncWire;
      index := index + 1;
      var name := columnNames[index];
      assert name == [l][0].column;
      var v := vals[path];
      if mode.inDB {
        var was := OldWire(s, k, w, rest);
        if isId {
          return true;
        }
        if mode.hasCurrent {
          var c := Current(env, k, f, mode.id, was, v);
          if c.Some? {
            current := current[name := c.value];
          }
        }
        var same := Unchanged(env, k, f, was, v);
        if same {
          return true;
        }
      } else if isId {
        var stale := s.ReadByte();
        return true;
      }
      if k == Enum {
        if v.e != [] {
          if v.e !in f.members {
            return false;
          }
        } else if f.required && mode.inDB {
          return false;
        }
      }
      bind := bind[name := Saved(env, k, f, mode.id, mode.inDB, v)];
      return true;
    }

    /** Field j of one kind. */
    method BuildNext(env: Env, s: Serializer, k: Kind, fs: seq<Field>, j: nat, vals: Values, path: seq<nat>, root: bool,
                     ghost leaves: seq<Leaf>, ghost prefix: string, ghost ws: seq<Wire>, ghost rest: seq<byte>,
                     ghost start: int, ghost was: Diff)
      returns (ok: bool)
      requires s.Valid() && j < |fs| && leaves == KindLeaves(k, fs, path, prefix) && root == (path == [])
      requires AllComparable(mode, leaves, vals, ws) && Names(start + 1, leaves)
      requires Building(env, mode, s.buffer, Now(), index, start, leaves[..j], vals, ws, rest, was)
      modifies this`bind, this`current, this`index, s`buffer, s.scratch
      ensures ok ==> Building(env, mode, s.buffer, Now(), index, start, leaves[..j + 1], vals, ws, rest, was)
      ensures !ok ==> !Clear(env, mode, leaves, vals, ws)
    {
      hide Comparable, WithColumn, LeafPanics, EncWire, EncWires, DiffOf, Clear;
      var f := fs[j];
      ghost var l, buffer, middle, at := LeafOf(k, f, path, prefix), s.buffer, Now(), index;
      assert leaves[j] == l && leaves[..j] + [l] == leaves[..j + 1];
      BuildingNext(env, mode, buffer, middle, at, start, leaves[..j], [l], leaves, vals, ws, rest, was);
      assert ws[j..j + 1] == [ws[j]] && [ws[j]][0..] == [ws[j]];
      EncOne(ws[j]);
      OneColumn(env, mode, l, vals, ws[j], middle);
      IdPath(path, f.index);
      ok := BuildField(env, s, k, f, k == UInt && root && f.index == 1, vals, path + [f.index], l, ws[j], EncWires(ws[j + 1..]) + rest);
      if !ok {
        ClearParts(env, mode, leaves[..j], [l], leaves, vals, ws);
      } else {
        BuildingAfter(env, mode, buffer, middle, at, start, leaves[..j], [l], leaves, vals, ws, rest, was, s.buffer, Now(), index);
      }
    }

    method BuildKind(env: Env, s: Serializer, k: Kind, fs: seq<Field>, vals: Values, path: seq<nat>, root: bool,
                     ghost prefix: string, ghost ws: seq<Wire>, ghost rest: seq<byte>)
      returns (ok: bool)
      requires s.Valid() && AllComparable(mode, KindLeaves(k, fs, path, prefix), vals, ws) && root == (path == [])
      requires Names(index + 1, KindLeaves(k, fs, path, prefix)) && Cursor(mode, s.buffer, ws, 0, rest)
      modifies this`bind, this`current, this`index, s`buffer, s.scratch
      ensures ok == Clear(env, mode, KindLeaves(k, fs, path, prefix), vals, ws)
      ensures ok ==> Built(env, s.buffer, old(index), KindLeaves(k, fs, path, prefix), vals, ws, rest, old(Now()))
    {
      hide Comparable, EncWires, DiffOf, Clear;
      ghost var leaves := KindLeaves(k, fs, path, prefix);
      BuildingStart(env, mode, s.buffer, Now(), index, vals, ws, rest);
      for j := 0 to |fs|
        invariant Building(env, mode, s.buffer, Now(), index, old(index), leaves[..j], vals, ws, rest, old(Now()))
      {
        ok := BuildNext(env, s, k, fs, j, vals, path, root, leaves, prefix, ws, rest, old(index), old(Now()));
        if !ok {
          return;
        }
      }
      assert leaves[..|fs|] == leaves;
      BuildingEnd(env, mode, s.buffer, Now(), index, old(index), leaves, vals, ws, rest, old(Now()));
      return true;
    }

    lemma NamesPart(at: int, done: seq<Leaf>, next: seq<Leaf>, all: seq<Leaf>)
      requires Names(at, all) && done + next <= all
      ensures Names(at + |done|, next)
    {
      forall j | 0 <= j < |next| ensures columnNames[at + |done| + j] == next[j].column {
        assert next[j] == (done + next)[|done| + j] == all[|done| + j];
      }
    }

    lemma NoKinds(fields: TableFields, order: seq<Kind>, path: seq<nat>, prefix: string)
      ensures OrderLeaves(fields, order[..0], path, prefix) == []
    {
    }

    method BuildKinds(env: Env, s: Serializer, fields: TableFields, order: seq<Kind>, vals: Values, path: seq<nat>, root: bool,
                      ghost prefix: string, ghost ws: seq<Wire>, ghost rest: seq<byte>)
      returns (ok: bool)
      requires s.Valid() && root == (path == [])
      requires AllComparable(mode, OrderLeaves(fields, order, path, prefix), vals, ws)
      requires Names(index + 1, OrderLeaves(fields, order, path, prefix)) && Cursor(mode, s.buffer, ws, 0, rest)
      modifies this`bind, this`current, this`index, s`buffer, s.scratch
      ensures ok == Clear(env, mode, OrderLeaves(fields, order, path, prefix), vals, ws)
      ensures ok ==> Built(env, s.buffer, old(index), OrderLeaves(fields, order, path, prefix), vals, ws, rest, old(Now()))
    {
      hide Comparable, EncWires, DiffOf, Clear, Building, KindLeaves;
      hide Changed, LeafPanics, WithColumn, Cursor, Leaves, OrderLeaves;
      ghost var all, start, was := OrderLeaves(fields, order, path, prefix), index, Now();
      BuildingStart(env, mode, s.buffer, was, start, vals, ws, rest);
      NoKinds(fields, order, path, prefix);
      for i := 0 to |order|
        invariant Building(env, mode, s.buffer, Now(), index, start, OrderLeaves(fields, order[..i], path, prefix), vals, ws, rest, was)
      {
        var fs := fields.Of(order[i]);
        ghost var done, next := OrderLeaves(fields, order[..i], path, prefix), KindLeaves(order[i], fs, path, prefix);
        ghost var buffer, middle, at, b := s.buffer, Now(), index, |done| + |next|;
        OrderStep(fields, order, i, path, prefix);
        OrderPrefix(fields, order, i + 1, path, prefix);
        BuildingNext(env, mode, buffer, middle, at, start, done, next, all, vals, ws, rest, was);
        NamesPart(start + 1, done, next, all);
        ok := BuildKind(env, s, order[i], fs, vals, path, root, prefix, ws[|done|..b], EncWires(ws[b..]) + rest);
        if !ok {
          ComparableParts(mode, done, next, all, vals, ws);
          ClearParts(env, mode, done, next, all, vals, ws);
          return;
        }
        BuildingAfter(env, mode, buffer, middle, at, start, done, next, all, vals, ws, rest, was, s.buffer, Now(), index);
      }
      assert order[..|order|] == order;
      BuildingEnd(env, mode, s.buffer, Now(), index, start, all, vals, ws, rest, was);
      return true;
    }

    method BuildOwn(env: Env, s: Serializer, fields: TableFields, vals: Values, path: seq<nat>, root: bool,
                    ghost prefix: string, ghost ws: seq<Wire>, ghost rest: seq<byte>)
      returns (ok: bool)
      requires s.Valid() && root == (path == [])
      requires AllComparable(mode, OrderLeaves(fields, ORDER, path, prefix), vals, ws)
      requires Names(index + 1, OrderLeaves(fields, ORDER, path, prefix)) && Cursor(mode, s.buffer, ws, 0, rest)
      modifies this`bind, this`current, this`index, s`buffer, s.scratch
      ensures ok == Clear(env, mode, OrderLeaves(fields, ORDER, path, prefix), vals, ws)
      ensures ok ==> Built(env, s.buffer, old(index), OrderLeaves(fields, ORDER, path, prefix), vals, ws, rest, old(Now()))
    {
      hide Comparable, EncWires, DiffOf, Clear;
      var order := [
        Ref, UInt, Int, Bool, Float, Time, Date, FakeDelete, Str, UIntNull, IntNull, Enum, Bytes, Set,
        BoolNull, FloatNull, TimeNull, DateNull, Json, RefsMany];
      assert order == ORDER;
      ok := BuildKinds(env, s, fields, order, vals, path, root, prefix, ws, rest);
    }

    /** The struct's own fields. */
    method BuildHead(env: Env, s: Serializer, fields: TableFields, vals: Values, path: seq<nat>, root: bool,
                     ghost prefix: string, ghost ws: seq<Wire>, ghost rest: seq<byte>)
      returns (ok: bool)
      requires s.Valid() && root == (path == [])
      requires AllComparable(mode, Leaves(fields, path, prefix), vals, ws)
      requires Names(index + 1, Leaves(fields, path, prefix)) && Cursor(mode, s.buffer, ws, 0, rest)
      modifies this`bind, this`current, this`index, s`buffer, s.scratch
      ensures ok ==>
        Building(env, mode, s.buffer, Now(), index, old(index), Before(fields, 0, path, prefix), vals, ws, rest, old(Now()))
      ensures !ok ==> !Clear(env, mode, Leaves(fields, path, prefix), vals, ws)
    {
      hide Comparable, EncWires, DiffOf, Clear, Leaves, StructLeaves, OrderLeaves;
      ghost var all, own, b := Leaves(fields, path, prefix), OrderLeaves(fields, ORDER, path, prefix), |Before(fields, 0, path, prefix)|;
      ghost var start, was, buffer := index, Now(), s.buffer;
      BeforeStart(fields, path, prefix);
      BeforeEnds(fields, path, prefix);
      BuildingStart(env, mode, buffer, was, start, vals, ws, rest);
      BuildingNext(env, mode, buffer, was, start, start, [], own, all, vals, ws, rest, was);
      NamesPart(start + 1, [], own, all);
      ok := BuildOwn(env, s, fields, vals, path, root, prefix, ws[0..b], EncWires(ws[b..]) + rest);
      if !ok {
        ComparableParts(mode, [], own, all, vals, ws);
        ClearParts(env, mode, [], own, all, vals, ws);
      } else {
        BuildingAfter(env, mode, buffer, was, start, start, [], own, all, vals, ws, rest, was, s.buffer, Now(), index);
      }
    }

    method Build(env: Env, s: Serializer, fields: TableFields, vals: Values, path: seq<nat>, root: bool,
                 ghost prefix: string, ghost ws: seq<Wire>, ghost rest: seq<byte>)
      returns (ok: bool)
      requires s.Valid() && root == (path == [])
      requires AllComparable(mode, Leaves(fields, path, prefix), vals, ws)
      requires Names(index + 1, Leaves(fields, path, prefix)) && Cursor(mode, s.buffer, ws, 0, rest)
      modifies this`bind, this`current, this`index, s`buffer, s.scratch
      ensures ok == Clear(env, mode, Leaves(fields, path, prefix), vals, ws)
      ensures ok ==> Built(env, s.buffer, old(index), Leaves(fields, path, prefix), vals, ws, rest, old(Now()))
      decreases fields
    {
      hide Comparable, EncWires, DiffOf, Clear, Leaves, Before;
      ghost var start, was := index, Now();
      ok := BuildHead(env, s, fields, vals, path, root, prefix, ws, rest);
      if !ok {
        return;
      }
      for i := 0 to |fields.structs|
        invariant Building(env, mode, s.buffer, Now(), index, start, Before(fields, i, path, prefix), vals, ws, rest, was)
      {
        ok := BuildStruct(env, s, fields, i, vals, path, prefix, ws, rest, start, was);
        if !ok {
          return;
        }
      }
      BeforeEnds(fields, path, prefix);
      BuildingEnd(env, mode, s.buffer, Now(), index, start, Leaves(fields, path, prefix), vals, ws, rest, was);
      return true;
    }

    /** The next nested struct. */
    method BuildStruct(env: Env, s: Serializer, fields: TableFields, i: nat, vals: Values, path: seq<nat>,
                       ghost prefix: string, ghost ws: seq<Wire>, ghost rest: seq<byte>, ghost start: int, ghost was: Diff)
      returns (ok: bool)
      requires s.Valid() && i < |fields.structs|
      requires AllComparable(mode, Leaves(fields, path, prefix), vals, ws) && Names(start + 1, Leaves(fields, path, prefix))
      requires Building(env, mode, s.buffer, Now(), index, start, Before(fields, i, path, prefix), vals, ws, rest, was)
      modifies this`bind, this`current, this`index, s`buffer, s.scratch
      ensures ok ==>
        Building(env, mode, s.buffer, Now(), index, start, Before(fields, i + 1, path, prefix), vals, ws, rest, was)
      ensures !ok ==> !Clear(env, mode, Leaves(fields, path, prefix), vals, ws)
      decreases fields, 0
    {
      hide Comparable, EncWires, DiffOf, Clear, Leaves, Before;
      var e := fields.structs[i];
      ghost var all, done := Leaves(fields, path, prefix), Before(fields, i, path, prefix);
      ghost var buffer, middle, at, next := s.buffer, Now(), index, Leaves(e.fields, path + [e.index], SubPrefix(prefix, e));
      ghost var b := |done| + |next|;
      LeavesStep(fields, i, path, prefix);
      BeforePrefix(fields, i + 1, path, prefix);
      BuildingNext(env, mode, buffer, middle, at, start, done, next, all, vals, ws, rest, was);
      NamesPart(start + 1, done, next, all);
      ok := Build(env, s, e.fields, vals, path + [e.index], false, SubPrefix(prefix, e), ws[|done|..b], EncWires(ws[b..]) + rest);
      if !ok {
        ComparableParts(mode, done, next, all, vals, ws);
        ClearParts(env, mode, done, next, all, vals, ws);
      } else {
        BuildingAfter(env, mode, buffer, middle, at, start, done, next, all, vals, ws, rest, was, s.buffer, Now(), index);
      }
    }

    /** All these columns have been compared: the old record's bytes are consumed, no more and no less. */
    ghost predicate Built(env: Env, buffer: seq<byte>, start: int, leaves: seq<Leaf>, vals: Values, ws: seq<Wire>, rest: seq<byte>,
                          was: Diff)
      requires AllComparable(mode, leaves, vals, ws)
      reads this
    {
      && index == start + |leaves|
      && buffer == (if mode.inDB then rest else [])
      && Now() == DiffOf(env, mode, leaves, vals, ws, was)
    }
  }

  lemma IdPath(path: seq<nat>, i: nat)
    ensures path + [i] == [1] <==> path == [] && i == 1
  {
    if path + [i] == [1] {
      assert |path + [i]| == 1 && (path + [i])[0] == 1;
    }
  }

  /** What of the table's schema matters here. */
  datatype Schema = Schema(fields: TableFields, columnNames: seq<string>, fakeDelete: Option<seq<nat>>, hasLog: bool, cachedIndexes: nat)

  /** The fields once an entity marked as deleted has been flagged as such. */
  ghost function Marked(schema: Schema, orm: Orm): Values
    reads orm
  {
    if orm.fakeDelete && schema.fakeDelete.Some? then orm.values[schema.fakeDelete.value := BoolV(true)] else orm.values
  }

  ghost predicate Removed(schema: Schema, orm: Orm)
    reads orm
  {
    orm.delete || (orm.fakeDelete && schema.fakeDelete.None?)
  }

  /** What an entity is compared as. */
  ghost function ModeOf(schema: Schema, orm: Orm, id: uint64): Mode
    reads orm
  {
    Mode(id, orm.inDB, Removed(schema, orm) || schema.hasLog || schema.cachedIndexes > 0)
  }

  /** The record an entity carries: none when it is new, otherwise a hash and its columns. */
  ghost predicate Carries(orm: Orm, hash: uint64, ws: seq<Wire>)
    reads orm
  {
    if orm.inDB then orm.binary == Uvarint(hash) + (EncWires(ws) + []) else orm.binary == []
  }

  /** Puts the entity's record into the buffer and reads past its hash. */
  method OpenRecord(s: Serializer, orm: Orm, m: Mode, ghost hash: uint64, ghost ws: seq<Wire>)
    requires s.Valid() && Carries(orm, hash, ws) && m.inDB == orm.inDB
    modifies s`buffer, s.scratch
    ensures Cursor(m, s.buffer, ws, 0, [])
  {
    hide EncWires;
    s.Reset(orm.binary);
    if orm.inDB {
      var read := DeserializeU(s, hash, EncWires(ws) + []);
      assert ws[0..] == ws;
    } else {
      var stale := s.ReadByte();
    }
  }

  /** Compares the entity with its record, which is read to its end; ok is false when an enum value makes that panic. */
  method BuildDirtyBind(env: Env, s: Serializer, schema: Schema, orm: Orm, id: uint64, ghost hash: uint64, ghost ws: seq<Wire>)
    returns (b: BindBuilder, has: bool, ok: bool)
    requires s.Valid() && schema.columnNames == Names(Leaves(schema.fields, [], "")) && Carries(orm, hash, ws)
    requires AllComparable(ModeOf(schema, orm, id), Leaves(schema.fields, [], ""), Marked(schema, orm), ws)
    modifies s`buffer, s.scratch, orm`values, orm`delete
    ensures orm.delete == (old(orm.delete) || (orm.fakeDelete && schema.fakeDelete.None?))
    ensures orm.values ==
      if orm.fakeDelete && schema.fakeDelete.Some? then old(orm.values)[schema.fakeDelete.value := BoolV(true)] else old(orm.values)
    ensures b.mode == Mode(id, orm.inDB, orm.delete || schema.hasLog || schema.cachedIndexes > 0) == old(ModeOf(schema, orm, id))
    ensures ok == Clear(env, b.mode, Leaves(schema.fields, [], ""), orm.values, ws)
    ensures ok ==> s.buffer == [] && b.Now() == DiffOf(env, b.mode, Leaves(schema.fields, [], ""), orm.values, ws, Diff(map[], map[]))
    ensures ok ==> has == (!orm.inDB || orm.delete || b.bind != map[])
  {
    hide Comparable, EncWires, DiffOf, Clear, Leaves, Cursor, AllComparable;
    if orm.fakeDelete {
      if schema.fakeDelete.Some? {
        orm.values := orm.values[schema.fakeDelete.value := BoolV(true)];
      } else {
        orm.delete := true;
      }
    }
    b := new BindBuilder(Mode(id, orm.inDB, orm.delete || schema.hasLog || schema.cachedIndexes > 0), schema.columnNames);
    OpenRecord(s, orm, b.mode, hash, ws);
    ok := b.Build(env, s, schema.fields, orm.values, [], true, "", ws, []);
    has := !orm.inDB || orm.delete || |b.bind| > 0;
  }
}
