/** Walking a field tree to write an entity, to write a scanned row, and to read an entity back. */
module RecordTraversal {
  import opened Wrappers
  import opened SerializerBuffer
  import opened RecordSchema
  import opened RecordCodec
  import opened RecordFields

  type Values = map<seq<nat>, Value>

  /** An entity: its fields and those of the structs nested in it, each under its path, and the record it was loaded from. */
  class Orm {
    var values: Values
    var binary: seq<byte>
    var inDB: bool
    var loaded: bool
    var delete: bool
    var fakeDelete: bool

    constructor (values: Values)
      ensures this.values == values && binary == [] && !inDB && !loaded && !delete && !fakeDelete
    {
      this.values, binary := values, [];
      inDB, loaded, delete, fakeDelete := false, false, false, false;
    }
  }

  predicate LeafFits(l: Leaf, vals: Values) {
    l.path in vals && Fits(l.kind, l.field, vals[l.path])
  }

  predicate AllFit(leaves: seq<Leaf>, vals: Values) {
    forall i :: 0 <= i < |leaves| ==> LeafFits(leaves[i], vals)
  }

  // ---------------------------------------------------------------- entity to bytes

  function LeafWire(env: Env, l: Leaf, vals: Values): Wire
    requires LeafFits(l, vals)
  {
    ToWire(env, l.kind, l.field, vals[l.path])
  }

  function Wires(env: Env, leaves: seq<Leaf>, vals: Values): seq<Wire>
    requires AllFit(leaves, vals)
  {
    seq(|leaves|, i requires 0 <= i < |leaves| => LeafWire(env, leaves[i], vals))
  }

  function Encoded(env: Env, leaves: seq<Leaf>, vals: Values): seq<byte>
    requires AllFit(leaves, vals)
  {
    EncWires(Wires(env, leaves, vals))
  }

  lemma EncodedConcat(env: Env, p: seq<Leaf>, q: seq<Leaf>, vals: Values, before: seq<byte>)
    requires AllFit(p, vals) && AllFit(q, vals)
    ensures AllFit(p + q, vals)
    ensures before + Encoded(env, p, vals) + Encoded(env, q, vals) == before + Encoded(env, p + q, vals)
  {
    hide EncWires, LeafFits;
    assert Wires(env, p + q, vals) == Wires(env, p, vals) + Wires(env, q, vals);
    EncWiresConcat(Wires(env, p, vals), Wires(env, q, vals));
    Regroup(before, Encoded(env, p, vals), Encoded(env, q, vals));
  }

  lemma EncodedOne(env: Env, l: Leaf, vals: Values)
    requires LeafFits(l, vals)
    ensures Encoded(env, [l], vals) == EncWire(LeafWire(env, l, vals))
  {
    var ws := Wires(env, [l], vals);
    assert ws[0] == LeafWire(env, l, vals) && ws[..0] == [];
    assert EncWires(ws) == EncWires(ws[..0]) + EncWire(ws[0]);
  }

  /** The order in which one struct's kinds are written. */
  method SerializeKind(env: Env, s: Serializer, k: Kind, fs: seq<Field>, vals: Values, path: seq<nat>, ghost prefix: string)
    requires s.Valid() && env.Valid() && AllFit(KindLeaves(k, fs, path, prefix), vals)
    modifies s`buffer, s.scratch
    ensures s.buffer == old(s.buffer) + Encoded(env, KindLeaves(k, fs, path, prefix), vals)
  {
    ghost var leaves := KindLeaves(k, fs, path, prefix);
    for j := 0 to |fs|
      invariant s.buffer == old(s.buffer) + Encoded(env, leaves[..j], vals)
    {
      var f := fs[j];
      assert leaves[j] == LeafOf(k, f, path, prefix);
      assert leaves[..j + 1] == leaves[..j] + [leaves[j]];
      EncodedOne(env, leaves[j], vals);
      EncodedConcat(env, leaves[..j], [leaves[j]], vals, old(s.buffer));
      SerializeField(env, s, k, f, vals[path + [f.index]]);
    }
    assert leaves[..|fs|] == leaves;
  }

  lemma KindsStep(env: Env, fields: TableFields, order: seq<Kind>, i: nat, vals: Values, path: seq<nat>, prefix: string,
                  before: seq<byte>)
    requires i < |order| && AllFit(OrderLeaves(fields, order, path, prefix), vals)
    ensures AllFit(OrderLeaves(fields, order[..i], path, prefix), vals)
    ensures AllFit(KindLeaves(order[i], fields.Of(order[i]), path, prefix), vals)
    ensures AllFit(OrderLeaves(fields, order[..i + 1], path, prefix), vals)
    ensures before + Encoded(env, OrderLeaves(fields, order[..i], path, prefix), vals)
              + Encoded(env, KindLeaves(order[i], fields.Of(order[i]), path, prefix), vals)
         == before + Encoded(env, OrderLeaves(fields, order[..i + 1], path, prefix), vals)
  {
    hide EncWires, LeafFits;
    var done, next := OrderLeaves(fields, order[..i], path, prefix), KindLeaves(order[i], fields.Of(order[i]), path, prefix);
    OrderStep(fields, order, i, path, prefix);
    OrderPrefix(fields, order, i + 1, path, prefix);
    FitParts(done, next, OrderLeaves(fields, order, path, prefix), vals);
    EncodedConcat(env, done, next, vals, before);
  }

  method SerializeKinds(env: Env, s: Serializer, fields: TableFields, order: seq<Kind>, vals: Values,
                        path: seq<nat>, ghost prefix: string)
    requires s.Valid() && env.Valid() && AllFit(OrderLeaves(fields, order, path, prefix), vals)
    modifies s`buffer, s.scratch
    ensures s.buffer == old(s.buffer) + Encoded(env, OrderLeaves(fields, order, path, prefix), vals)
  {
    hide LeafFits;
    for i := 0 to |order|
      invariant AllFit(OrderLeaves(fields, order[..i], path, prefix), vals)
      invariant s.buffer == old(s.buffer) + Encoded(env, OrderLeaves(fields, order[..i], path, prefix), vals)
    {
      var fs := fields.Of(order[i]);
      KindsStep(env, fields, order, i, vals, path, prefix, old(s.buffer));
      SerializeKind(env, s, order[i], fs, vals, path, prefix);
    }
    assert order[..|order|] == order;
  }

  lemma FitParts(p: seq<Leaf>, q: seq<Leaf>, all: seq<Leaf>, vals: Values)
    requires AllFit(all, vals) && p + q <= all
    ensures AllFit(p, vals) && AllFit(q, vals)
  {
    forall i | 0 <= i < |p|
      ensures LeafFits(p[i], vals)
    {
      assert all[i] == p[i];
    }
    forall i | 0 <= i < |q|
      ensures LeafFits(q[i], vals)
    {
      assert all[|p| + i] == q[i];
    }
  }

  method SerializeOwn(env: Env, s: Serializer, fields: TableFields, vals: Values, path: seq<nat>, ghost prefix: string)
    requires s.Valid() && env.Valid() && AllFit(OrderLeaves(fields, ORDER, path, prefix), vals)
    modifies s`buffer, s.scratch
    ensures s.buffer == old(s.buffer) + Encoded(env, OrderLeaves(fields, ORDER, path, prefix), vals)
  {
    var order := [
      Ref, UInt, Int, Bool, Float, Time, Date, FakeDelete, Str, UIntNull, IntNull, Enum, Bytes, Set,
      BoolNull, FloatNull, TimeNull, DateNull, Json, RefsMany];
    assert order == ORDER;
    SerializeKinds(env, s, fields, order, vals, path, prefix);
  }

  method SerializeStructs(env: Env, s: Serializer, fields: TableFields, vals: Values, path: seq<nat>, ghost prefix: string)
    requires s.Valid() && env.Valid() && AllFit(Leaves(fields, path, prefix), vals)
    modifies s`buffer, s.scratch
    ensures s.buffer == old(s.buffer) + Encoded(env, Leaves(fields, path, prefix), vals)
    decreases fields
  {
    hide LeafFits, OrderLeaves, StructLeaves, Leaves, Before, Encoded;
    BeforeEnds(fields, path, prefix);
    BeforePrefix(fields, 0, path, prefix);
    FitParts(Before(fields, 0, path, prefix), [], Leaves(fields, path, prefix), vals);
    SerializeOwn(env, s, fields, vals, path, prefix);
    for i := 0 to |fields.structs|
      invariant AllFit(Before(fields, i, path, prefix), vals)
      invariant s.buffer == old(s.buffer) + Encoded(env, Before(fields, i, path, prefix), vals)
    {
      var e := fields.structs[i];
      StructsStep(env, fields, i, vals, path, prefix, old(s.buffer));
      SerializeStructs(env, s, e.fields, vals, path + [e.index], SubPrefix(prefix, e));
    }
  }

  lemma StructsStep(env: Env, fields: TableFields, i: nat, vals: Values, path: seq<nat>, prefix: string, before: seq<byte>)
    requires i < |fields.structs| && AllFit(Leaves(fields, path, prefix), vals)
    ensures
      var e := fields.structs[i];
      var done, next := Before(fields, i, path, prefix), Leaves(e.fields, path + [e.index], SubPrefix(prefix, e));
      && AllFit(done, vals) && AllFit(next, vals) && AllFit(Before(fields, i + 1, path, prefix), vals)
      && before + Encoded(env, done, vals) + Encoded(env, next, vals)
      == before + Encoded(env, Before(fields, i + 1, path, prefix), vals)
  {
    hide EncWires, LeafFits;
    var e := fields.structs[i];
    var done, next := Before(fields, i, path, prefix), Leaves(e.fields, path + [e.index], SubPrefix(prefix, e));
    LeavesStep(fields, i, path, prefix);
    BeforePrefix(fields, i + 1, path, prefix);
    FitParts(done, next, Leaves(fields, path, prefix), vals);
    EncodedConcat(env, done, next, vals, before);
  }

  /** Writes the entity's record: the hash of its structure, then its columns. */
  method Serialize(env: Env, s: Serializer, fields: TableFields, structureHash: uint64, orm: Orm)
    requires s.Valid() && env.Valid() && s.buffer == [] && AllFit(Leaves(fields, [], ""), orm.values)
    modifies s`buffer, s.scratch, orm`binary
    ensures orm.binary == Uvarint(structureHash) + Encoded(env, Leaves(fields, [], ""), orm.values)
    ensures s.buffer == []
  {
    s.SerializeUInteger(structureHash);
    assert [] + Uvarint(structureHash) == Uvarint(structureHash);
    SerializeStructs(env, s, fields, orm.values, [], "");
    orm.binary := s.Read();
  }

  // ---------------------------------------------------------------- bytes to entity

  predicate AllDecodable(leaves: seq<Leaf>, ws: seq<Wire>) {
    |ws| == |leaves| && forall i :: 0 <= i < |ws| ==> Decodable(leaves[i].kind, leaves[i].field, ws[i])
  }

  /** The fields once these columns have been read into them, in order. */
  function Stored(env: Env, leaves: seq<Leaf>, ws: seq<Wire>, vals: Values): Values
    requires AllDecodable(leaves, ws)
  {
    if leaves == [] then vals
    else
      var n := |leaves| - 1;
      Stored(env, leaves[..n], ws[..n], vals)[leaves[n].path := FromWire(env, leaves[n].kind, leaves[n].field, ws[n])]
  }

  lemma {:induction false} StoredConcat(env: Env, p: seq<Leaf>, a: seq<Wire>, q: seq<Leaf>, b: seq<Wire>, vals: Values)
    requires AllDecodable(p, a) && AllDecodable(q, b)
    ensures AllDecodable(p + q, a + b)
    ensures Stored(env, p + q, a + b, vals) == Stored(env, q, b, Stored(env, p, a, vals))
  {
    hide Decodable, FromWire;
    if q == [] {
      assert p + q == p && a + b == a;
    } else {
      var n := |q| - 1;
      StoredConcat(env, p, a, q[..n], b[..n], vals);
      assert (p + q)[..|p| + n] == p + q[..n] && (a + b)[..|p| + n] == a + b[..n];
    }
  }

  /** A column among others that have other paths is read back as its own bytes say. */
  lemma {:induction false} StoredAt(env: Env, leaves: seq<Leaf>, ws: seq<Wire>, vals: Values, i: nat)
    requires AllDecodable(leaves, ws) && i < |leaves|
    requires forall j :: 0 <= j < |leaves| && j != i ==> leaves[j].path != leaves[i].path
    ensures leaves[i].path in Stored(env, leaves, ws, vals)
    ensures Stored(env, leaves, ws, vals)[leaves[i].path] == FromWire(env, leaves[i].kind, leaves[i].field, ws[i])
  {
    hide Decodable, FromWire;
    var n := |leaves| - 1;
    if i < n {
      StoredAt(env, leaves[..n], ws[..n], vals, i);
      assert leaves[n].path != leaves[i].path;
    }
  }

  lemma {:induction false} StoredElsewhere(env: Env, leaves: seq<Leaf>, ws: seq<Wire>, vals: Values, path: seq<nat>)
    requires AllDecodable(leaves, ws)
    requires forall j :: 0 <= j < |leaves| ==> leaves[j].path != path
    ensures path in Stored(env, leaves, ws, vals) <==> path in vals
    ensures path in vals ==> Stored(env, leaves, ws, vals)[path] == vals[path]
  {
    hide Decodable, FromWire;
    if leaves != [] {
      var n := |leaves| - 1;
      StoredElsewhere(env, leaves[..n], ws[..n], vals, path);
      assert leaves[n].path != path;
    }
  }

  lemma Slice(ws: seq<Wire>, a: nat, b: nat, rest: seq<byte>)
    requires a <= b <= |ws|
    ensures EncWires(ws[a..]) + rest == EncWires(ws[a..b]) + (EncWires(ws[b..]) + rest)
  {
    assert ws[a..] == ws[a..b] + ws[b..];
    EncWiresConcat(ws[a..b], ws[b..]);
    Regroup(EncWires(ws[a..b]), EncWires(ws[b..]), rest);
  }

  lemma EncOne(w: Wire)
    ensures EncWires([w]) == EncWire(w)
  {
    assert [w][..0] == [];
    assert EncWires([w]) == EncWires([w][..0]) + EncWire([w][0]);
  }

  lemma DecodableParts(done: seq<Leaf>, next: seq<Leaf>, all: seq<Leaf>, ws: seq<Wire>)
    requires AllDecodable(all, ws) && done + next <= all
    ensures |done| + |next| <= |ws|
    ensures AllDecodable(done, ws[..|done|]) && AllDecodable(next, ws[|done|..|done| + |next|])
    ensures AllDecodable(done + next, ws[..|done| + |next|])
  {
    hide Decodable;
    forall i | 0 <= i < |done + next| ensures (done + next)[i] == all[i] {}
    forall i | 0 <= i < |done|
      ensures Decodable(done[i].kind, done[i].field, ws[..|done|][i])
    {
      assert done[i] == (done + next)[i];
    }
    forall i | 0 <= i < |next|
      ensures Decodable(next[i].kind, next[i].field, ws[|done|..|done| + |next|][i])
    {
      assert next[i] == (done + next)[|done| + i];
    }
  }

  /** Storing one more stretch of columns. */
  lemma StoredStep(env: Env, done: seq<Leaf>, next: seq<Leaf>, all: seq<Leaf>, ws: seq<Wire>, vals: Values)
    requires AllDecodable(all, ws) && done + next <= all
    ensures |done| + |next| <= |ws|
    ensures AllDecodable(done, ws[..|done|]) && AllDecodable(next, ws[|done|..|done| + |next|])
    ensures AllDecodable(done + next, ws[..|done| + |next|])
    ensures Stored(env, done + next, ws[..|done| + |next|], vals)
         == Stored(env, next, ws[|done|..|done| + |next|], Stored(env, done, ws[..|done|], vals))
  {
    hide Decodable, Stored;
    var n := |done| + |next|;
    DecodableParts(done, next, all, ws);
    assert ws[..n] == ws[..|done|] + ws[|done|..n];
    StoredConcat(env, done, ws[..|done|], next, ws[|done|..n], vals);
  }

  /** The columns in done have been read; the buffer holds the others, then rest. */
  ghost predicate Reading(env: Env, buffer: seq<byte>, vals: Values, done: seq<Leaf>, ws: seq<Wire>, rest: seq<byte>, was: Values) {
    && |done| <= |ws| && AllDecodable(done, ws[..|done|])
    && buffer == EncWires(ws[|done|..]) + rest
    && vals == Stored(env, done, ws[..|done|], was)
  }

  lemma ReadingStart(env: Env, buffer: seq<byte>, vals: Values, ws: seq<Wire>, rest: seq<byte>)
    requires buffer == EncWires(ws) + rest
    ensures Reading(env, buffer, vals, [], ws, rest, vals)
  {
    assert ws[0..] == ws;
  }

  lemma ReadingEnd(env: Env, buffer: seq<byte>, vals: Values, all: seq<Leaf>, ws: seq<Wire>, rest: seq<byte>, was: Values)
    requires Reading(env, buffer, vals, all, ws, rest, was) && AllDecodable(all, ws)
    ensures buffer == rest && vals == Stored(env, all, ws, was)
  {
    assert ws[..|all|] == ws && ws[|all|..] == [];
    assert [] + rest == rest;
  }

  /** What the next stretch of columns will find in the buffer. */
  lemma ReadingNext(env: Env, buffer: seq<byte>, vals: Values, done: seq<Leaf>, next: seq<Leaf>, all: seq<Leaf>,
                    ws: seq<Wire>, rest: seq<byte>, was: Values)
    requires Reading(env, buffer, vals, done, ws, rest, was) && AllDecodable(all, ws) && done + next <= all
    ensures
      var a, b := |done|, |done| + |next|;
      b <= |ws| && AllDecodable(next, ws[a..b]) && buffer == EncWires(ws[a..b]) + (EncWires(ws[b..]) + rest)
  {
    hide Decodable, EncWires;
    StoredStep(env, done, next, all, ws, was);
    Slice(ws, |done|, |done| + |next|, rest);
  }

  /** Reading more: what all columns so far leave behind follows from what the last stretch of them did. */
  /** Storing one more stretch of columns, up to the n-th. */
  lemma StoredUpTo(env: Env, done: seq<Leaf>, next: seq<Leaf>, all: seq<Leaf>, n: nat, ws: seq<Wire>, vals: Values)
    requires AllDecodable(all, ws) && done + next <= all && n == |done| + |next|
    ensures n == |done + next| <= |ws| && |done| <= n
    ensures AllDecodable(done, ws[..|done|]) && AllDecodable(next, ws[|done|..n]) && AllDecodable(done + next, ws[..n])
    ensures Stored(env, done + next, ws[..n], vals) == Stored(env, next, ws[|done|..n], Stored(env, done, ws[..|done|], vals))
  {
    hide Decodable, AllDecodable, Stored;
    StoredStep(env, done, next, all, ws, vals);
  }

  lemma ReadingAfter(env: Env, buffer: seq<byte>, vals: Values, done: seq<Leaf>, next: seq<Leaf>, all: seq<Leaf>, n: nat,
                     ws: seq<Wire>, rest: seq<byte>, was: Values, buffer': seq<byte>, vals': Values)
    requires Reading(env, buffer, vals, done, ws, rest, was)
    requires AllDecodable(all, ws) && done + next <= all && n == |done| + |next|
    requires AllDecodable(next, ws[|done|..n])
    requires vals' == Stored(env, next, ws[|done|..n], vals)
    requires buffer' == EncWires(ws[n..]) + rest
    ensures Reading(env, buffer', vals', done + next, ws, rest, was)
  {
    hide Decodable, AllDecodable, EncWires, Stored;
    StoredUpTo(env, done, next, all, n, ws, was);
  }

  lemma StoredOne(env: Env, l: Leaf, w: Wire, vals: Values)
    requires Decodable(l.kind, l.field, w)
    ensures AllDecodable([l], [w])
    ensures Stored(env, [l], [w], vals) == vals[l.path := FromWire(env, l.kind, l.field, w)]
  {
    assert [l][..0] == [] && [w][..0] == [];
    assert Stored(env, [l][..0], [w][..0], vals) == vals;
    assert [l][0] == l && [w][0] == w;
  }

  method DeserializeKind(env: Env, s: Serializer, orm: Orm, k: Kind, fs: seq<Field>, path: seq<nat>, ghost prefix: string,
                         ghost ws: seq<Wire>, ghost rest: seq<byte>)
    requires s.Valid() && AllDecodable(KindLeaves(k, fs, path, prefix), ws) && s.buffer == EncWires(ws) + rest
    modifies s`buffer, s.scratch, orm`values
    ensures s.buffer == rest
    ensures orm.values == Stored(env, KindLeaves(k, fs, path, prefix), ws, old(orm.values))
  {
    hide Decodable, EncWires;
    ghost var leaves := KindLeaves(k, fs, path, prefix);
    ReadingStart(env, s.buffer, orm.values, ws, rest);
    for j := 0 to |fs|
      invariant Reading(env, s.buffer, orm.values, leaves[..j], ws, rest, old(orm.values))
    {
      var f := fs[j];
      ghost var buffer, vals, l := s.buffer, orm.values, LeafOf(k, f, path, prefix);
      assert leaves[j] == l && leaves[..j] + [l] == leaves[..j + 1];
      ReadingNext(env, s.buffer, vals, leaves[..j], [l], leaves, ws, rest, old(orm.values));
      assert ws[j..j + 1] == [ws[j]];
      EncOne(ws[j]);
      StoredOne(env, l, ws[j], vals);
      var v := DeserializeField(env, s, k, f, ws[j], EncWires(ws[j + 1..]) + rest);
      orm.values := orm.values[path + [f.index] := v];
      ReadingAfter(env, buffer, vals, leaves[..j], [l], leaves, j + 1, ws, rest, old(orm.values), s.buffer, orm.values);
    }
    assert leaves[..|fs|] == leaves;
    ReadingEnd(env, s.buffer, orm.values, leaves, ws, rest, old(orm.values));
  }

  method DeserializeKinds(env: Env, s: Serializer, orm: Orm, fields: TableFields, order: seq<Kind>, path: seq<nat>,
                          ghost prefix: string, ghost ws: seq<Wire>, ghost rest: seq<byte>)
    requires s.Valid() && AllDecodable(OrderLeaves(fields, order, path, prefix), ws) && s.buffer == EncWires(ws) + rest
    modifies s`buffer, s.scratch, orm`values
    ensures s.buffer == rest
    ensures orm.values == Stored(env, OrderLeaves(fields, order, path, prefix), ws, old(orm.values))
  {
    hide Decodable, EncWires, Stored, AllDecodable, Reading, KindLeaves;
    ghost var all := OrderLeaves(fields, order, path, prefix);
    ReadingStart(env, s.buffer, orm.values, ws, rest);
    for i := 0 to |order|
      invariant Reading(env, s.buffer, orm.values, OrderLeaves(fields, order[..i], path, prefix), ws, rest, old(orm.values))
    {
      var fs := fields.Of(order[i]);
      ghost var buffer, vals := s.buffer, orm.values;
      ghost var done, next := OrderLeaves(fields, order[..i], path, prefix), KindLeaves(order[i], fs, path, prefix);
      OrderStep(fields, order, i, path, prefix);
      OrderPrefix(fields, order, i + 1, path, prefix);
      ReadingNext(env, s.buffer, vals, done, next, all, ws, rest, old(orm.values));
      ghost var b := |done| + |next|;
      DeserializeKind(env, s, orm, order[i], fs, path, prefix, ws[|done|..b], EncWires(ws[b..]) + rest);
      ReadingAfter(env, buffer, vals, done, next, all, |done| + |next|, ws, rest, old(orm.values), s.buffer, orm.values);
    }
    assert order[..|order|] == order;
    ReadingEnd(env, s.buffer, orm.values, all, ws, rest, old(orm.values));
  }

  method DeserializeOwn(env: Env, s: Serializer, orm: Orm, fields: TableFields, path: seq<nat>,
                        ghost prefix: string, ghost ws: seq<Wire>, ghost rest: seq<byte>)
    requires s.Valid() && AllDecodable(OrderLeaves(fields, ORDER, path, prefix), ws) && s.buffer == EncWires(ws) + rest
    modifies s`buffer, s.scratch, orm`values
    ensures s.buffer == rest
    ensures orm.values == Stored(env, OrderLeaves(fields, ORDER, path, prefix), ws, old(orm.values))
  {
    var order := [
      Ref, UInt, Int, Bool, Float, Time, Date, FakeDelete, Str, UIntNull, IntNull, Enum, Bytes, Set,
      BoolNull, FloatNull, TimeNull, DateNull, Json, RefsMany];
    assert order == ORDER;
    DeserializeKinds(env, s, orm, fields, order, path, prefix, ws, rest);
  }

  method DeserializeFields(env: Env, s: Serializer, orm: Orm, fields: TableFields, path: seq<nat>,
                           ghost prefix: string, ghost ws: seq<Wire>, ghost rest: seq<byte>)
    requires s.Valid() && AllDecodable(Leaves(fields, path, prefix), ws) && s.buffer == EncWires(ws) + rest
    modifies s`buffer, s.scratch, orm`values
    ensures s.buffer == rest
    ensures orm.values == Stored(env, Leaves(fields, path, prefix), ws, old(orm.values))
    decreases fields
  {
    hide Decodable, EncWires, Stored, AllDecodable, Reading;
    DeserializeHead(env, s, orm, fields, path, prefix, ws, rest);
    for i := 0 to |fields.structs|
      invariant Reading(env, s.buffer, orm.values, Before(fields, i, path, prefix), ws, rest, old(orm.values))
    {
      DeserializeStruct(env, s, orm, fields, i, path, prefix, ws, rest, old(orm.values));
    }
    ReadingEnd(env, s.buffer, orm.values, Leaves(fields, path, prefix), ws, rest, old(orm.values));
  }

  /** The struct's own fields, with those of its nested structs still to come. */
  method DeserializeHead(env: Env, s: Serializer, orm: Orm, fields: TableFields, path: seq<nat>,
                         ghost prefix: string, ghost ws: seq<Wire>, ghost rest: seq<byte>)
    requires s.Valid() && AllDecodable(Leaves(fields, path, prefix), ws) && s.buffer == EncWires(ws) + rest
    modifies s`buffer, s.scratch, orm`values
    ensures Reading(env, s.buffer, orm.values, Before(fields, 0, path, prefix), ws, rest, old(orm.values))
  {
    hide Decodable, EncWires;
    ghost var all, own := Leaves(fields, path, prefix), OrderLeaves(fields, ORDER, path, prefix);
    ghost var buffer, vals := s.buffer, orm.values;
    ReadingStart(env, s.buffer, vals, ws, rest);
    BeforeStart(fields, path, prefix);
    ReadingNext(env, s.buffer, vals, [], own, all, ws, rest, vals);
    DeserializeOwn(env, s, orm, fields, path, prefix, ws[0..|own|], EncWires(ws[|own|..]) + rest);
    ReadingAfter(env, buffer, vals, [], own, all, |own|, ws, rest, vals, s.buffer, orm.values);
  }

  lemma BeforeStart(fields: TableFields, path: seq<nat>, prefix: string)
    ensures Before(fields, 0, path, prefix) == [] + OrderLeaves(fields, ORDER, path, prefix) <= Leaves(fields, path, prefix)
  {
    BeforePrefix(fields, 0, path, prefix);
  }

  /** The next nested struct. */
  method DeserializeStruct(env: Env, s: Serializer, orm: Orm, fields: TableFields, i: nat, path: seq<nat>,
                           ghost prefix: string, ghost ws: seq<Wire>, ghost rest: seq<byte>, ghost was: Values)
    requires s.Valid() && i < |fields.structs| && AllDecodable(Leaves(fields, path, prefix), ws)
    requires Reading(env, s.buffer, orm.values, Before(fields, i, path, prefix), ws, rest, was)
    modifies s`buffer, s.scratch, orm`values
    ensures Reading(env, s.buffer, orm.values, Before(fields, i + 1, path, prefix), ws, rest, was)
    decreases fields, 0
  {
    var e := fields.structs[i];
    ghost var all, done := Leaves(fields, path, prefix), Before(fields, i, path, prefix);
    ghost var buffer, vals := s.buffer, orm.values;
    ghost var next := Leaves(e.fields, path + [e.index], SubPrefix(prefix, e));
    LeavesStep(fields, i, path, prefix);
    BeforePrefix(fields, i + 1, path, prefix);
    ReadingNext(env, s.buffer, vals, done, next, all, ws, rest, was);
    ghost var b := |done| + |next|;
    DeserializeFields(env, s, orm, e.fields, path + [e.index], SubPrefix(prefix, e), ws[|done|..b], EncWires(ws[b..]) + rest);
    ReadingAfter(env, buffer, vals, done, next, all, |done| + |next|, ws, rest, was, s.buffer, orm.values);
  }

  /** Reads the entity's record, unless it was written for another structure; the caller panics then. */
  method Deserialize(env: Env, s: Serializer, fields: TableFields, structureHash: uint64, disableCacheHashCheck: bool, orm: Orm,
                     ghost hash: uint64, ghost ws: seq<Wire>, ghost rest: seq<byte>)
    returns (ok: bool)
    requires s.Valid() && AllDecodable(Leaves(fields, [], ""), ws)
    requires orm.binary == Uvarint(hash) + (EncWires(ws) + rest)
    modifies s`buffer, s.scratch, orm`values, orm`loaded
    ensures ok == (disableCacheHashCheck || hash == structureHash)
    ensures ok ==> orm.loaded && s.buffer == rest && orm.values == Stored(env, Leaves(fields, [], ""), ws, old(orm.values))
    ensures !ok ==> orm.values == old(orm.values) && orm.loaded == old(orm.loaded)
  {
    s.Reset(orm.binary);
    var read := DeserializeU(s, hash, EncWires(ws) + rest);
    if !disableCacheHashCheck && read != structureHash {
      return false;
    }
    DeserializeFields(env, s, orm, fields, [], "", ws, rest);
    orm.loaded := true;
    return true;
  }

  // ---------------------------------------------------------------- row to bytes

  predicate CellFits(l: Leaf, c: Cell) {
    ScannedBy(PointerOf(l.kind), c) && SmallEnum(l.field)
  }

  /** The cells from start on were scanned through the pointers of these columns. */
  predicate RowFits(leaves: seq<Leaf>, cells: seq<Cell>, start: nat) {
    start + |leaves| <= |cells| && forall j :: 0 <= j < |leaves| ==> CellFits(leaves[j], cells[start + j])
  }

  function CellWire(env: Env, l: Leaf, c: Cell): Wire
    requires CellFits(l, c)
  {
    FromRow(env, l.kind, l.field, c)
  }

  function RowWires(env: Env, leaves: seq<Leaf>, cells: seq<Cell>, start: nat): seq<Wire>
    requires RowFits(leaves, cells, start)
  {
    seq(|leaves|, j requires 0 <= j < |leaves| => CellWire(env, leaves[j], cells[start + j]))
  }

  function RowEncoded(env: Env, leaves: seq<Leaf>, cells: seq<Cell>, start: nat): seq<byte>
    requires RowFits(leaves, cells, start)
  {
    EncWires(RowWires(env, leaves, cells, start))
  }

  /** What prepared pointers have scanned fits the columns they were prepared for. */
  lemma ScannedFits(pointers: seq<Pointer>, cells: seq<Cell>, leaves: seq<Leaf>)
    requires Prepared(pointers, 0, leaves) && |pointers| == |cells| == |leaves|
    requires forall j :: 0 <= j < |cells| ==> ScannedBy(pointers[j], cells[j])
    requires forall j :: 0 <= j < |leaves| ==> SmallEnum(leaves[j].field)
    ensures RowFits(leaves, cells, 0)
  {
    forall j | 0 <= j < |leaves| ensures CellFits(leaves[j], cells[0 + j]) {
      assert pointers[0 + j] == PointerOf(leaves[j].kind);
    }
  }

  lemma RowParts(done: seq<Leaf>, next: seq<Leaf>, all: seq<Leaf>, cells: seq<Cell>, start: nat)
    requires RowFits(all, cells, start) && done + next <= all
    ensures RowFits(done, cells, start) && RowFits(next, cells, start + |done|) && RowFits(done + next, cells, start)
  {
    forall j | 0 <= j < |done + next| ensures CellFits((done + next)[j], cells[start + j]) {
      assert all[j] == (done + next)[j];
    }
    forall j | 0 <= j < |done| ensures CellFits(done[j], cells[start + j]) {
      assert (done + next)[j] == done[j];
    }
    forall j | 0 <= j < |next| ensures CellFits(next[j], cells[start + |done| + j]) {
      assert (done + next)[|done| + j] == next[j];
    }
  }

  lemma RowStep(env: Env, done: seq<Leaf>, next: seq<Leaf>, all: seq<Leaf>, cells: seq<Cell>, start: nat, before: seq<byte>)
    requires RowFits(all, cells, start) && done + next <= all
    ensures RowFits(done, cells, start) && RowFits(next, cells, start + |done|) && RowFits(done + next, cells, start)
    ensures before + RowEncoded(env, done, cells, start) + RowEncoded(env, next, cells, start + |done|)
         == before + RowEncoded(env, done + next, cells, start)
  {
    hide CellFits, EncWires;
    RowParts(done, next, all, cells, start);
    var a, b := RowWires(env, done, cells, start), RowWires(env, next, cells, start + |done|);
    assert RowWires(env, done + next, cells, start) == a + b;
    EncWiresConcat(a, b);
    Regroup(before, EncWires(a), EncWires(b));
  }

  lemma RowOne(env: Env, l: Leaf, cells: seq<Cell>, start: nat)
    requires start < |cells| && CellFits(l, cells[start])
    ensures RowFits([l], cells, start)
    ensures RowEncoded(env, [l], cells, start) == EncWire(CellWire(env, l, cells[start]))
  {
    assert RowWires(env, [l], cells, start) == [CellWire(env, l, cells[start])];
    EncOne(CellWire(env, l, cells[start]));
  }

  method SerializeCells(env: Env, s: Serializer, k: Kind, fs: seq<Field>, start: nat, cells: seq<Cell>,
                        ghost path: seq<nat>, ghost prefix: string)
    returns (index: nat)
    requires s.Valid() && env.Valid() && RowFits(KindLeaves(k, fs, path, prefix), cells, start)
    modifies s`buffer, s.scratch
    ensures index == start + |fs|
    ensures s.buffer == old(s.buffer) + RowEncoded(env, KindLeaves(k, fs, path, prefix), cells, start)
  {
    hide EncWires;
    ghost var leaves := KindLeaves(k, fs, path, prefix);
    index := start;
    assert RowWires(env, leaves[..0], cells, start) == [];
    NoWires();
    for j := 0 to |fs|
      invariant index == start + j && RowFits(leaves[..j], cells, start)
      invariant s.buffer == old(s.buffer) + RowEncoded(env, leaves[..j], cells, start)
    {
      ghost var l := LeafOf(k, fs[j], path, prefix);
      assert leaves[j] == l && leaves[..j] + [l] == leaves[..j + 1];
      assert CellFits(leaves[j], cells[start + j]);
      RowOne(env, l, cells, index);
      RowStep(env, leaves[..j], [l], leaves, cells, start, old(s.buffer));
      SerializeCell(env, s, k, fs[j], cells[index]);
      index := index + 1;
    }
    assert leaves[..|fs|] == leaves;
  }

  lemma NoWires()
    ensures EncWires([]) == []
  {
  }

  method SerializeRowKinds(env: Env, s: Serializer, fields: TableFields, order: seq<Kind>, start: nat, cells: seq<Cell>,
                           ghost path: seq<nat>, ghost prefix: string)
    returns (index: nat)
    requires s.Valid() && env.Valid() && RowFits(OrderLeaves(fields, order, path, prefix), cells, start)
    modifies s`buffer, s.scratch
    ensures index == start + |OrderLeaves(fields, order, path, prefix)|
    ensures s.buffer == old(s.buffer) + RowEncoded(env, OrderLeaves(fields, order, path, prefix), cells, start)
  {
    hide EncWires, CellFits;
    index := start;
    assert RowWires(env, [], cells, start) == [];
    NoWires();
    for i := 0 to |order|
      invariant RowFits(OrderLeaves(fields, order[..i], path, prefix), cells, start)
      invariant index == start + |OrderLeaves(fields, order[..i], path, prefix)|
      invariant s.buffer == old(s.buffer) + RowEncoded(env, OrderLeaves(fields, order[..i], path, prefix), cells, start)
    {
      var fs := fields.Of(order[i]);
      OrderStep(fields, order, i, path, prefix);
      OrderPrefix(fields, order, i + 1, path, prefix);
      RowStep(env, OrderLeaves(fields, order[..i], path, prefix), KindLeaves(order[i], fs, path, prefix),
        OrderLeaves(fields, order, path, prefix), cells, start, old(s.buffer));
      index := SerializeCells(env, s, order[i], fs, index, cells, path, prefix);
    }
    assert order[..|order|] == order;
  }

  method SerializeRowOwn(env: Env, s: Serializer, fields: TableFields, start: nat, cells: seq<Cell>,
                         ghost path: seq<nat>, ghost prefix: string)
    returns (index: nat)
    requires s.Valid() && env.Valid() && RowFits(OrderLeaves(fields, ORDER, path, prefix), cells, start)
    modifies s`buffer, s.scratch
    ensures index == start + |OrderLeaves(fields, ORDER, path, prefix)|
    ensures s.buffer == old(s.buffer) + RowEncoded(env, OrderLeaves(fields, ORDER, path, prefix), cells, start)
  {
    var order := [
      Ref, UInt, Int, Bool, Float, Time, Date, FakeDelete, Str, UIntNull, IntNull, Enum, Bytes, Set,
      BoolNull, FloatNull, TimeNull, DateNull, Json, RefsMany];
    assert order == ORDER;
    index := SerializeRowKinds(env, s, fields, order, start, cells, path, prefix);
  }

  method DeserializeStructFromDB(env: Env, s: Serializer, start: nat, fields: TableFields, cells: seq<Cell>,
                                 ghost path: seq<nat>, ghost prefix: string)
    returns (index: nat)
    requires s.Valid() && env.Valid() && RowFits(Leaves(fields, path, prefix), cells, start)
    modifies s`buffer, s.scratch
    ensures index == start + |Leaves(fields, path, prefix)|
    ensures s.buffer == old(s.buffer) + RowEncoded(env, Leaves(fields, path, prefix), cells, start)
    decreases fields
  {
    hide EncWires, CellFits;
    BeforeStart(fields, path, prefix);
    assert [] + OrderLeaves(fields, ORDER, path, prefix) == OrderLeaves(fields, ORDER, path, prefix);
    RowParts([], OrderLeaves(fields, ORDER, path, prefix), Leaves(fields, path, prefix), cells, start);
    index := SerializeRowOwn(env, s, fields, start, cells, path, prefix);
    for i := 0 to |fields.structs|
      invariant RowFits(Before(fields, i, path, prefix), cells, start)
      invariant index == start + |Before(fields, i, path, prefix)|
      invariant s.buffer == old(s.buffer) + RowEncoded(env, Before(fields, i, path, prefix), cells, start)
    {
      var e := fields.structs[i];
      LeavesStep(fields, i, path, prefix);
      BeforePrefix(fields, i + 1, path, prefix);
      RowStep(env, Before(fields, i, path, prefix), Leaves(e.fields, path + [e.index], SubPrefix(prefix, e)),
        Leaves(fields, path, prefix), cells, start, old(s.buffer));
      index := DeserializeStructFromDB(env, s, index, e.fields, cells, path + [e.index], SubPrefix(prefix, e));
    }
  }

  /** A scanned column can be decoded unless it is a set with a member that is not registered. */
  lemma RowDecodable(env: Env, l: Leaf, c: Cell)
    requires env.Valid() && CellFits(l, c)
    ensures Decodable(l.kind, l.field, CellWire(env, l, c))
       <==> (l.kind == Set ==> forall i :: 0 <= i < |Pieces(c.s)| ==> Pieces(c.s)[i] in l.field.members)
  {
    hide FromRow, Decodable, Fits;
    if l.kind == Set {
      RowSetShaped(env, l, c);
    } else {
      RowShaped(env, l, c);
    }
  }

  lemma RowSetShaped(env: Env, l: Leaf, c: Cell)
    requires CellFits(l, c) && l.kind == Set
    ensures Decodable(l.kind, l.field, CellWire(env, l, c))
       <==> (forall i :: 0 <= i < |Pieces(c.s)| ==> Pieces(c.s)[i] in l.field.members)
  {
    SplitSize(TextOf(c.s), COMMA);
    IndexesFound(l.field.members, Pieces(c.s));
  }

  lemma IndexesFound(members: seq<Text>, ts: seq<Text>)
    requires |members| < U64
    ensures
      var us := Indexes(members, ts);
      (forall i :: 0 <= i < |us| ==> 1 <= us[i] <= |members|) <==> (forall i :: 0 <= i < |ts| ==> ts[i] in members)
  {
    var us := Indexes(members, ts);
    assert forall i :: 0 <= i < |ts| ==> us[i] == Index(members, ts[i]);
    if i :| 0 <= i < |ts| && ts[i] !in members {
      assert us[i] == 0;
    }
  }

  lemma RowShaped(env: Env, l: Leaf, c: Cell)
    requires env.Valid() && CellFits(l, c) && l.kind != Set
    ensures Decodable(l.kind, l.field, CellWire(env, l, c))
  {
  }

  /** Fills the entity from a scanned row: the row becomes its record, which is then read back. */
  method FillFromDBRow(env: Env, s: Serializer, id: uint64, fields: TableFields, structureHash: uint64, cells: seq<Cell>, orm: Orm)
    requires s.Valid() && env.Valid() && s.buffer == [] && RowFits(Leaves(fields, [], ""), cells, 0)
    requires AllDecodable(Leaves(fields, [], ""), RowWires(env, Leaves(fields, [], ""), cells, 0))
    modifies s`buffer, s.scratch, orm
    ensures orm.inDB && orm.loaded && s.buffer == []
    ensures orm.binary == Uvarint(structureHash) + RowEncoded(env, Leaves(fields, [], ""), cells, 0)
    ensures orm.values == Stored(env, Leaves(fields, [], ""), RowWires(env, Leaves(fields, [], ""), cells, 0),
                                 old(orm.values)[[1] := UIntV(id)])
  {
    ghost var leaves := Leaves(fields, [], "");
    orm.values := orm.values[[1] := UIntV(id)];
    orm.inDB := true;
    orm.loaded := true;
    s.SerializeUInteger(structureHash);
    assert [] + Uvarint(structureHash) == Uvarint(structureHash);
    var index := DeserializeStructFromDB(env, s, 0, fields, cells, [], "");
    orm.binary := s.Read();
    ghost var ws := RowWires(env, leaves, cells, 0);
    assert EncWires(ws) + [] == EncWires(ws);
    var ok := Deserialize(env, s, fields, structureHash, false, orm, structureHash, ws, []);
  }

  // ---------------------------------------------------------------- round trip

  /**
   * Reading what was written, from any entity and with anything after it, leaves every column in its normal form
   * and every other field alone.
   */
  lemma RecordRoundTrip(env: Env, leaves: seq<Leaf>, vals: Values, other: Values)
    requires env.Valid() && AllFit(leaves, vals) && DistinctPaths(leaves)
    ensures AllDecodable(leaves, Wires(env, leaves, vals))
    ensures
      var read := Stored(env, leaves, Wires(env, leaves, vals), other);
      && (forall i :: 0 <= i < |leaves| ==>
            var l := leaves[i];
            l.path in read && read[l.path] == Normal(env, l.kind, l.field, vals[l.path]))
      && (forall p :: (forall i :: 0 <= i < |leaves| ==> leaves[i].path != p) ==>
            (p in read <==> p in other) && (p in other ==> read[p] == other[p]))
  {
    var ws := Wires(env, leaves, vals);
    forall i | 0 <= i < |leaves|
      ensures Decodable(leaves[i].kind, leaves[i].field, ws[i])
      ensures FromWire(env, leaves[i].kind, leaves[i].field, ws[i])
           == Normal(env, leaves[i].kind, leaves[i].field, vals[leaves[i].path])
    {
      assert LeafFits(leaves[i], vals);
      WireRoundTrip(env, leaves[i].kind, leaves[i].field, vals[leaves[i].path]);
    }
    forall i | 0 <= i < |leaves|
      ensures
        var l := leaves[i];
        var read := Stored(env, leaves, ws, other);
        l.path in read && read[l.path] == FromWire(env, l.kind, l.field, ws[i])
    {
      StoredAt(env, leaves, ws, other, i);
    }
    forall p | forall i :: 0 <= i < |leaves| ==> leaves[i].path != p
      ensures
        var read := Stored(env, leaves, ws, other);
        (p in read <==> p in other) && (p in other ==> read[p] == other[p])
    {
      StoredElsewhere(env, leaves, ws, other, p);
    }
  }
}
