/** Loading the entities that loaded rows refer to, one level of references after another. */
module WarmUp {
  import opened Wrappers

  datatype Key = Key(schema: string, id: nat)

  /** A row: the keys in its reference columns, and everything else. */
  datatype Row = Row(refs: map<string, seq<Key>>, content: int)

  datatype Entry = Absent | Present(row: Row)

  /** An entity object: one the caller made, or one made for a reference column when its parent was filled. */
  datatype Ptr = Root(n: nat, key: Key) | Child(parent: Ptr, name: string, i: nat, key: Key)

  type Refs = map<string, seq<Ptr>>

  /** The loaded objects with their rows, and the objects they refer to; and the caches. */
  datatype State = State(loaded: map<Ptr, Row>, refs: map<Ptr, Refs>, local: map<Key, Entry>, redis: map<Key, Entry>)

  type Database = map<Key, Row>

  function EntryOf(db: Database, k: Key): Entry {
    if k in db then Present(db[k]) else Absent
  }

  ghost predicate Matching(m: map<Key, Entry>, db: Database) {
    forall k :: k in m ==> m[k] == EntryOf(db, k)
  }

  predicate Holds(m: map<Key, Entry>, k: Key) {
    k in m && m[k].Present?
  }

  /** The objects that filling p from a row makes for its reference columns. */
  function ChildrenOf(p: Ptr, row: Row): Refs {
    map name | name in row.refs :: seq(|row.refs[name]|, i requires 0 <= i < |row.refs[name]| => Child(p, name, i, row.refs[name][i]))
  }

  /**
   * The objects of an entity are those of its row's references: the same columns, as many in each, the i-th with the
   * i-th key.
   */
  predicate RefersTo(refs: Refs, row: Row) {
    && refs.Keys == row.refs.Keys
    && forall name :: name in refs ==>
         && |refs[name]| == |row.refs[name]|
         && forall i :: 0 <= i < |refs[name]| ==> refs[name][i].key == row.refs[name][i]
  }

  lemma ChildrenRefer(p: Ptr, row: Row)
    ensures RefersTo(ChildrenOf(p, row), row)
  {
  }

  // ---------------------------------------------------------------- one level

  function Keys(ptrs: seq<Ptr>): (r: set<Key>)
    ensures forall p :: p in ptrs ==> p.key in r
  {
    set p <- ptrs :: p.key
  }

  /** Objects whose key is among these are filled with their rows. */
  function FilledRows(db: Database, ptrs: seq<Ptr>, got: set<Key>): map<Ptr, Row> {
    map p | p in ptrs && p.key in got && p.key in db :: db[p.key]
  }

  function FilledRefs(db: Database, ptrs: seq<Ptr>, got: set<Key>): map<Ptr, Refs> {
    map p | p in ptrs && p.key in got && p.key in db :: ChildrenOf(p, db[p.key])
  }

  /** The keys MySQL is asked for: those whose rows no cache holds. */
  function Asked(s: State, hasLocal: set<string>, hasRedis: set<string>, ptrs: seq<Ptr>): set<Key> {
    set k <- Keys(ptrs) | !(k.schema in hasLocal && Holds(s.local, k)) && !(k.schema in hasRedis && Holds(s.redis, k))
  }

  function ServedLocal(s: State, db: Database, hasLocal: set<string>, ptrs: seq<Ptr>): map<Key, Entry> {
    map k | k in Keys(ptrs) && k.schema in hasLocal && !Holds(s.local, k) :: EntryOf(db, k)
  }

  function ServedRedis(s: State, db: Database, hasLocal: set<string>, hasRedis: set<string>, ptrs: seq<Ptr>): map<Key, Entry> {
    map k | k in Keys(ptrs) && k.schema in hasRedis && !(k.schema in hasLocal && Holds(s.local, k)) && !Holds(s.redis, k) :: EntryOf(db, k)
  }

  /** After a level: every object whose row exists is filled, and the caches hold what they lacked. */
  function Level(s: State, db: Database, hasLocal: set<string>, hasRedis: set<string>, ptrs: seq<Ptr>): State {
    State(
      s.loaded + FilledRows(db, ptrs, Keys(ptrs)), s.refs + FilledRefs(db, ptrs, Keys(ptrs)),
      s.local + ServedLocal(s, db, hasLocal, ptrs), s.redis + ServedRedis(s, db, hasLocal, hasRedis, ptrs))
  }

  ghost predicate Coherent(s: State, db: Database) {
    Matching(s.local, db) && Matching(s.redis, db)
  }

  lemma LevelCoherent(s: State, db: Database, hasLocal: set<string>, hasRedis: set<string>, ptrs: seq<Ptr>)
    requires Coherent(s, db)
    ensures Coherent(Level(s, db, hasLocal, hasRedis, ptrs), db)
  {
    hide ServedLocal, ServedRedis, FilledRows, FilledRefs;
    ServedMatching(s, db, hasLocal, hasRedis, ptrs);
    MatchingPlus(s.local, ServedLocal(s, db, hasLocal, ptrs), db);
    MatchingPlus(s.redis, ServedRedis(s, db, hasLocal, hasRedis, ptrs), db);
  }

  lemma ServedMatching(s: State, db: Database, hasLocal: set<string>, hasRedis: set<string>, ptrs: seq<Ptr>)
    ensures Matching(ServedLocal(s, db, hasLocal, ptrs), db) && Matching(ServedRedis(s, db, hasLocal, hasRedis, ptrs), db)
  {
    hide Holds;
  }

  /**
   * After a level every cache there is has the row, or the mark of the absence, of every key that it was looked for in and
   * lacked; other entries are as they were.
   */
  lemma LevelServes(s: State, db: Database, hasLocal: set<string>, hasRedis: set<string>, ptrs: seq<Ptr>, k: Key)
    ensures
      var t := Level(s, db, hasLocal, hasRedis, ptrs);
      var wanted := exists p :: p in ptrs && p.key == k;
      var atLocal := wanted && k.schema in hasLocal && !Holds(s.local, k);
      var atRedis := wanted && k.schema in hasRedis && !(k.schema in hasLocal && Holds(s.local, k)) && !Holds(s.redis, k);
      && (atLocal ==> k in t.local && t.local[k] == if k in db then Present(db[k]) else Absent)
      && (!atLocal ==> (k in t.local <==> k in s.local) && (k in s.local ==> t.local[k] == s.local[k]))
      && (atRedis ==> k in t.redis && t.redis[k] == if k in db then Present(db[k]) else Absent)
      && (!atRedis ==> (k in t.redis <==> k in s.redis) && (k in s.redis ==> t.redis[k] == s.redis[k]))
      && (k in Asked(s, hasLocal, hasRedis, ptrs) <==>
            wanted && !(k.schema in hasLocal && Holds(s.local, k)) && !(k.schema in hasRedis && Holds(s.redis, k)))
  {
    hide FilledRows, FilledRefs, Holds;
    assert (exists p :: p in ptrs && p.key == k) <==> k in Keys(ptrs);
  }

  lemma MatchingPlus(m: map<Key, Entry>, n: map<Key, Entry>, db: Database)
    requires Matching(m, db) && Matching(n, db)
    ensures Matching(m + n, db)
  {
  }

  // ---------------------------------------------------------------- the maps of waiting objects

  /** The waiting objects of each key whose schema is among these. */
  ghost predicate Groups(m: map<Key, seq<Ptr>>, ptrs: seq<Ptr>, keys: set<Key>) {
    m.Keys == keys && forall k :: k in m ==> m[k] != [] && forall p :: p in m[k] <==> p in ptrs && p.key == k
  }

  function Of(schemas: set<string>, ptrs: seq<Ptr>): set<Key> {
    set k <- Keys(ptrs) | k.schema in schemas
  }

  function Append(m: map<Key, seq<Ptr>>, p: Ptr): map<Key, seq<Ptr>> {
    m[p.key := (if p.key in m then m[p.key] else []) + [p]]
  }

  lemma KeysStep(ptrs: seq<Ptr>, i: nat)
    requires i < |ptrs|
    ensures Keys(ptrs[..i + 1]) == Keys(ptrs[..i]) + {ptrs[i].key}
  {
    assert ptrs[..i + 1] == ptrs[..i] + [ptrs[i]];
  }

  lemma GroupsAppend(m: map<Key, seq<Ptr>>, ptrs: seq<Ptr>, keys: set<Key>, i: nat)
    requires i < |ptrs| && Groups(m, ptrs[..i], keys) && keys <= Keys(ptrs[..i])
    requires ptrs[i].key !in keys ==> ptrs[i].key !in Keys(ptrs[..i])
    ensures Groups(Append(m, ptrs[i]), ptrs[..i + 1], keys + {ptrs[i].key})
  {
    var q := ptrs[i];
    assert ptrs[..i + 1] == ptrs[..i] + [q];
    var n := Append(m, q);
    forall k | k in n ensures n[k] != [] && forall p :: p in n[k] <==> p in ptrs[..i + 1] && p.key == k {
      assert k !in m && k == q.key ==> forall p :: p in ptrs[..i] ==> p.key != k;
    }
  }

  lemma GroupsSkip(m: map<Key, seq<Ptr>>, ptrs: seq<Ptr>, keys: set<Key>, i: nat)
    requires i < |ptrs| && Groups(m, ptrs[..i], keys) && ptrs[i].key !in keys
    ensures Groups(m, ptrs[..i + 1], keys)
  {
    assert ptrs[..i + 1] == ptrs[..i] + [ptrs[i]];
  }

  /** The keys of these whose rows a cache holds. */
  function HeldOf(keys: set<Key>, m: map<Key, Entry>): set<Key> {
    set k <- keys | Holds(m, k)
  }

  lemma HeldNext(all: set<Key>, keys: set<Key>, k: Key, m: map<Key, Entry>)
    requires k in keys && keys <= all
    ensures HeldOf(all - (keys - {k}), m) == HeldOf(all - keys, m) + if Holds(m, k) then {k} else {}
    ensures k !in HeldOf(all - keys, m)
  {
  }

  lemma HeldEnds(all: set<Key>, m: map<Key, Entry>)
    ensures HeldOf(all - all, m) == {} && HeldOf(all - {}, m) == HeldOf(all, m)
  {
  }

  class Engine {
    const db: Database
    const hasLocal: set<string>
    const hasRedis: set<string>
    var loaded: map<Ptr, Row>
    var refs: map<Ptr, Refs>
    var local: map<Key, Entry>
    var redis: map<Key, Entry>

    constructor (db: Database, hasLocal: set<string>, hasRedis: set<string>, s: State)
      ensures this.db == db && this.hasLocal == hasLocal && this.hasRedis == hasRedis && Now() == s
    {
      this.db, this.hasLocal, this.hasRedis := db, hasLocal, hasRedis;
      loaded, refs, local, redis := s.loaded, s.refs, s.local, s.redis;
    }

    ghost function Now(): State
      reads this
    {
      State(loaded, refs, local, redis)
    }

    /** Puts the objects into the maps of those waiting for MySQL, the local cache and Redis. */
    method FillRefMaps(ptrs: seq<Ptr>) returns (dbMap: map<Key, seq<Ptr>>, localMap: map<Key, seq<Ptr>>, redisMap: map<Key, seq<Ptr>>)
      ensures Groups(dbMap, ptrs, Keys(ptrs))
      ensures Groups(localMap, ptrs, Of(hasLocal, ptrs)) && Groups(redisMap, ptrs, Of(hasRedis, ptrs))
    {
      hide Groups;
      dbMap, localMap, redisMap := map[], map[], map[];
      NoGroups();
      assert Of(hasLocal, ptrs[..0]) == {} && Of(hasRedis, ptrs[..0]) == {} && ptrs[..0] == [];
      for i := 0 to |ptrs|
        invariant Groups(dbMap, ptrs[..i], Keys(ptrs[..i]))
        invariant Groups(localMap, ptrs[..i], Of(hasLocal, ptrs[..i])) && Groups(redisMap, ptrs[..i], Of(hasRedis, ptrs[..i]))
      {
        var p := ptrs[i];
        KeysStep(ptrs, i);
        GroupsAppend(dbMap, ptrs, Keys(ptrs[..i]), i);
        dbMap := Append(dbMap, p);
        localMap := AddTo(localMap, ptrs, i, hasLocal);
        redisMap := AddTo(redisMap, ptrs, i, hasRedis);
      }
      assert ptrs[..|ptrs|] == ptrs;
    }

    method FillObjects(ps: seq<Ptr>, row: Row)
      modifies this`loaded, this`refs
      ensures loaded == old(loaded) + AllRows(ps, row) && refs == old(refs) + AllRefs(ps, row)
    {
      hide AllRows, AllRefs;
      NoneFilled(row);
      assert ps[..0] == [];
      for i := 0 to |ps|
        invariant loaded == old(loaded) + AllRows(ps[..i], row) && refs == old(refs) + AllRefs(ps[..i], row)
      {
        FillStep(old(loaded), old(refs), ps, i, row);
        loaded := loaded[ps[i] := row];
        refs := refs[ps[i] := ChildrenOf(ps[i], row)];
      }
      assert ps[..|ps|] == ps;
    }

    /** The objects whose keys are in got have been filled since s. */
    ghost predicate Progress(s: State, ptrs: seq<Ptr>, got: set<Key>)
      reads this
    {
      && loaded == s.loaded + FilledRows(db, ptrs, got)
      && refs == s.refs + FilledRefs(db, ptrs, got)
      && local == s.local && redis == s.redis
    }

    /** Fills the objects waiting for a key. */
    method FillKey(k: Key, ps: seq<Ptr>, row: Row, ghost s: State, ghost ptrs: seq<Ptr>, ghost got: set<Key>)
      requires Progress(s, ptrs, got) && k in db && row == db[k]
      requires forall p :: p in ps <==> p in ptrs && p.key == k
      modifies this`loaded, this`refs
      ensures Progress(s, ptrs, got + {k})
    {
      hide AllRows, AllRefs, FilledRows, FilledRefs;
      FillObjects(ps, row);
      FillUnion(s, db, ptrs, got, k, ps);
    }

    lemma Started(ptrs: seq<Ptr>)
      ensures Progress(Now(), ptrs, {})
    {
      NothingGot(Now(), db, ptrs);
    }

    /** Once everything is filled, an object that was not loaded is so exactly when its row exists. */
    lemma FirstLoaded(s: State, ptrs: seq<Ptr>, p: Ptr)
      requires Progress(s, ptrs, Keys(ptrs)) && p in ptrs && p !in s.loaded
      ensures (if p in loaded then Present(loaded[p]) else Absent) == EntryOf(db, p.key)
    {
      assert p.key in Keys(ptrs);
    }

    /** The objects of a key whose row the local cache holds are filled and wait no more. */
    method FillHeld(k: Key, dbMap': map<Key, seq<Ptr>>, localMap': map<Key, seq<Ptr>>, redisMap': map<Key, seq<Ptr>>,
                    ghost s: State, ghost ptrs: seq<Ptr>, ghost got: set<Key>)
      returns (dbMap: map<Key, seq<Ptr>>, localMap: map<Key, seq<Ptr>>, redisMap: map<Key, seq<Ptr>>)
      requires Matching(local, db) && Holds(local, k) && k in Of(hasLocal, ptrs) && k !in got
      requires Progress(s, ptrs, got) && Waiting(dbMap', localMap', redisMap', ptrs, hasLocal, hasRedis, got)
      modifies this`loaded, this`refs
      ensures Progress(s, ptrs, got + {k}) && Waiting(dbMap, localMap, redisMap, ptrs, hasLocal, hasRedis, got + {k})
    {
      hide Waiting, Keys, Of, FilledRows, FilledRefs, Progress, Matching;
      WaitingFor(dbMap', localMap', redisMap', ptrs, hasLocal, hasRedis, got, k);
      HeldRow(local, db, k);
      FillKey(k, localMap'[k], local[k].row, s, ptrs, got);
      FewerWaiting(dbMap', localMap', redisMap', ptrs, hasLocal, hasRedis, got, k);
      dbMap, localMap, redisMap := dbMap' - {k}, localMap' - {k}, redisMap' - {k};
    }

    /** The objects whose rows the local cache holds are filled and wait no more. */
    method FromLocal(ptrs: seq<Ptr>, dbMap': map<Key, seq<Ptr>>, localMap': map<Key, seq<Ptr>>, redisMap': map<Key, seq<Ptr>>)
      returns (dbMap: map<Key, seq<Ptr>>, localMap: map<Key, seq<Ptr>>, redisMap: map<Key, seq<Ptr>>, ghost got: set<Key>)
      requires Coherent(Now(), db) && Waiting(dbMap', localMap', redisMap', ptrs, hasLocal, hasRedis, {})
      modifies this`loaded, this`refs
      ensures got == HeldOf(Of(hasLocal, ptrs), local)
      ensures Progress(old(Now()), ptrs, got)
      ensures Waiting(dbMap, localMap, redisMap, ptrs, hasLocal, hasRedis, got)
    {
      hide Waiting, Keys, Of, FilledRows, FilledRefs, Progress, Holds, Matching, HeldOf;
      dbMap, localMap, redisMap, got := dbMap', localMap', redisMap', {};
      Started(ptrs);
      ghost var s, all := Now(), Of(hasLocal, ptrs);
      WaitingKeys(dbMap, localMap, redisMap, ptrs, hasLocal, hasRedis);
      HeldEnds(all, local);
      var keys := localMap.Keys;
      while keys != {}
        invariant keys <= all && got == HeldOf(all - keys, local)
        invariant Progress(s, ptrs, got) && Waiting(dbMap, localMap, redisMap, ptrs, hasLocal, hasRedis, got)
        decreases |keys|
      {
        var k :| k in keys;
        HeldNext(all, keys, k, local);
        if Holds(local, k) {
          dbMap, localMap, redisMap := FillHeld(k, dbMap, localMap, redisMap, s, ptrs, got);
          got := got + {k};
        }
        keys := keys - {k};
      }
    }

    /** The objects whose rows Redis holds are filled; the local cache still waits for them. */
    method FromRedis(ptrs: seq<Ptr>, dbMap': map<Key, seq<Ptr>>, redisMap': map<Key, seq<Ptr>>, ghost s: State, ghost before: set<Key>)
      returns (dbMap: map<Key, seq<Ptr>>, redisMap: map<Key, seq<Ptr>>, ghost got: set<Key>)
      requires Coherent(Now(), db) && Progress(s, ptrs, before)
      requires Groups(dbMap', ptrs, Keys(ptrs) - before) && Groups(redisMap', ptrs, Of(hasRedis, ptrs) - before)
      modifies this`loaded, this`refs
      ensures got == set k <- Of(hasRedis, ptrs) - before | Holds(redis, k)
      ensures Progress(s, ptrs, before + got)
      ensures Groups(dbMap, ptrs, Keys(ptrs) - (before + got)) && Groups(redisMap, ptrs, Of(hasRedis, ptrs) - (before + got))
    {
      hide Groups, Keys, Of, FilledRows, FilledRefs, Progress, Holds, Matching;
      dbMap, redisMap, got := dbMap', redisMap', {};
      GroupKeys(redisMap, ptrs, Of(hasRedis, ptrs) - before);
      var keys := redisMap.Keys;
      assert before + {} == before;
      while keys != {}
        invariant keys <= Of(hasRedis, ptrs) - before - got
        invariant got == set k <- Of(hasRedis, ptrs) - before - keys | Holds(redis, k)
        invariant Progress(s, ptrs, before + got)
        invariant Groups(dbMap, ptrs, Keys(ptrs) - (before + got)) && Groups(redisMap, ptrs, Of(hasRedis, ptrs) - (before + got))
        decreases |keys|
      {
        var k :| k in keys;
        if Holds(redis, k) {
          GroupsOf(redisMap, ptrs, Of(hasRedis, ptrs) - (before + got), k);
          HeldRow(redis, db, k);
          FillKey(k, redisMap[k], redis[k].row, s, ptrs, before + got);
          GroupsRemove(dbMap, ptrs, Keys(ptrs), before + got, k);
          GroupsRemove(redisMap, ptrs, Of(hasRedis, ptrs), before + got, k);
          assert before + got + {k} == before + (got + {k});
          dbMap, redisMap := dbMap - {k}, redisMap - {k};
          got := got + {k};
        }
        keys := keys - {k};
      }
    }

    /** One query for the keys that still wait; the rows it returns fill their objects. */
    method FromDB(ptrs: seq<Ptr>, dbMap: map<Key, seq<Ptr>>, ghost s: State, ghost before: set<Key>)
      returns (asked: set<Key>)
      requires Progress(s, ptrs, before) && Groups(dbMap, ptrs, Keys(ptrs) - before) && before <= Keys(ptrs)
      modifies this`loaded, this`refs
      ensures asked == Keys(ptrs) - before
      ensures Progress(s, ptrs, Keys(ptrs))
    {
      hide Groups, Keys, FilledRows, FilledRefs, Progress;
      GroupKeys(dbMap, ptrs, Keys(ptrs) - before);
      asked := dbMap.Keys;
      var rows := set k <- asked | k in db;
      ghost var got := {};
      assert before + {} == before;
      while rows != {}
        invariant rows <= asked && got <= asked
        invariant forall k :: k in asked && k in db ==> k in rows || k in got
        invariant forall k :: k in rows ==> k in db
        invariant Progress(s, ptrs, before + got)
        decreases |rows|
      {
        var k :| k in rows;
        GroupsOf(dbMap, ptrs, Keys(ptrs) - before, k);
        FillKey(k, dbMap[k], db[k], s, ptrs, before + got);
        assert before + got + {k} == before + (got + {k});
        rows := rows - {k};
        got := got + {k};
      }
      Finished(s, ptrs, before + got);
    }

    lemma Finished(s: State, ptrs: seq<Ptr>, got: set<Key>)
      requires Progress(s, ptrs, got) && forall k :: k in Keys(ptrs) && k in db ==> k in got
      ensures Progress(s, ptrs, Keys(ptrs))
    {
      OthersAbsent(db, ptrs, got);
    }

    /** What a cache is given for the keys that still wait for it: the row of their first object, or the mark of its absence. */
    method Values(waiting: map<Key, seq<Ptr>>, ghost s: State, ghost ptrs: seq<Ptr>) returns (values: map<Key, Entry>)
      requires Progress(s, ptrs, Keys(ptrs)) && Groups(waiting, ptrs, waiting.Keys)
      requires forall p :: p in ptrs ==> p !in s.loaded
      ensures values == map k | k in waiting.Keys :: EntryOf(db, k)
    {
      hide Groups, Progress, EntryOf;
      values := map[];
      var keys := waiting.Keys;
      while keys != {}
        invariant keys <= waiting.Keys
        invariant values.Keys == waiting.Keys - keys
        invariant forall k :: k in values ==> values[k] == EntryOf(db, k)
        decreases |keys|
      {
        var k :| k in keys;
        GroupsOf(waiting, ptrs, waiting.Keys, k);
        var first := waiting[k][0];
        assert first in waiting[k];
        FirstLoaded(s, ptrs, first);
        values := values[k := if first in loaded then Present(loaded[first]) else Absent];
        keys := keys - {k};
      }
    }

    /** Loads one level of unloaded objects. */
    method WarmLevel(ptrs: seq<Ptr>) returns (asked: set<Key>)
      requires Coherent(Now(), db) && forall p :: p in ptrs ==> p !in loaded
      modifies this
      ensures Now() == Level(old(Now()), db, hasLocal, hasRedis, ptrs)
      ensures forall p :: p in ptrs && p.key in db ==>
        p in loaded && loaded[p] == db[p.key] && p in refs && RefersTo(refs[p], db[p.key])
      ensures asked == Asked(old(Now()), hasLocal, hasRedis, ptrs)
    {
      hide Groups, Progress, FilledRows, FilledRefs, RefersTo;
      ghost var s := Now();
      var dbMap, localMap, redisMap := FillRefMaps(ptrs);
      ghost var l, r;
      WaitingStarts(dbMap, localMap, redisMap, ptrs, hasLocal, hasRedis);
      dbMap, localMap, redisMap, l := FromLocal(ptrs, dbMap, localMap, redisMap);
      CachesUntouched(s, ptrs, l);
      dbMap, redisMap, r := FromRedis(ptrs, dbMap, redisMap, s, l);
      asked := FromDB(ptrs, dbMap, s, l + r);
      GroupKeys(redisMap, ptrs, Of(hasRedis, ptrs) - (l + r));
      GroupKeys(localMap, ptrs, Of(hasLocal, ptrs) - l);
      var redisValues := Values(redisMap, s, ptrs);
      var localValues := Values(localMap, s, ptrs);
      CachesUntouched(s, ptrs, Keys(ptrs));
      redis := redis + redisValues;
      local := local + localValues;
      Served(s, db, hasLocal, hasRedis, ptrs, l, r, localValues, redisValues);
      LevelFills(s, db, hasLocal, hasRedis, ptrs);
    }

    lemma CachesUntouched(s: State, ptrs: seq<Ptr>, got: set<Key>)
      requires Progress(s, ptrs, got)
      ensures local == s.local && redis == s.redis
      ensures loaded == s.loaded + FilledRows(db, ptrs, got) && refs == s.refs + FilledRefs(db, ptrs, got)
    {
    }
  }

  /** After a level the objects whose rows exist hold them and refer to what they name. */
  lemma LevelFills(s: State, db: Database, hasLocal: set<string>, hasRedis: set<string>, ptrs: seq<Ptr>)
    ensures
      var t := Level(s, db, hasLocal, hasRedis, ptrs);
      forall p :: p in ptrs && p.key in db ==>
        p in t.loaded && t.loaded[p] == db[p.key] && p in t.refs && RefersTo(t.refs[p], db[p.key])
  {
    hide ServedLocal, ServedRedis, ChildrenOf, RefersTo;
    forall p | p in ptrs && p.key in db ensures RefersTo(ChildrenOf(p, db[p.key]), db[p.key]) {
      ChildrenRefer(p, db[p.key]);
    }
  }

  lemma Served(s: State, db: Database, hasLocal: set<string>, hasRedis: set<string>, ptrs: seq<Ptr>, l: set<Key>, r: set<Key>,
               localValues: map<Key, Entry>, redisValues: map<Key, Entry>)
    requires l == HeldOf(Of(hasLocal, ptrs), s.local)
    requires r == set k <- Of(hasRedis, ptrs) - l | Holds(s.redis, k)
    requires localValues == map k | k in Of(hasLocal, ptrs) - l :: EntryOf(db, k)
    requires redisValues == map k | k in Of(hasRedis, ptrs) - (l + r) :: EntryOf(db, k)
    ensures localValues == ServedLocal(s, db, hasLocal, ptrs) && redisValues == ServedRedis(s, db, hasLocal, hasRedis, ptrs)
    ensures Keys(ptrs) - (l + r) == Asked(s, hasLocal, hasRedis, ptrs)
  {
    hide Holds, EntryOf, Keys;
  }

  lemma HeldRow(m: map<Key, Entry>, db: Database, k: Key)
    requires Matching(m, db) && Holds(m, k)
    ensures k in m && m[k].Present? && k in db && m[k].row == db[k]
  {
  }

  function AllRows(ps: seq<Ptr>, row: Row): map<Ptr, Row> {
    map p | p in ps :: row
  }

  function AllRefs(ps: seq<Ptr>, row: Row): map<Ptr, Refs> {
    map p | p in ps :: ChildrenOf(p, row)
  }

  lemma NoneFilled(row: Row)
    ensures AllRows([], row) == map[] && AllRefs([], row) == map[]
  {
  }

  lemma FillStep(loaded: map<Ptr, Row>, refs: map<Ptr, Refs>, ps: seq<Ptr>, i: nat, row: Row)
    requires i < |ps|
    ensures (loaded + AllRows(ps[..i], row))[ps[i] := row] == loaded + AllRows(ps[..i + 1], row)
    ensures (refs + AllRefs(ps[..i], row))[ps[i] := ChildrenOf(ps[i], row)] == refs + AllRefs(ps[..i + 1], row)
  {
    hide ChildrenOf;
    assert ps[..i + 1] == ps[..i] + [ps[i]];
  }

  lemma FillUnion(s: State, db: Database, ptrs: seq<Ptr>, got: set<Key>, k: Key, ps: seq<Ptr>)
    requires k in db && forall p :: p in ps <==> p in ptrs && p.key == k
    ensures s.loaded + FilledRows(db, ptrs, got) + AllRows(ps, db[k]) == s.loaded + FilledRows(db, ptrs, got + {k})
    ensures s.refs + FilledRefs(db, ptrs, got) + AllRefs(ps, db[k]) == s.refs + FilledRefs(db, ptrs, got + {k})
  {
    hide FilledRows, FilledRefs, AllRows, AllRefs;
    RowsUnion(db, ptrs, got, k, ps);
    RefsUnion(db, ptrs, got, k, ps);
    PlusPlus(s.loaded, FilledRows(db, ptrs, got), AllRows(ps, db[k]));
    PlusPlus(s.refs, FilledRefs(db, ptrs, got), AllRefs(ps, db[k]));
  }

  lemma PlusPlus<K, V>(a: map<K, V>, b: map<K, V>, c: map<K, V>)
    ensures (a + b) + c == a + (b + c)
  {
  }

  lemma RowsUnion(db: Database, ptrs: seq<Ptr>, got: set<Key>, k: Key, ps: seq<Ptr>)
    requires k in db && forall p :: p in ps <==> p in ptrs && p.key == k
    ensures FilledRows(db, ptrs, got) + AllRows(ps, db[k]) == FilledRows(db, ptrs, got + {k})
  {
  }

  lemma RefsUnion(db: Database, ptrs: seq<Ptr>, got: set<Key>, k: Key, ps: seq<Ptr>)
    requires k in db && forall p :: p in ps <==> p in ptrs && p.key == k
    ensures FilledRefs(db, ptrs, got) + AllRefs(ps, db[k]) == FilledRefs(db, ptrs, got + {k})
  {
    hide ChildrenOf;
  }

  lemma NothingGot(s: State, db: Database, ptrs: seq<Ptr>)
    ensures s.loaded + FilledRows(db, ptrs, {}) == s.loaded && s.refs + FilledRefs(db, ptrs, {}) == s.refs
  {
  }

  /** Keys whose rows do not exist fill nothing. */
  lemma OthersAbsent(db: Database, ptrs: seq<Ptr>, got: set<Key>)
    requires forall k :: k in Keys(ptrs) && k in db ==> k in got
    ensures FilledRows(db, ptrs, got) == FilledRows(db, ptrs, Keys(ptrs))
    ensures FilledRefs(db, ptrs, got) == FilledRefs(db, ptrs, Keys(ptrs))
  {
    hide ChildrenOf;
  }

  lemma GroupKeys(m: map<Key, seq<Ptr>>, ptrs: seq<Ptr>, keys: set<Key>)
    requires Groups(m, ptrs, keys)
    ensures m.Keys == keys && Groups(m, ptrs, m.Keys)
  {
  }

  lemma GroupsOf(m: map<Key, seq<Ptr>>, ptrs: seq<Ptr>, keys: set<Key>, k: Key)
    requires Groups(m, ptrs, keys) && k in keys
    ensures k in m && m[k] != [] && forall p :: p in m[k] <==> p in ptrs && p.key == k
  {
  }

  lemma GroupsRemove(m: map<Key, seq<Ptr>>, ptrs: seq<Ptr>, all: set<Key>, got: set<Key>, k: Key)
    requires Groups(m, ptrs, all - got)
    ensures Groups(m - {k}, ptrs, all - (got + {k}))
  {
  }

  /** The maps of objects that wait for MySQL, the local cache and Redis, apart from the keys already got. */
  ghost predicate Waiting(dbMap: map<Key, seq<Ptr>>, localMap: map<Key, seq<Ptr>>, redisMap: map<Key, seq<Ptr>>, ptrs: seq<Ptr>,
                          hasLocal: set<string>, hasRedis: set<string>, got: set<Key>) {
    && Groups(dbMap, ptrs, Keys(ptrs) - got)
    && Groups(localMap, ptrs, Of(hasLocal, ptrs) - got) && Groups(redisMap, ptrs, Of(hasRedis, ptrs) - got)
  }

  lemma WaitingStarts(dbMap: map<Key, seq<Ptr>>, localMap: map<Key, seq<Ptr>>, redisMap: map<Key, seq<Ptr>>, ptrs: seq<Ptr>,
                      hasLocal: set<string>, hasRedis: set<string>)
    requires Groups(dbMap, ptrs, Keys(ptrs))
    requires Groups(localMap, ptrs, Of(hasLocal, ptrs)) && Groups(redisMap, ptrs, Of(hasRedis, ptrs))
    ensures Waiting(dbMap, localMap, redisMap, ptrs, hasLocal, hasRedis, {})
  {
    hide Groups, Keys, Of;
    assert Keys(ptrs) - {} == Keys(ptrs);
    assert Of(hasLocal, ptrs) - {} == Of(hasLocal, ptrs) && Of(hasRedis, ptrs) - {} == Of(hasRedis, ptrs);
  }

  lemma WaitingKeys(dbMap: map<Key, seq<Ptr>>, localMap: map<Key, seq<Ptr>>, redisMap: map<Key, seq<Ptr>>, ptrs: seq<Ptr>,
                    hasLocal: set<string>, hasRedis: set<string>)
    requires Waiting(dbMap, localMap, redisMap, ptrs, hasLocal, hasRedis, {})
    ensures localMap.Keys == Of(hasLocal, ptrs)
  {
  }

  lemma WaitingFor(dbMap: map<Key, seq<Ptr>>, localMap: map<Key, seq<Ptr>>, redisMap: map<Key, seq<Ptr>>, ptrs: seq<Ptr>,
                   hasLocal: set<string>, hasRedis: set<string>, got: set<Key>, k: Key)
    requires Waiting(dbMap, localMap, redisMap, ptrs, hasLocal, hasRedis, got) && k in Of(hasLocal, ptrs) && k !in got
    ensures k in localMap && localMap[k] != [] && forall p :: p in localMap[k] <==> p in ptrs && p.key == k
  {
    hide Groups, Keys, Of;
    GroupsOf(localMap, ptrs, Of(hasLocal, ptrs) - got, k);
  }

  lemma FewerWaiting(dbMap: map<Key, seq<Ptr>>, localMap: map<Key, seq<Ptr>>, redisMap: map<Key, seq<Ptr>>, ptrs: seq<Ptr>,
                     hasLocal: set<string>, hasRedis: set<string>, got: set<Key>, k: Key)
    requires Waiting(dbMap, localMap, redisMap, ptrs, hasLocal, hasRedis, got)
    ensures Waiting(dbMap - {k}, localMap - {k}, redisMap - {k}, ptrs, hasLocal, hasRedis, got + {k})
  {
    hide Groups, Keys, Of;
    GroupsRemove(dbMap, ptrs, Keys(ptrs), got, k);
    GroupsRemove(localMap, ptrs, Of(hasLocal, ptrs), got, k);
    GroupsRemove(redisMap, ptrs, Of(hasRedis, ptrs), got, k);
  }

  lemma NoGroups()
    ensures Groups(map[], [], {}) && Keys([]) == {}
  {
  }

  method AddTo(m: map<Key, seq<Ptr>>, ptrs: seq<Ptr>, i: nat, schemas: set<string>) returns (n: map<Key, seq<Ptr>>)
    requires i < |ptrs| && Groups(m, ptrs[..i], Of(schemas, ptrs[..i]))
    ensures Groups(n, ptrs[..i + 1], Of(schemas, ptrs[..i + 1]))
  {
    hide Groups;
    n := m;
    KeysStep(ptrs, i);
    if ptrs[i].key.schema in schemas {
      GroupsAppend(m, ptrs, Of(schemas, ptrs[..i]), i);
      n := Append(m, ptrs[i]);
      assert Of(schemas, ptrs[..i + 1]) == Of(schemas, ptrs[..i]) + {ptrs[i].key};
    } else {
      GroupsSkip(m, ptrs, Of(schemas, ptrs[..i]), i);
      assert Of(schemas, ptrs[..i + 1]) == Of(schemas, ptrs[..i]);
    }
  }
}
