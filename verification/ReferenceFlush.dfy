/** Flushing tracked entities whose references are not saved yet, and when a flush opens a transaction. */
module ReferenceFlush {
  import opened Wrappers

  /** An entity object. */
  type Entity = nat

  /** What does not change: the table and the references of every entity, and a height that references go down in. */
  datatype Graph = Graph(tables: map<Entity, string>, pools: map<string, string>, refs: map<Entity, seq<Entity>>, rank: map<Entity, nat>) {
    function Refs(e: Entity): seq<Entity> {
      if e in refs then refs[e] else []
    }

    function Rank(e: Entity): nat {
      if e in rank then rank[e] else 0
    }

    function Table(e: Entity): string {
      if e in tables then tables[e] else ""
    }

    function Pool(e: Entity): string {
      if Table(e) in pools then pools[Table(e)] else ""
    }

    /** No entity refers to itself, directly or through others. */
    ghost predicate Acyclic() {
      forall e, r :: r in Refs(e) ==> Rank(r) < Rank(e)
    }
  }

  function Elements(s: seq<Entity>): (r: set<Entity>)
    ensures forall x :: x in r <==> x in s
  {
    set x <- s
  }

  // ---------------------------------------------------------------- opening a transaction

  /** The number of statements of all pools. */
  ghost function Total<T>(m: map<string, seq<T>>): nat {
    if m == map[] then 0
    else
      var pool :| pool in m;
      |m[pool]| + Total(m - {pool})
  }

  lemma {:induction false} TotalSplit<T>(m: map<string, seq<T>>, pool: string)
    requires pool in m
    ensures Total(m) == |m[pool]| + Total(m - {pool})
  {
    var p :| p in m && Total(m) == |m[p]| + Total(m - {p});
    if p != pool {
      TotalSplit(m - {p}, pool);
      TotalSplit(m - {pool}, p);
      assert m - {p} - {pool} == m - {pool} - {p};
    }
  }

  lemma TotalMore<T>(m: map<string, seq<T>>, pool: string, x: T)
    ensures Total(m[pool := (if pool in m then m[pool] else []) + [x]]) == Total(m) + 1
  {
    var n := m[pool := (if pool in m then m[pool] else []) + [x]];
    TotalSplit(n, pool);
    assert n - {pool} == m - {pool};
    if pool in m {
      TotalSplit(m, pool);
    } else {
      assert m - {pool} == m;
    }
  }

  lemma {:induction false} TotalBounds<T>(m: map<string, seq<T>>)
    requires forall pool :: pool in m ==> m[pool] != []
    ensures Total(m) >= |m|
    ensures forall pool :: m.Keys == {pool} ==> Total(m) == |m[pool]|
  {
    if m != map[] {
      var pool :| pool in m && Total(m) == |m[pool]| + Total(m - {pool});
      TotalBounds(m - {pool});
      assert (m - {pool}).Keys == m.Keys - {pool};
      assert |(m - {pool}).Keys| == |m.Keys| - 1;
      if other :| m.Keys == {other} {
        assert pool == other && m - {pool} == map[];
      }
    }
  }

  /** The statements of a flush: one INSERT per table, the updates of each pool, one DELETE per table. */
  method NeedsTransaction<T>(insertKeys: set<string>, updateSQLs: map<string, seq<T>>, deleteBinds: set<string>) returns (needed: bool)
    requires forall pool :: pool in updateSQLs ==> updateSQLs[pool] != []
    ensures needed <==> |insertKeys| + Total(updateSQLs) + |deleteBinds| > 1
  {
    TotalBounds(updateSQLs);
    var diffs := |insertKeys|;
    if diffs <= 1 {
      diffs := diffs + |updateSQLs|;
      if diffs <= 1 {
        diffs := diffs + |deleteBinds|;
        if diffs <= 1 && |updateSQLs| == 1 {
          var pool :| pool in updateSQLs;
          OnlyPool(updateSQLs, pool);
          diffs := |updateSQLs[pool]|;
        }
      }
    }
    needed := diffs > 1;
  }

  lemma OnlyPool<T>(m: map<string, seq<T>>, pool: string)
    requires |m| == 1 && pool in m
    ensures m.Keys == {pool}
  {
    var rest := m.Keys - {pool};
    assert |rest| == 0;
    assert m.Keys == rest + {pool};
  }

  // ---------------------------------------------------------------- the flusher

  /** What the objects hold, what has been done (the inserts in order), and the last number each table has given to a row. */
  datatype State = State(ids: map<Entity, nat>, inDB: set<Entity>, dirty: set<Entity>, log: seq<Entity>, used: map<string, nat>) {
    predicate Saved(e: Entity) {
      e in ids && ids[e] > 0
    }

    function Used(table: string): nat {
      if table in used then used[table] else 0
    }
  }

  ghost predicate NoRepeats(log: seq<Entity>) {
    forall i, j :: 0 <= i < j < |log| ==> log[i] != log[j]
  }

  /** Since s: every entity without an id has got one of its table's new numbers, a later one a higher one. */
  ghost predicate Numbered(g: Graph, s: State, t: State)
    requires s.log <= t.log
  {
    && (forall table :: s.Used(table) <= t.Used(table))
    && (forall i :: |s.log| <= i < |t.log| && !s.Saved(t.log[i]) ==>
          t.log[i] in t.ids && s.Used(g.Table(t.log[i])) < t.ids[t.log[i]] <= t.Used(g.Table(t.log[i])))
    && (forall i, j :: |s.log| <= i < j < |t.log| && !s.Saved(t.log[i]) && !s.Saved(t.log[j]) && g.Table(t.log[i]) == g.Table(t.log[j]) ==>
          t.log[i] in t.ids && t.log[j] in t.ids && t.ids[t.log[i]] < t.ids[t.log[j]])
  }

  /** Since s: nothing was inserted twice or although it was in the database, and everything after what it refers to has an id. */
  ghost predicate Flushed(g: Graph, s: State, t: State) {
    && s.log <= t.log && NoRepeats(t.log[|s.log|..])
    && (forall e :: e in t.log[|s.log|..] ==> e !in s.inDB)
    && t.inDB == s.inDB + Elements(t.log[|s.log|..])
    && (forall e :: s.Saved(e) ==> t.Saved(e) && t.ids[e] == s.ids[e])
    && (forall e :: t.Saved(e) && !s.Saved(e) ==> e in t.log[|s.log|..])
    && (forall i, r :: |s.log| <= i < |t.log| && r in g.Refs(t.log[i]) ==> s.Saved(r) || r in t.log[|s.log|..i])
    && (forall e :: e in t.log[|s.log|..] ==> t.Saved(e))
    && Numbered(g, s, t)
  }

  lemma FlushedNothing(g: Graph, s: State)
    ensures Flushed(g, s, s)
  {
    assert s.log[|s.log|..] == [];
  }

  lemma FlushedTwice(g: Graph, s: State, t: State, u: State)
    requires Flushed(g, s, t) && Flushed(g, t, u)
    ensures Flushed(g, s, u)
  {
    hide Numbered, Elements;
    var n, m := |s.log|, |t.log|;
    var a, b := t.log[n..], u.log[m..];
    assert u.log[..m] == t.log;
    assert u.log[n..] == a + b;
    NumberedTwice(g, s, t, u);
    RefsTwice(g, s, t, u);
    NoneTwice(a, b, t.inDB);
  }

  lemma NoneTwice(a: seq<Entity>, b: seq<Entity>, done: set<Entity>)
    requires NoRepeats(a) && NoRepeats(b) && (forall e :: e in a ==> e in done) && (forall e :: e in b ==> e !in done)
    ensures NoRepeats(a + b)
  {
    forall i, j | 0 <= i < j < |a + b| ensures (a + b)[i] != (a + b)[j] {
      if i < |a| <= j {
        assert a[i] in done && b[j - |a|] !in done;
      }
    }
  }

  lemma RefsTwice(g: Graph, s: State, t: State, u: State)
    requires Flushed(g, s, t) && Flushed(g, t, u)
    ensures forall i, r :: |s.log| <= i < |u.log| && r in g.Refs(u.log[i]) ==> s.Saved(r) || r in u.log[|s.log|..i]
  {
    hide Numbered, Elements, NoRepeats;
    var n, m := |s.log|, |t.log|;
    var a := t.log[n..];
    assert u.log[..m] == t.log;
    forall i, r | n <= i < |u.log| && r in g.Refs(u.log[i]) ensures s.Saved(r) || r in u.log[n..i] {
      if i < m {
        assert u.log[i] == t.log[i] && u.log[n..i] == t.log[n..i];
      } else {
        assert u.log[n..i] == a + u.log[m..i];
        assert t.Saved(r) || r in u.log[m..i];
      }
    }
  }

  lemma NumberedTwice(g: Graph, s: State, t: State, u: State)
    requires s.log <= t.log <= u.log && Numbered(g, s, t) && Numbered(g, t, u)
    requires forall e :: t.Saved(e) ==> u.Saved(e) && u.ids[e] == t.ids[e]
    requires forall e :: s.Saved(e) ==> t.Saved(e)
    requires forall e :: t.Saved(e) && !s.Saved(e) ==> e in t.log[|s.log|..]
    requires forall i :: |s.log| <= i < |t.log| ==> t.Saved(t.log[i])
    requires forall e :: e in u.log[|t.log|..] ==> e !in t.log[|s.log|..]
    ensures Numbered(g, s, u)
  {
    forall i | |t.log| <= i < |u.log| ensures !s.Saved(u.log[i]) ==> !t.Saved(u.log[i]) {
      assert u.log[|t.log|..][i - |t.log|] == u.log[i];
    }
    forall i | |s.log| <= i < |t.log| ensures u.log[i] == t.log[i] {}
  }

  /** One insert: the entity gets the number if it has no id. */
  function Insert(g: Graph, s: State, e: Entity, id: nat): State {
    s.(ids := if s.Saved(e) then s.ids else s.ids[e := id], inDB := s.inDB + {e}, dirty := s.dirty - {e}, log := s.log + [e],
       used := if s.Saved(e) then s.used else s.used[g.Table(e) := id])
  }

  lemma FlushedInsert(g: Graph, s: State, e: Entity, id: nat)
    requires e !in s.inDB && id > s.Used(g.Table(e)) && forall r :: r in g.Refs(e) ==> s.Saved(r)
    ensures Flushed(g, s, Insert(g, s, e, id))
  {
    var t := Insert(g, s, e, id);
    assert t.log[|s.log|..] == [e];
  }

  /** The references of an entity that have no id. */
  function Unsaved(g: Graph, s: State, e: Entity): set<Entity> {
    set r <- g.Refs(e) | !s.Saved(r)
  }

  ghost predicate Ready(g: Graph, s: State, e: Entity) {
    forall r :: r in g.Refs(e) ==> s.Saved(r)
  }

  function PoolsOf(g: Graph, es: set<Entity>): (r: set<string>)
    ensures forall e :: e in es ==> g.Pool(e) in r
  {
    set e <- es :: g.Pool(e)
  }

  /** All references that some of the entities miss. */
  function Missing(g: Graph, s: State, es: set<Entity>): set<Entity> {
    set e <- es, r <- Unsaved(g, s, e) :: r
  }

  /** The entities to update, the tables to delete from and those to insert into. */
  function Updated(g: Graph, s: State, deleted: set<Entity>, es: set<Entity>): set<Entity> {
    set e <- es | Unsaved(g, s, e) == {} && e in s.inDB && e in s.dirty && e !in deleted
  }

  function DeletedFrom(g: Graph, s: State, deleted: set<Entity>, es: set<Entity>): set<string> {
    set e <- es | Unsaved(g, s, e) == {} && e in deleted :: g.Table(e)
  }

  function InsertedInto(g: Graph, s: State, deleted: set<Entity>, es: set<Entity>): set<string> {
    set e <- es | Unsaved(g, s, e) == {} && e !in deleted && e !in s.inDB :: g.Table(e)
  }

  /** What is queued already: how many updates, and the tables to delete from. */
  datatype Queue = Queue(updates: nat, tables: set<string>)

  function Queued(g: Graph, s: State, deleted: set<Entity>, es: set<Entity>, q: Queue): Queue {
    Queue(q.updates + |Updated(g, s, deleted, es)|, q.tables + DeletedFrom(g, s, deleted, es))
  }

  function Statements(g: Graph, s: State, deleted: set<Entity>, es: set<Entity>, q: Queue): nat {
    var now := Queued(g, s, deleted, es, q);
    |InsertedInto(g, s, deleted, es)| + now.updates + |now.tables|
  }

  /** A list flushed while the pools begun are in a transaction wants to begin one of its own. */
  predicate Begins(g: Graph, s: State, deleted: set<Entity>, es: set<Entity>, q: Queue, begun: set<string>) {
    PoolsOf(g, es) !! begun && (Missing(g, s, es) != {} || Statements(g, s, deleted, es, q) > 1)
  }

  /** The references of a list are flushed in a transaction of the tracked entities' pools and want to begin these again. */
  predicate BeginsTwice(g: Graph, s: State, deleted: set<Entity>, tracked: set<Entity>, es: set<Entity>, q: Queue, begun: set<string>) {
    PoolsOf(g, es) !! begun &&
    if PoolsOf(g, tracked) !! begun then
      Missing(g, s, es) != {} && Begins(g, s, deleted, Missing(g, s, es), Queued(g, s, deleted, es, q), begun + PoolsOf(g, tracked))
    else Begins(g, s, deleted, es, q, begun)
  }

  // ---------------------------------------------------------------- what is queued

  /** The updates queued for each pool, in order, and the rows queued for deletion from each table. */
  datatype Queues = Queues(updates: map<string, seq<Entity>>, deletes: map<string, set<Entity>>) {
    function Updates(pool: string): seq<Entity> {
      if pool in updates then updates[pool] else []
    }

    function Deletes(table: string): set<Entity> {
      if table in deletes then deletes[table] else {}
    }
  }

  predicate ToUpdate(g: Graph, s: State, deleted: set<Entity>, e: Entity, pool: string) {
    e in s.inDB && e in s.dirty && e !in deleted && g.Pool(e) == pool
  }

  /** The entities of a pool to update, in order: those that miss no reference, or those that miss some. */
  function UpdateRows(g: Graph, s: State, deleted: set<Entity>, entities: seq<Entity>, pool: string, missing: bool): seq<Entity> {
    if entities == [] then []
    else
      var n := |entities| - 1;
      UpdateRows(g, s, deleted, entities[..n], pool, missing)
      + if ToUpdate(g, s, deleted, entities[n], pool) && (missing <==> Unsaved(g, s, entities[n]) != {}) then [entities[n]] else []
  }

  /** They keep the order of the entities. */
  lemma {:induction false} RowsOrdered(g: Graph, s: State, deleted: set<Entity>, entities: seq<Entity>, pool: string, missing: bool, a: nat, b: nat)
    requires NoRepeats(entities) && a < b < |UpdateRows(g, s, deleted, entities, pool, missing)|
    ensures
      var rows := UpdateRows(g, s, deleted, entities, pool, missing);
      exists i, j :: 0 <= i < j < |entities| && entities[i] == rows[a] && entities[j] == rows[b]
  {
    hide Unsaved, ToUpdate;
    var n := |entities| - 1;
    var rows, first := UpdateRows(g, s, deleted, entities, pool, missing), UpdateRows(g, s, deleted, entities[..n], pool, missing);
    if b < |first| {
      RowsOrdered(g, s, deleted, entities[..n], pool, missing, a, b);
      var i, j :| 0 <= i < j < n && entities[..n][i] == first[a] && entities[..n][j] == first[b];
      assert entities[i] == rows[a] && entities[j] == rows[b];
    } else {
      RowsExact(g, s, deleted, entities[..n], pool, missing);
      assert first[a] in first;
      var i :| 0 <= i < n && entities[..n][i] == first[a];
      assert entities[i] == rows[a] && entities[n] == rows[b];
    }
  }

  /** They are exactly these, each once. */
  lemma {:induction false} RowsExact(g: Graph, s: State, deleted: set<Entity>, entities: seq<Entity>, pool: string, missing: bool)
    requires NoRepeats(entities)
    ensures NoRepeats(UpdateRows(g, s, deleted, entities, pool, missing))
    ensures forall e :: e in UpdateRows(g, s, deleted, entities, pool, missing) <==>
      e in entities && ToUpdate(g, s, deleted, e, pool) && (missing <==> Unsaved(g, s, e) != {})
  {
    hide Unsaved, ToUpdate;
    if entities != [] {
      var n := |entities| - 1;
      assert entities == entities[..n] + [entities[n]];
      RowsExact(g, s, deleted, entities[..n], pool, missing);
    }
  }

  /** Those of a table to delete. */
  function DeleteRows(g: Graph, deleted: set<Entity>, es: set<Entity>, table: string): set<Entity> {
    set e <- es | e in deleted && g.Table(e) == table
  }

  function WithoutMissing(g: Graph, s: State, es: set<Entity>): set<Entity> {
    set e <- es | Unsaved(g, s, e) == {}
  }

  /** The first pass over the entities has queued the ones that miss no reference. */
  ghost predicate Enqueued(g: Graph, s: State, deleted: set<Entity>, entities: seq<Entity>, q: Queues, r: Queues) {
    && (forall pool :: r.Updates(pool) == q.Updates(pool) + UpdateRows(g, s, deleted, entities, pool, false))
    && (forall table :: r.Deletes(table) ==
          q.Deletes(table) + DeleteRows(g, deleted, WithoutMissing(g, s, Elements(entities)), table))
  }

  /**
   * A flush has queued every dirty row of the entities for update, once, those that missed no reference before those that
   * did, and every row to delete.
   */
  ghost predicate AllEnqueued(g: Graph, s: State, deleted: set<Entity>, entities: seq<Entity>, q: Queues, r: Queues) {
    && (forall pool :: r.Updates(pool) == q.Updates(pool)
          + UpdateRows(g, s, deleted, entities, pool, false) + UpdateRows(g, s, deleted, entities, pool, true))
    && (forall table :: r.Deletes(table) == q.Deletes(table) + DeleteRows(g, deleted, Elements(entities), table))
  }

  /** What was flushed is dirty no more, unless it is deleted; other rows are as dirty as before. */
  ghost predicate Cleaned(s: State, t: State, deleted: set<Entity>, es: set<Entity>) {
    && (forall e :: e in s.inDB ==> (e in t.dirty <==> e in s.dirty && (e !in es || e in deleted)))
    && (forall e :: e in t.inDB && e !in s.inDB ==> e !in t.dirty)
  }

  lemma NothingEnqueued(g: Graph, s: State, deleted: set<Entity>, q: Queues)
    ensures Enqueued(g, s, deleted, [], q, q) && Updated(g, s, deleted, Elements([])) == {}
  {
  }

  /** What the next entity adds to the queues. */
  function Added(g: Graph, s: State, deleted: set<Entity>, e: Entity, q: Queues): Queues {
    if Unsaved(g, s, e) != {} then q
    else if e in deleted then q.(deletes := q.deletes[g.Table(e) := q.Deletes(g.Table(e)) + {e}])
    else if e in s.inDB && e in s.dirty then q.(updates := q.updates[g.Pool(e) := q.Updates(g.Pool(e)) + [e]])
    else q
  }

  lemma EnqueuedNext(g: Graph, s: State, deleted: set<Entity>, entities: seq<Entity>, i: nat, q: Queues, r: Queues)
    requires i < |entities| && Enqueued(g, s, deleted, entities[..i], q, r)
    ensures Enqueued(g, s, deleted, entities[..i + 1], q, Added(g, s, deleted, entities[i], r))
  {
    hide Unsaved, Elements, NoRepeats, UpdateRows, DeleteRows, WithoutMissing, Added, ToUpdate, Queues.Updates, Queues.Deletes;
    var e := entities[i];
    var now := Added(g, s, deleted, e, r);
    forall pool ensures now.Updates(pool) == q.Updates(pool) + UpdateRows(g, s, deleted, entities[..i + 1], pool, false) {
      RowsNext(g, s, deleted, entities, i, pool, false);
      AddedAt(g, s, deleted, e, r, pool, "");
    }
    forall table ensures now.Deletes(table)
      == q.Deletes(table) + DeleteRows(g, deleted, WithoutMissing(g, s, Elements(entities[..i + 1])), table)
    {
      DeletesNext(g, s, deleted, entities, i, table);
      AddedAt(g, s, deleted, e, r, "", table);
    }
  }

  lemma AddedAt(g: Graph, s: State, deleted: set<Entity>, e: Entity, q: Queues, pool: string, table: string)
    ensures
      var r := Added(g, s, deleted, e, q);
      && r.Updates(pool) == q.Updates(pool) + (if ToUpdate(g, s, deleted, e, pool) && Unsaved(g, s, e) == {} then [e] else [])
      && r.Deletes(table) == q.Deletes(table)
           + (if Unsaved(g, s, e) == {} && e in deleted && g.Table(e) == table then {e} else {})
  {
    hide Unsaved;
  }

  lemma DeletesNext(g: Graph, s: State, deleted: set<Entity>, entities: seq<Entity>, i: nat, table: string)
    requires i < |entities|
    ensures
      var e := entities[i];
      DeleteRows(g, deleted, WithoutMissing(g, s, Elements(entities[..i + 1])), table)
      == DeleteRows(g, deleted, WithoutMissing(g, s, Elements(entities[..i])), table)
         + if Unsaved(g, s, e) == {} && e in deleted && g.Table(e) == table then {e} else {}
  {
    hide Unsaved;
    NextElements(entities, i);
  }

  lemma RowsNext(g: Graph, s: State, deleted: set<Entity>, entities: seq<Entity>, i: nat, pool: string, missing: bool)
    requires i < |entities|
    ensures UpdateRows(g, s, deleted, entities[..i + 1], pool, missing) == UpdateRows(g, s, deleted, entities[..i], pool, missing)
      + if ToUpdate(g, s, deleted, entities[i], pool) && (missing <==> Unsaved(g, s, entities[i]) != {}) then [entities[i]] else []
  {
    assert entities[..i + 1][..i] == entities[..i];
  }

  /** The entities that are not among these. */
  function Without(entities: seq<Entity>, es: set<Entity>): seq<Entity> {
    if entities == [] then []
    else
      var n := |entities| - 1;
      Without(entities[..n], es) + if entities[n] in es then [] else [entities[n]]
  }

  lemma {:induction false} WithoutMembers(entities: seq<Entity>, es: set<Entity>)
    ensures forall e :: e in Without(entities, es) <==> e in entities && e !in es
    ensures NoRepeats(entities) ==> NoRepeats(Without(entities, es))
  {
    if entities != [] {
      var n := |entities| - 1;
      assert entities == entities[..n] + [entities[n]];
      WithoutMembers(entities[..n], es);
    }
  }

  /** What the flush of the references and then of the others adds to the queues of the first pass. */
  ghost predicate RestEnqueued(g: Graph, s: State, deleted: set<Entity>, entities: seq<Entity>, q: Queues, r: Queues) {
    && (forall pool :: r.Updates(pool) == q.Updates(pool) + UpdateRows(g, s, deleted, entities, pool, true))
    && (forall table :: r.Deletes(table) == q.Deletes(table) + DeleteRows(g, deleted, Elements(entities), table))
  }

  lemma {:induction false} NoRows(g: Graph, s: State, deleted: set<Entity>, entities: seq<Entity>, pool: string, missing: bool)
    requires forall e :: e in entities ==> e !in s.inDB || (missing <==> Unsaved(g, s, e) == {})
    ensures UpdateRows(g, s, deleted, entities, pool, missing) == []
  {
    hide Unsaved;
    if entities != [] {
      var n := |entities| - 1;
      assert entities[n] in entities && forall e :: e in entities[..n] ==> e in entities;
      NoRows(g, s, deleted, entities[..n], pool, missing);
    }
  }

  /** When no reference is missing the first pass queues everything. */
  lemma AllReady(g: Graph, s: State, deleted: set<Entity>, entities: seq<Entity>, q: Queues, r: Queues)
    requires Enqueued(g, s, deleted, entities, q, r) && forall e :: e in entities ==> Unsaved(g, s, e) == {}
    ensures AllEnqueued(g, s, deleted, entities, q, r)
  {
    hide Unsaved, UpdateRows, DeleteRows;
    assert WithoutMissing(g, s, Elements(entities)) == Elements(entities);
    forall pool ensures UpdateRows(g, s, deleted, entities, pool, true) == [] {
      NoRows(g, s, deleted, entities, pool, true);
    }
  }

  lemma NoneToQueue(g: Graph, s: State, deleted: set<Entity>, entities: seq<Entity>, q: Queues, r: Queues)
    requires AllEnqueued(g, s, deleted, entities, q, r) && deleted <= s.inDB && forall e :: e in entities ==> e !in s.inDB
    ensures forall pool :: r.Updates(pool) == q.Updates(pool)
    ensures forall table :: r.Deletes(table) == q.Deletes(table)
  {
    hide Unsaved, UpdateRows, Queues.Updates, Queues.Deletes;
    forall pool ensures r.Updates(pool) == q.Updates(pool) {
      NoRows(g, s, deleted, entities, pool, true);
      NoRows(g, s, deleted, entities, pool, false);
    }
    forall table ensures r.Deletes(table) == q.Deletes(table) {
      assert DeleteRows(g, deleted, Elements(entities), table) == {};
    }
  }

  lemma RowsLast(g: Graph, s: State, deleted: set<Entity>, entities: seq<Entity>, e: Entity, pool: string, missing: bool)
    ensures UpdateRows(g, s, deleted, entities + [e], pool, missing) == UpdateRows(g, s, deleted, entities, pool, missing)
      + if ToUpdate(g, s, deleted, e, pool) && (missing <==> Unsaved(g, s, e) != {}) then [e] else []
  {
    assert (entities + [e])[..|entities|] == entities;
  }

  lemma WithoutLast(entities: seq<Entity>, e: Entity, es: set<Entity>)
    ensures Without(entities + [e], es) == Without(entities, es) + if e in es then [] else [e]
  {
    assert (entities + [e])[..|entities|] == entities;
  }

  lemma {:induction false} RowsOfRest(g: Graph, s: State, t: State, deleted: set<Entity>, entities: seq<Entity>, toFlush: set<Entity>, pool: string)
    requires forall e :: e in entities ==>
      (e !in toFlush && ToUpdate(g, t, deleted, e, pool) <==> ToUpdate(g, s, deleted, e, pool) && Unsaved(g, s, e) != {})
    requires forall e :: e in entities && e !in toFlush ==> Unsaved(g, t, e) == {}
    ensures UpdateRows(g, t, deleted, Without(entities, toFlush), pool, false) == UpdateRows(g, s, deleted, entities, pool, true)
  {
    if entities != [] {
      hide Unsaved, ToUpdate;
      var n := |entities| - 1;
      var first, e := entities[..n], entities[n];
      assert entities == first + [e];
      RowsOfRest(g, s, t, deleted, first, toFlush, pool);
      RowsLast(g, s, deleted, first, e, pool, true);
      WithoutLast(first, e, toFlush);
      if e in toFlush {
        assert Without(entities, toFlush) == Without(first, toFlush);
      } else {
        RowsLast(g, t, deleted, Without(first, toFlush), e, pool, false);
      }
    }
  }

  /** What the flush of the rest queues, in terms of the state before the references were flushed. */
  lemma RestQueued(g: Graph, s: State, t: State, deleted: set<Entity>, entities: seq<Entity>, toFlush: set<Entity>,
                   list: seq<Entity>, q: Queues, r: Queues, u: Queues)
    requires deleted <= s.inDB && Elements(list) == toFlush && (forall e :: e in toFlush ==> e !in s.inDB)
    requires AllEnqueued(g, s, deleted, list, q, r) && Cleaned(s, t, deleted, toFlush) && s.inDB <= t.inDB
    requires forall e :: e in entities && e in s.inDB && e in s.dirty && e !in deleted ==> Unsaved(g, s, e) != {}
    requires forall e :: e in entities && e !in toFlush ==> Unsaved(g, t, e) == {}
    requires AllEnqueued(g, t, deleted, Without(entities, toFlush), r, u)
    ensures RestEnqueued(g, s, deleted, entities, q, u)
  {
    hide Unsaved, UpdateRows, Queues.Updates, Queues.Deletes, Without;
    var rest := Without(entities, toFlush);
    WithoutMembers(entities, toFlush);
    NoneToQueue(g, s, deleted, list, q, r);
    forall pool ensures u.Updates(pool) == q.Updates(pool) + UpdateRows(g, s, deleted, entities, pool, true) {
      RowsOfRest(g, s, t, deleted, entities, toFlush, pool);
      NoRows(g, t, deleted, rest, pool, true);
    }
    forall table ensures u.Deletes(table) == q.Deletes(table) + DeleteRows(g, deleted, Elements(entities), table) {
      assert DeleteRows(g, deleted, Elements(rest), table) == DeleteRows(g, deleted, Elements(entities), table);
    }
  }

  lemma {:induction false} SameRows(g: Graph, s: State, p: State, deleted: set<Entity>, entities: seq<Entity>, pool: string)
    requires p == s.(dirty := p.dirty)
    requires forall e :: e in entities && Unsaved(g, s, e) != {} ==> (e in p.dirty <==> e in s.dirty)
    ensures UpdateRows(g, p, deleted, entities, pool, true) == UpdateRows(g, s, deleted, entities, pool, true)
  {
    hide Unsaved;
    if entities != [] {
      var n := |entities| - 1;
      assert entities == entities[..n] + [entities[n]];
      SameUnsaved(g, s, p, entities[n]);
      SameRows(g, s, p, deleted, entities[..n], pool);
    }
  }

  /** The first pass and the rest together. */
  lemma BothQueued(g: Graph, s: State, p: State, deleted: set<Entity>, entities: seq<Entity>, q: Queues, r: Queues, u: Queues)
    requires p == s.(dirty := s.dirty - Updated(g, s, deleted, Elements(entities)))
    requires Enqueued(g, s, deleted, entities, q, r) && RestEnqueued(g, p, deleted, entities, r, u)
    ensures AllEnqueued(g, s, deleted, entities, q, u)
  {
    hide Unsaved, UpdateRows, Queues.Updates, Queues.Deletes;
    forall pool ensures u.Updates(pool) == q.Updates(pool)
      + UpdateRows(g, s, deleted, entities, pool, false) + UpdateRows(g, s, deleted, entities, pool, true)
    {
      SameRows(g, s, p, deleted, entities, pool);
    }
    forall table ensures u.Deletes(table) == q.Deletes(table) + DeleteRows(g, deleted, Elements(entities), table) {
      assert DeleteRows(g, deleted, WithoutMissing(g, s, Elements(entities)), table) <= DeleteRows(g, deleted, Elements(entities), table);
    }
  }

  lemma CleanedTwice(s: State, t: State, u: State, deleted: set<Entity>, a: set<Entity>, b: set<Entity>, all: set<Entity>)
    requires Cleaned(s, t, deleted, a) && Cleaned(t, u, deleted, b) && s.inDB <= t.inDB
    requires forall e :: e in a ==> e !in s.inDB
    requires forall e :: e in b <==> e in all && e !in a
    ensures Cleaned(s, u, deleted, all)
  {
  }

  /** What the first pass and then the inserts, or the flush of the rest, leave dirty. */
  lemma CleanedAll(g: Graph, s: State, p: State, t: State, deleted: set<Entity>, es: set<Entity>)
    requires p == s.(dirty := s.dirty - Updated(g, s, deleted, es)) && Cleaned(p, t, deleted, es)
    ensures Cleaned(s, t, deleted, es)
  {
    hide Unsaved;
  }

  lemma CleanedReady(g: Graph, s: State, p: State, t: State, deleted: set<Entity>, es: set<Entity>)
    requires p == s.(dirty := s.dirty - Updated(g, s, deleted, es)) && (forall e :: e in es ==> Unsaved(g, s, e) == {})
    requires t.dirty == p.dirty - (t.inDB - p.inDB)
    ensures Cleaned(s, t, deleted, es)
  {
    hide Unsaved;
  }

  /** The entity and all that it refers to have an id. */
  ghost predicate Numbers(g: Graph, ids: map<Entity, nat>, e: Entity) {
    e in ids && ids[e] >= 1 && forall r :: r in g.Refs(e) ==> r in ids && ids[r] >= 1
  }

  /** What missed no reference when it was flushed, and is in the database now. */
  lemma NumbersOf(g: Graph, s: State, t: State, e: Entity)
    requires Flushed(g, s, t) && Unsaved(g, s, e) == {} && e in t.inDB && forall x :: x in t.inDB ==> t.Saved(x)
    ensures Numbers(g, t.ids, e)
  {
    forall r | r in g.Refs(e) ensures t.Saved(r) {
      assert r !in Unsaved(g, s, e);
    }
  }

  lemma NumbersStay(g: Graph, s: State, t: State, e: Entity)
    requires Flushed(g, s, t) && Numbers(g, s.ids, e)
    ensures Numbers(g, t.ids, e)
  {
  }

  class Flusher {
    const graph: Graph
    const deleted: set<Entity>
    const increment: nat
    var tracked: set<Entity>
    var ids: map<Entity, nat>
    var inDB: set<Entity>
    var dirty: set<Entity>
    var log: seq<Entity>
    var used: map<string, nat>
    var begun: set<string>
    var updateSQLs: map<string, seq<Entity>>
    var deleteBinds: map<string, set<Entity>>

    constructor (graph: Graph, deleted: set<Entity>, increment: nat, tracked: set<Entity>, s: State, begun: set<string>)
      requires graph.Acyclic() && increment > 0
      ensures Valid() && Now() == s && this.graph == graph && this.deleted == deleted && this.tracked == tracked
      ensures this.begun == begun && updateSQLs == map[] && deleteBinds == map[]
    {
      this.graph, this.deleted, this.increment, this.tracked := graph, deleted, increment, tracked;
      ids, inDB, dirty, log, used := s.ids, s.inDB, s.dirty, s.log, s.used;
      this.begun, updateSQLs, deleteBinds := begun, map[], map[];
    }

    ghost function Now(): State
      reads this
    {
      State(ids, inDB, dirty, log, used)
    }

    ghost function Waiting(): Queue
      reads this
    {
      Queue(Total(updateSQLs), deleteBinds.Keys)
    }

    function Pending(): Queues
      reads this
    {
      Queues(updateSQLs, deleteBinds)
    }

    ghost predicate Valid()
      reads this
    {
      graph.Acyclic() && increment > 0 && forall pool :: pool in updateSQLs ==> updateSQLs[pool] != []
    }

    /** The first number MySQL gives to the rows of an INSERT; other connections may have taken some. */
    method LastInsertId(table: string) returns (id: nat)
      ensures id > Now().Used(table)
    {
      id :| id > if table in used then used[table] else 0;
    }

    /** The inserts of one table, in order; every entity is ready and not in the database. */
    method InsertTable(table: string, rows: seq<Entity>) returns (first: nat)
      requires increment > 0 && forall i :: 0 <= i < |rows| ==> Ready(graph, Now(), rows[i]) && rows[i] !in inDB && graph.Table(rows[i]) == table
      requires forall i, j :: 0 <= i < j < |rows| ==> rows[i] != rows[j]
      modifies this`ids, this`inDB, this`dirty, this`log, this`used
      ensures Flushed(graph, old(Now()), Now())
      ensures log == old(log) + rows && inDB == old(inDB) + Elements(rows) && dirty == old(dirty) - Elements(rows)
      ensures first > old(Now()).Used(table)
      ensures Stepped(old(Now()), Now(), rows, first, increment)
    {
      hide Flushed, Ready, Stepped, Unnumbered;
      ghost var s := Now();
      FlushedNothing(graph, s);
      first := LastInsertId(table);
      var id := first;
      NoneStepped(s, first, increment);
      for i := 0 to |rows|
        invariant Flushed(graph, s, Now())
        invariant log == s.log + rows[..i] && inDB == s.inDB + Elements(rows[..i]) && dirty == s.dirty - Elements(rows[..i])
        invariant id > Now().Used(table) && id == first + increment * Unnumbered(s, rows[..i])
        invariant Stepped(s, Now(), rows[..i], first, increment)
      {
        var e := rows[i];
        ghost var now := Now();
        StillReady(graph, s, now, e);
        assert e !in rows[..i];
        StillUnsaved(graph, s, now, rows[..i], e);
        id := InsertOne(table, e, id);
        FlushedTwice(graph, s, now, Now());
        assert rows[..i + 1] == rows[..i] + [e];
        StepOne(graph, s, now, Now(), rows, i, first, increment);
      }
      assert rows[..|rows|] == rows;
    }

    method InsertOne(table: string, e: Entity, id': nat) returns (id: nat)
      requires Ready(graph, Now(), e) && e !in inDB && graph.Table(e) == table && id' > Now().Used(table) && increment > 0
      modifies this`ids, this`inDB, this`dirty, this`log, this`used
      ensures Flushed(graph, old(Now()), Now()) && Now() == Insert(graph, old(Now()), e, id')
      ensures id > Now().Used(table) && id == if old(Now()).Saved(e) then id' else id' + increment
    {
      hide Flushed;
      ghost var now := Now();
      id := id';
      FlushedInsert(graph, now, e, id);
      if !(e in ids && ids[e] > 0) {
        ids := ids[e := id];
        used := used[table := id];
        id := id + increment;
      }
      inDB := inDB + {e};
      dirty := dirty - {e};
      log := log + [e];
    }

    /** The inserts of a flush, table by table in any order. */
    method ExecuteInserts(package: map<string, seq<Entity>>, ghost entities: seq<Entity>)
      requires Packed(graph, Now(), entities, package) && increment > 0
      modifies this`ids, this`inDB, this`dirty, this`log, this`used
      ensures Flushed(graph, old(Now()), Now())
      ensures forall t, e :: t in package && e in package[t] ==> e in inDB
      ensures dirty == old(dirty) - (inDB - old(inDB))
    {
      hide Flushed, Ready;
      ghost var s := Now();
      FlushedNothing(graph, s);
      var tables := package.Keys;
      while tables != {}
        invariant tables <= package.Keys
        invariant Flushed(graph, s, Now())
        invariant forall t, e :: t in package && e in package[t] ==> (e in inDB <==> t !in tables)
        invariant s.inDB <= inDB && dirty == s.dirty - (inDB - s.inDB)
        decreases |tables|
      {
        var t :| t in tables;
        ghost var now := Now();
        forall i | 0 <= i < |package[t]|
          ensures Ready(graph, now, package[t][i]) && package[t][i] !in inDB && graph.Table(package[t][i]) == t
        {
          assert package[t][i] in package[t];
          StillReady(graph, s, now, package[t][i]);
        }
        PackedTables(graph, s, entities, package);
        var first := InsertTable(t, package[t]);
        FlushedTwice(graph, s, now, Now());
        tables := tables - {t};
      }
    }

    /** The unsaved references of an entity join those to flush first. */
    method CheckReferences(e: Entity, toFlush': set<Entity>) returns (has: bool, toFlush: set<Entity>)
      ensures has <==> Unsaved(graph, Now(), e) != {}
      ensures toFlush == toFlush' + Unsaved(graph, Now(), e)
    {
      has, toFlush := false, toFlush';
      var refs := graph.Refs(e);
      for i := 0 to |refs|
        invariant toFlush == toFlush' + set r <- refs[..i] | !Now().Saved(r)
        invariant has <==> exists j :: 0 <= j < i && !Now().Saved(refs[j])
      {
        assert refs[..i + 1] == refs[..i] + [refs[i]];
        if !(refs[i] in ids && ids[refs[i]] > 0) {
          toFlush := toFlush + {refs[i]};
          has := true;
        }
      }
      assert refs[..|refs|] == refs;
      if has {
        ghost var j :| 0 <= j < |refs| && !Now().Saved(refs[j]);
        assert refs[j] in Unsaved(graph, Now(), e);
      } else {
        forall r | r in refs ensures Now().Saved(r) {
          var j :| 0 <= j < |refs| && refs[j] == r;
        }
      }
    }

    method FlushDelete(e: Entity)
      requires Valid()
      modifies this`deleteBinds
      ensures Valid() && Waiting() == old(Waiting()).(tables := old(Waiting()).tables + {graph.Table(e)})
      ensures
        var q, table := old(Pending()), graph.Table(e);
        Pending() == q.(deletes := q.deletes[table := q.Deletes(table) + {e}])
    {
      var table := graph.Table(e);
      deleteBinds := deleteBinds[table := (if table in deleteBinds then deleteBinds[table] else {}) + {e}];
    }

    method FlushUpdate(e: Entity)
      requires Valid()
      modifies this`updateSQLs, this`dirty
      ensures Valid() && dirty == old(dirty) - {e} && Waiting() == old(Waiting()).(updates := old(Waiting()).updates + 1)
      ensures
        var q, pool := old(Pending()), graph.Pool(e);
        Pending() == q.(updates := q.updates[pool := q.Updates(pool) + [e]])
    {
      var pool := graph.Pool(e);
      TotalMore(updateSQLs, pool, e);
      updateSQLs := updateSQLs[pool := (if pool in updateSQLs then updateSQLs[pool] else []) + [e]];
      dirty := dirty - {e};
    }

    /** First pass: references to flush first, inserts to run later, updates and deletes. */
    method Prepare(transaction': bool, entities: seq<Entity>)
      returns (transaction: bool, package: map<string, seq<Entity>>, toFlush: set<Entity>)
      requires Valid() && NoRepeats(entities)
      modifies this`dirty, this`updateSQLs, this`deleteBinds
      ensures Valid() && Now() == old(Now()).(dirty := dirty)
      ensures transaction <==> transaction' || !(PoolsOf(graph, Elements(entities)) !! begun)
      ensures Packed(graph, Now(), entities, package) && Covered(graph, Now(), deleted, entities, package, toFlush)
      ensures Waiting() == Queued(graph, old(Now()), deleted, Elements(entities), old(Waiting()))
      ensures Enqueued(graph, old(Now()), deleted, entities, old(Pending()), Pending())
      ensures dirty == old(dirty) - Updated(graph, old(Now()), deleted, Elements(entities))
    {
      hide Packed, Covered, Ready, NoRepeats, Queued, PoolsOf, Unsaved, Updated, DeletedFrom, Elements, Enqueued;
      hide Queues.Updates, Queues.Deletes;
      ghost var s, q, queues := Now(), Waiting(), Pending();
      NothingEnqueued(graph, s, deleted, queues);
      transaction, package, toFlush := transaction', map[], {};
      NothingPacked(graph, s, deleted);
      NothingQueued(graph, s, deleted, q);
      assert entities[..0] == [];
      for i := 0 to |entities|
        invariant Valid() && Now() == s.(dirty := dirty) && dirty == s.dirty - Updated(graph, s, deleted, Elements(entities[..i]))
        invariant transaction <==> transaction' || !(PoolsOf(graph, Elements(entities[..i])) !! begun)
        invariant Packed(graph, s, entities[..i], package) && Covered(graph, s, deleted, entities[..i], package, toFlush)
        invariant Waiting() == Queued(graph, s, deleted, Elements(entities[..i]), q)
        invariant Enqueued(graph, s, deleted, entities[..i], queues, Pending())
      {
        var e := entities[i];
        if !transaction && graph.Pool(e) in begun {
          transaction := true;
        }
        NextPool(graph, entities, i);
        NextQueued(graph, s, deleted, entities, i, q);
        EnqueuedNext(graph, s, deleted, entities, i, queues, Pending());
        NextUpdated(graph, s, deleted, entities, i);
        var has;
        ghost var was := toFlush;
        has, toFlush := CheckReferences(e, toFlush);
        SameUnsaved(graph, s, Now(), e);
        PackStep(graph, s, deleted, entities, i, package, was);
        assert e in dirty <==> e in s.dirty;
        if has {
          continue;
        }
        if e in inDB && e !in dirty && e !in deleted {
          continue;
        }
        var table := graph.Table(e);
        if e in deleted {
          FlushDelete(e);
        } else if e !in inDB {
          package := package[table := (if table in package then package[table] else []) + [e]];
        } else {
          FlushUpdate(e);
        }
      }
      assert entities[..|entities|] == entities;
      SamePacked(graph, s, Now(), deleted, entities, package, toFlush);
    }

    /** What a flush asks of the state it starts from: what is in the database has an id, and only that is deleted. */
    ghost predicate Sound()
      reads this
    {
      Valid() && deleted <= inDB && forall e :: e in inDB ==> Now().Saved(e)
    }

    /** Begins a transaction in every pool of the tracked entities, in any order; a pool that is in one panics. */
    method StartTransaction() returns (ok: bool)
      modifies this`begun
      ensures ok <==> PoolsOf(graph, tracked) !! old(begun)
      ensures ok ==> begun == old(begun) + PoolsOf(graph, tracked)
    {
      var dbPools := PoolsOf(graph, tracked);
      ghost var all, was := dbPools, begun;
      while dbPools != {}
        invariant dbPools <= all && begun == was + (all - dbPools) && (all - dbPools) !! was
        decreases |dbPools|
      {
        var pool :| pool in dbPools;
        if pool in begun {
          return false;
        }
        begun := begun + {pool};
        dbPools := dbPools - {pool};
      }
      return true;
    }

    /** The end of a flush whose entities are all ready: it runs the statements, in a transaction if there are several. */
    method FlushReady(transaction: bool, package: map<string, seq<Entity>>, ghost entities: seq<Entity>)
      returns (ok: bool, useTransaction: bool)
      requires Sound() && Packed(graph, Now(), entities, package)
      modifies this`ids, this`inDB, this`dirty, this`log, this`used, this`begun
      ensures useTransaction <==> !transaction && |package| + Total(updateSQLs) + |deleteBinds| > 1
      ensures ok <==> !useTransaction || PoolsOf(graph, tracked) !! old(begun)
      ensures ok ==> begun == old(begun) + if useTransaction then PoolsOf(graph, tracked) else {}
      ensures ok ==> Sound() && Flushed(graph, old(Now()), Now()) && forall t, e :: t in package && e in package[t] ==> e in inDB
      ensures ok ==> dirty == old(dirty) - (inDB - old(inDB))
      ensures !ok ==> Now() == old(Now())
    {
      hide Flushed, Packed, PoolsOf;
      ok, useTransaction := true, false;
      assert |package.Keys| == |package| && |deleteBinds.Keys| == |deleteBinds|;
      if !transaction {
        var needed := NeedsTransaction(package.Keys, updateSQLs, deleteBinds.Keys);
        if needed {
          useTransaction := true;
          ok := StartTransaction();
          if !ok {
            return;
          }
        }
      }
      ghost var s := Now();
      ExecuteInserts(package, entities);
      SoundAfter(graph, s, Now());
    }

    /**
     * Flushes entities, the references they miss first. It panics exactly when these want to begin a transaction that has
     * been begun; otherwise none is left out: whatever was new is in the database afterwards, each insert has run once, and
     * after those of the entities it refers to that had no id. Deletes stay queued.
     */
    method Flush(transaction': bool, entities: seq<Entity>, ghost height: nat) returns (ok: bool, useTransaction: bool)
      requires Sound() && entities != [] && NoRepeats(entities) && tracked != {}
      requires transaction' || !(PoolsOf(graph, tracked) !! begun) || Elements(entities) <= tracked
      requires forall e :: e in entities && Unsaved(graph, Now(), e) != {} ==> graph.Rank(e) < height
      modifies this`ids, this`inDB, this`dirty, this`log, this`used, this`begun, this`updateSQLs, this`deleteBinds
      ensures ok <==> transaction' || !BeginsTwice(graph, old(Now()), deleted, tracked, Elements(entities), old(Waiting()), old(begun))
      ensures ok ==> Sound() && Flushed(graph, old(Now()), Now()) && forall e :: e in entities ==> e in inDB
      ensures ok ==>
        (useTransaction <==> !transaction' && Begins(graph, old(Now()), deleted, Elements(entities), old(Waiting()), old(begun)))
      ensures ok ==> begun == old(begun) + if useTransaction then PoolsOf(graph, tracked) else {}
      ensures ok ==> AllEnqueued(graph, old(Now()), deleted, entities, old(Pending()), Pending())
      ensures ok ==> Cleaned(old(Now()), Now(), deleted, Elements(entities))
      ensures ok ==> forall e :: e in entities ==> Numbers(graph, ids, e)
      ensures !ok ==> Now() == old(Now()).(dirty := dirty)
      decreases height, 1
    {
      hide Flushed, Packed, Covered, Unsaved, NoRepeats, PoolsOf, Missing, Statements, Queued, BeginsTwice, Begins;
      hide Enqueued, AllEnqueued, RestEnqueued, Cleaned, Updated, Numbers;
      ghost var s, q, was, queues := Now(), Waiting(), begun, Pending();
      var transaction, package, toFlush := Prepare(transaction', entities);
      ghost var prepared := Now();
      FlushedDirty(graph, s, prepared);
      MissingIs(graph, s, prepared, deleted, entities, package, toFlush);
      BeginsWhen(graph, s, prepared, deleted, entities, package, toFlush, q, was, Waiting());
      TwiceWhen(graph, s, prepared, deleted, tracked, Elements(entities), toFlush, q, was, Waiting());
      if toFlush != {} {
        LowerRanks(graph, s, prepared, deleted, entities, package, toFlush, height);
        MissingAll(graph, prepared, deleted, entities, package, toFlush);
        OnlyMissing(graph, s, prepared, deleted, entities, toFlush);
        ghost var first := Pending();
        ok, useTransaction := FlushReferences(transaction, toFlush, entities, height);
        if ok {
          BothQueued(graph, s, prepared, deleted, entities, queues, first, Pending());
          CleanedAll(graph, s, prepared, Now(), deleted, Elements(entities));
        }
      } else {
        NoneMissing(graph, s, prepared, deleted, entities, package);
        AllReady(graph, s, deleted, entities, queues, Pending());
        ok, useTransaction := FlushReady(transaction, package, entities);
        if ok {
          CleanedReady(graph, s, prepared, Now(), deleted, Elements(entities));
          InDBStays(graph, prepared, Now());
          AllCovered(graph, prepared, Now(), deleted, entities, package);
          forall e | e in entities ensures Numbers(graph, ids, e) {
            SameUnsaved(graph, s, prepared, e);
            NumbersOf(graph, prepared, Now(), e);
          }
        }
      }
      if ok {
        FlushedTwice(graph, s, prepared, Now());
      }
    }

    /** The missing references first, then the entities that are not among them. */
    method FlushReferences(transaction: bool, toFlush: set<Entity>, entities: seq<Entity>, ghost height: nat)
      returns (ok: bool, useTransaction: bool)
      requires Sound() && toFlush != {} && NoRepeats(entities) && tracked != {}
      requires transaction || !(PoolsOf(graph, tracked) !! begun) || Elements(entities) <= tracked
      requires height > 0 && forall r :: r in toFlush ==> graph.Rank(r) < height - 1
      requires forall e :: e in entities ==> Unsaved(graph, Now(), e) <= toFlush
      requires forall e :: e in entities && e in inDB && e in dirty && e !in deleted ==> Unsaved(graph, Now(), e) != {}
      requires forall r :: r in toFlush ==> r !in inDB
      modifies this`ids, this`inDB, this`dirty, this`log, this`used, this`begun, this`updateSQLs, this`deleteBinds
      ensures ok <==>
        || transaction
        || (PoolsOf(graph, tracked) !! old(begun)
            && !BeginsTwice(graph, old(Now()), deleted, tracked, toFlush, old(Waiting()), old(begun) + PoolsOf(graph, tracked)))
      ensures ok ==> Sound() && Flushed(graph, old(Now()), Now()) && forall e :: e in entities ==> e in inDB
      ensures useTransaction == !transaction && (ok ==> begun == old(begun) + if useTransaction then PoolsOf(graph, tracked) else {})
      ensures ok ==> RestEnqueued(graph, old(Now()), deleted, entities, old(Pending()), Pending())
      ensures ok ==> Cleaned(old(Now()), Now(), deleted, Elements(entities))
      ensures ok ==> forall e :: e in entities ==> Numbers(graph, ids, e)
      ensures !ok ==> Now() == old(Now()).(dirty := dirty)
      decreases height, 0
    {
      hide Flushed, Unsaved, NoRepeats, PoolsOf, Statements, Queued;
      hide BeginsTwice, AllEnqueued, RestEnqueued, Cleaned, Without, Numbers;
      ghost var s, queues := Now(), Pending();
      ok, useTransaction := true, !transaction;
      if !transaction {
        ok := StartTransaction();
        if !ok {
          return;
        }
        NotDisjoint(graph, tracked, begun);
      }
      var list := ListOf(toFlush);
      assert Elements(list) == toFlush;
      var ignored;
      ok, ignored := Flush(transaction, list, height - 1);
      if !ok {
        return;
      }
      ghost var middle, queued := Now(), Pending();
      var rest := Rest(entities, toFlush);
      WithoutMembers(entities, toFlush);
      RestReady(graph, s, middle, entities, toFlush, rest);
      InDBStays(graph, s, middle);
      if |rest| > 0 {
        assert rest[0] in Elements(rest);
        if !transaction {
          NotTwice(graph, middle, deleted, tracked, Elements(rest), Waiting(), begun);
        }
        ok, ignored := Flush(transaction, rest, 0);
        InDBStays(graph, middle, Now());
        FlushedTwice(graph, s, middle, Now());
      } else {
        NothingToFlush(graph, middle, deleted, queued);
        FlushedNothing(graph, middle);
      }
      if ok {
        forall e | e in entities && e in toFlush ensures Numbers(graph, ids, e) {
          assert e in list;
          NumbersStay(graph, middle, Now(), e);
        }
        RestQueued(graph, s, middle, deleted, entities, toFlush, list, queues, queued, Pending());
        CleanedTwice(s, middle, Now(), deleted, toFlush, Elements(rest), Elements(entities));
      }
    }
  }

  // ---------------------------------------------------------------- where the condition bites

  /** An entity in one pool that refers to two new ones, of two tables in another. */
  function TwoPools(): (g: Graph)
    ensures g.Acyclic()
  {
    Graph(map[1 := "A", 2 := "B", 3 := "C"], map["A" := "first", "B" := "second", "C" := "second"], map[1 := [2, 3]], map[1 := 1])
  }

  lemma TwoMissing(s: State)
    requires s.ids == map[]
    ensures Unsaved(TwoPools(), s, 1) == {2, 3} && Unsaved(TwoPools(), s, 2) == {} && Unsaved(TwoPools(), s, 3) == {}
  {
    var g := TwoPools();
    assert g.Refs(1) == [2, 3] && [2, 3][0] == 2 && [2, 3][1] == 3;
  }

  lemma TwoNames()
    ensures PoolsOf(TwoPools(), {1}) == {"first"} && PoolsOf(TwoPools(), {2, 3}) == {"second"} && "first" != "second"
  {
    assert "first"[0] != "second"[0];
  }

  lemma TwoReferences(s: State)
    requires s.ids == map[] && s.inDB == {}
    ensures Missing(TwoPools(), s, {1}) == {2, 3} && Queued(TwoPools(), s, {}, {1}, Queue(0, {})) == Queue(0, {})
  {
    hide Unsaved, TwoPools;
    TwoMissing(s);
    assert Updated(TwoPools(), s, {}, {1}) == {} && DeletedFrom(TwoPools(), s, {}, {1}) == {};
  }

  lemma TwoPoolsTwice(s: State)
    requires s.ids == map[] && s.inDB == {}
    ensures BeginsTwice(TwoPools(), s, {}, {1}, {1}, Queue(0, {}), {})
  {
    hide Unsaved, Statements, Queued, Missing, PoolsOf, TwoPools;
    TwoNames();
    TwoReferences(s);
    TwoMissing(s);
    TwoTables(TwoPools(), s);
  }

  lemma TwoTables(g: Graph, s: State)
    requires g == TwoPools() && s.ids == map[] && s.inDB == {}
    requires Unsaved(g, s, 2) == {} && Unsaved(g, s, 3) == {}
    ensures Statements(g, s, {}, {2, 3}, Queue(0, {})) == 2
  {
    assert InsertedInto(g, s, {}, {2, 3}) == {"B", "C"};
    assert Updated(g, s, {}, {2, 3}) == {} && DeletedFrom(g, s, {}, {2, 3}) == {};
    assert "B" != "C" by {
      assert "B"[0] != "C"[0];
    }
    assert |{"B", "C"}| == 2;
  }

  /** Flushing it panics: the references' two inserts begin the first pool's transaction again. */
  method TwoPoolsPanic() returns (ok: bool)
    ensures !ok
  {
    hide BeginsTwice, Begins, Unsaved, Graph.Acyclic, PoolsOf, Missing, Flushed, TwoPools;
    var s := State(map[], {}, {}, [], map[]);
    TwoPoolsTwice(s);
    TwoRanks();
    var f := new Flusher(TwoPools(), {}, 1, {1}, s, {});
    assert Elements([1]) == {1} && f.Waiting() == Queue(0, {});
    var used;
    ok, used := f.Flush(false, [1], 2);
  }

  lemma TwoRanks()
    ensures TwoPools().Rank(1) < 2
  {
  }

  // ---------------------------------------------------------------- the numbers of one INSERT

  /** How many of the rows have no id. */
  function Unnumbered(s: State, rows: seq<Entity>): nat {
    if rows == [] then 0 else Unnumbered(s, rows[..|rows| - 1]) + if s.Saved(rows[|rows| - 1]) then 0 else 1
  }

  /** The number for the next row without an id after these. */
  function Number(s: State, rows: seq<Entity>, first: nat, increment: nat): nat {
    first + increment * Unnumbered(s, rows)
  }

  /** The rows without an id have got the numbers from first on, in steps. */
  ghost predicate Stepped(s: State, t: State, rows: seq<Entity>, first: nat, increment: nat) {
    forall i :: 0 <= i < |rows| && !s.Saved(rows[i]) ==> rows[i] in t.ids && t.ids[rows[i]] == Number(s, rows[..i], first, increment)
  }

  lemma NoneStepped(s: State, first: nat, increment: nat)
    ensures Stepped(s, s, [], first, increment) && Unnumbered(s, []) == 0
  {
  }

  lemma StillUnsaved(g: Graph, s: State, t: State, done: seq<Entity>, e: Entity)
    requires Flushed(g, s, t) && t.log == s.log + done && e !in done
    ensures t.Saved(e) <==> s.Saved(e)
  {
    assert t.log[|s.log|..] == done;
  }

  lemma StepOne(g: Graph, s: State, t: State, u: State, rows: seq<Entity>, i: nat, first: nat, increment: nat)
    requires i < |rows| && Stepped(s, t, rows[..i], first, increment) && (t.Saved(rows[i]) <==> s.Saved(rows[i]))
    requires forall a, b :: 0 <= a < b < |rows| ==> rows[a] != rows[b]
    requires u == Insert(g, t, rows[i], Number(s, rows[..i], first, increment))
    ensures Stepped(s, u, rows[..i + 1], first, increment)
    ensures Unnumbered(s, rows[..i + 1]) == Unnumbered(s, rows[..i]) + if s.Saved(rows[i]) then 0 else 1
  {
    UnnumberedNext(s, rows, i);
    hide Unnumbered, Number;
    var now := rows[..i + 1];
    forall j | 0 <= j < |now| && !s.Saved(now[j])
      ensures now[j] in u.ids && u.ids[now[j]] == Number(s, now[..j], first, increment)
    {
      Prefixes(rows, i, j);
      if j < i {
        assert rows[j] != rows[i];
        assert rows[..i][j] in t.ids && t.ids[rows[..i][j]] == Number(s, rows[..i][..j], first, increment);
      }
    }
  }

  lemma Prefixes(rows: seq<Entity>, i: nat, j: nat)
    requires j <= i < |rows|
    ensures rows[..i + 1][..j] == rows[..j] && rows[..i + 1][j] == rows[j]
    ensures j < i ==> rows[..i][j] == rows[j] && rows[..i][..j] == rows[..j]
  {
  }

  lemma UnnumberedNext(s: State, rows: seq<Entity>, i: nat)
    requires i < |rows|
    ensures Unnumbered(s, rows[..i + 1]) == Unnumbered(s, rows[..i]) + if s.Saved(rows[i]) then 0 else 1
  {
    Prefixes(rows, i, i);
  }

  // ---------------------------------------------------------------- counting

  lemma NothingQueued(g: Graph, s: State, deleted: set<Entity>, q: Queue)
    ensures Queued(g, s, deleted, Elements([]), q) == q && PoolsOf(g, Elements([])) == {}
  {
    assert Elements([]) == {};
    assert Updated(g, s, deleted, {}) == {} && DeletedFrom(g, s, deleted, {}) == {};
  }

  lemma NextElements(entities: seq<Entity>, i: nat)
    requires i < |entities|
    ensures Elements(entities[..i + 1]) == Elements(entities[..i]) + {entities[i]}
  {
    assert entities[..i + 1] == entities[..i] + [entities[i]];
  }

  lemma NextPool(g: Graph, entities: seq<Entity>, i: nat)
    requires i < |entities|
    ensures PoolsOf(g, Elements(entities[..i + 1])) == PoolsOf(g, Elements(entities[..i])) + {g.Pool(entities[i])}
  {
    NextElements(entities, i);
  }

  lemma UpdatedNext(g: Graph, s: State, deleted: set<Entity>, es: set<Entity>, e: Entity)
    requires e !in es
    ensures |Updated(g, s, deleted, es + {e})|
      == |Updated(g, s, deleted, es)| + if Unsaved(g, s, e) == {} && e in s.inDB && e in s.dirty && e !in deleted then 1 else 0
  {
    hide Unsaved;
    assert Updated(g, s, deleted, es + {e})
      == Updated(g, s, deleted, es) + if Unsaved(g, s, e) == {} && e in s.inDB && e in s.dirty && e !in deleted then {e} else {};
  }

  lemma NextUpdated(g: Graph, s: State, deleted: set<Entity>, entities: seq<Entity>, i: nat)
    requires i < |entities| && NoRepeats(entities)
    ensures entities[i] !in Updated(g, s, deleted, Elements(entities[..i]))
    ensures
      var e := entities[i];
      Updated(g, s, deleted, Elements(entities[..i + 1])) == Updated(g, s, deleted, Elements(entities[..i]))
        + if Unsaved(g, s, e) == {} && e in s.inDB && e in s.dirty && e !in deleted then {e} else {}
  {
    hide Unsaved;
    NextElements(entities, i);
    assert entities[i] !in entities[..i];
  }

  lemma DeletedNext(g: Graph, s: State, deleted: set<Entity>, es: set<Entity>, e: Entity)
    ensures DeletedFrom(g, s, deleted, es + {e})
      == DeletedFrom(g, s, deleted, es) + if Unsaved(g, s, e) == {} && e in deleted then {g.Table(e)} else {}
  {
    hide Unsaved;
  }

  lemma NextQueued(g: Graph, s: State, deleted: set<Entity>, entities: seq<Entity>, i: nat, q: Queue)
    requires i < |entities| && NoRepeats(entities)
    ensures
      var was, now, e := Queued(g, s, deleted, Elements(entities[..i]), q), Queued(g, s, deleted, Elements(entities[..i + 1]), q), entities[i];
      if Unsaved(g, s, e) == {} && e in deleted then now == was.(tables := was.tables + {g.Table(e)})
      else if Unsaved(g, s, e) == {} && e in s.inDB && e in s.dirty then now == was.(updates := was.updates + 1)
      else now == was
    ensures entities[i] !in Elements(entities[..i])
  {
    hide Unsaved, Updated, DeletedFrom;
    var es, e := Elements(entities[..i]), entities[i];
    NextElements(entities, i);
    assert e !in entities[..i];
    UpdatedNext(g, s, deleted, es, e);
    DeletedNext(g, s, deleted, es, e);
  }

  lemma MissingIs(g: Graph, s: State, p: State, deleted: set<Entity>, entities: seq<Entity>, package: map<string, seq<Entity>>, toFlush: set<Entity>)
    requires p == s.(dirty := p.dirty) && Covered(g, p, deleted, entities, package, toFlush)
    ensures toFlush == Missing(g, s, Elements(entities)) == Missing(g, p, Elements(entities))
  {
    hide Unsaved;
    forall e ensures Unsaved(g, p, e) == Unsaved(g, s, e) {
      SameUnsaved(g, s, p, e);
    }
    forall r | r in Missing(g, s, Elements(entities)) ensures r in toFlush {
      var e :| e in Elements(entities) && r in Unsaved(g, s, e);
      assert Unsaved(g, p, e) <= toFlush;
    }
    forall r | r in toFlush ensures r in Missing(g, s, Elements(entities)) {
      var e :| e in entities && r in Unsaved(g, p, e);
      assert e in Elements(entities);
    }
  }

  /** The tables of the package are those to insert into when nothing is missing. */
  lemma PackageTables(g: Graph, p: State, deleted: set<Entity>, entities: seq<Entity>, package: map<string, seq<Entity>>)
    requires Packed(g, p, entities, package) && Covered(g, p, deleted, entities, package, {}) && deleted <= p.inDB
    ensures package.Keys == InsertedInto(g, p, deleted, Elements(entities))
  {
    hide Unsaved, NoRepeats;
    forall t | t in package ensures t in InsertedInto(g, p, deleted, Elements(entities)) {
      var e := package[t][0];
      assert e in package[t];
      ReadyWhen(g, p, e);
      assert e in Elements(entities);
    }
    forall e | e in Elements(entities) && Unsaved(g, p, e) == {} && e !in deleted && e !in p.inDB ensures g.Table(e) in package {
    }
  }

  lemma SameMissing(g: Graph, s: State, p: State, es: set<Entity>)
    requires p == s.(dirty := p.dirty)
    ensures Missing(g, p, es) == Missing(g, s, es)
  {
    hide Unsaved;
    forall e ensures Unsaved(g, p, e) == Unsaved(g, s, e) {
      SameUnsaved(g, s, p, e);
    }
  }

  lemma SameTables(g: Graph, s: State, p: State, deleted: set<Entity>, es: set<Entity>)
    requires p == s.(dirty := p.dirty)
    ensures InsertedInto(g, p, deleted, es) == InsertedInto(g, s, deleted, es)
    ensures DeletedFrom(g, p, deleted, es) == DeletedFrom(g, s, deleted, es)
  {
    hide Unsaved;
    forall e ensures Unsaved(g, p, e) == Unsaved(g, s, e) {
      SameUnsaved(g, s, p, e);
    }
  }

  /** What is not in the database is not updated, whatever is dirty. */
  lemma NewBegins(g: Graph, s: State, p: State, deleted: set<Entity>, es: set<Entity>, q: Queue, begun: set<string>)
    requires p == s.(dirty := p.dirty) && forall e :: e in es ==> e !in s.inDB
    ensures Begins(g, p, deleted, es, q, begun) <==> Begins(g, s, deleted, es, q, begun)
  {
    hide Unsaved, Missing, InsertedInto, DeletedFrom, PoolsOf;
    SameMissing(g, s, p, es);
    SameTables(g, s, p, deleted, es);
    assert Updated(g, p, deleted, es) == {} && Updated(g, s, deleted, es) == {};
  }

  lemma MissingNew(g: Graph, s: State, es: set<Entity>)
    requires forall e :: e in s.inDB ==> s.Saved(e)
    ensures forall r :: r in Missing(g, s, es) ==> r !in s.inDB
  {
  }

  /** When a flush wants to begin a transaction, in terms of what its first pass has found. */
  lemma BeginsWhen(g: Graph, s: State, p: State, deleted: set<Entity>, entities: seq<Entity>, package: map<string, seq<Entity>>,
                   toFlush: set<Entity>, q: Queue, begun: set<string>, now: Queue)
    requires p == s.(dirty := p.dirty) && deleted <= s.inDB
    requires Packed(g, p, entities, package) && Covered(g, p, deleted, entities, package, toFlush)
    requires toFlush == Missing(g, s, Elements(entities)) && now == Queued(g, s, deleted, Elements(entities), q)
    ensures Begins(g, s, deleted, Elements(entities), q, begun)
       <==> PoolsOf(g, Elements(entities)) !! begun && (toFlush != {} || |package| + now.updates + |now.tables| > 1)
  {
    hide Packed, Covered, Missing, Queued, PoolsOf, InsertedInto;
    if toFlush == {} {
      PackageTables(g, p, deleted, entities, package);
      SameTables(g, s, p, deleted, Elements(entities));
      assert |package.Keys| == |package|;
    }
  }

  lemma PoolsSome(g: Graph, es: set<Entity>)
    requires es != {}
    ensures PoolsOf(g, es) != {}
  {
    var e :| e in es;
    assert g.Pool(e) in PoolsOf(g, es);
  }

  /** And when it panics: its references are flushed with the tracked entities' pools begun. */
  lemma TwiceWhen(g: Graph, s: State, p: State, deleted: set<Entity>, tracked: set<Entity>, es: set<Entity>, toFlush: set<Entity>,
                  q: Queue, begun: set<string>, now: Queue)
    requires p == s.(dirty := p.dirty) && tracked != {} && forall e :: e in s.inDB ==> s.Saved(e)
    requires toFlush == Missing(g, s, es) && now == Queued(g, s, deleted, es, q)
    ensures BeginsTwice(g, s, deleted, tracked, es, q, begun)
       <==> PoolsOf(g, es) !! begun &&
            if PoolsOf(g, tracked) !! begun then
              toFlush != {} && BeginsTwice(g, p, deleted, tracked, toFlush, now, begun + PoolsOf(g, tracked))
            else Begins(g, s, deleted, es, q, begun)
  {
    hide Queued, Statements;
    PoolsSome(g, tracked);
    MissingNew(g, s, es);
    NewBegins(g, s, p, deleted, toFlush, now, begun + PoolsOf(g, tracked));
    hide PoolsOf, Missing;
    var all := begun + PoolsOf(g, tracked);
    assert !(PoolsOf(g, tracked) !! all);
  }

  /** Entities whose pools are begun begin nothing. */
  lemma NotTwice(g: Graph, s: State, deleted: set<Entity>, tracked: set<Entity>, es: set<Entity>, q: Queue, begun: set<string>)
    requires es != {} && es <= tracked && PoolsOf(g, tracked) <= begun
    ensures !BeginsTwice(g, s, deleted, tracked, es, q, begun) && !(PoolsOf(g, tracked) !! begun)
  {
    hide Queued, Statements, Missing;
    PoolsSome(g, es);
    PoolsSome(g, tracked);
  }

  lemma FlushedDirty(g: Graph, s: State, t: State)
    requires t == s.(dirty := t.dirty)
    ensures Flushed(g, s, t)
  {
    assert t.log[|s.log|..] == [];
  }

  lemma SoundAfter(g: Graph, s: State, t: State)
    requires Flushed(g, s, t) && forall e :: e in s.inDB ==> s.Saved(e)
    ensures s.inDB <= t.inDB && forall e :: e in t.inDB ==> t.Saved(e)
  {
  }

  lemma InDBStays(g: Graph, s: State, t: State)
    requires Flushed(g, s, t)
    ensures s.inDB <= t.inDB
  {
  }

  /** What an entity misses is lower than the entity. */
  lemma LowerRanks(g: Graph, s: State, p: State, deleted: set<Entity>, entities: seq<Entity>, package: map<string, seq<Entity>>,
                   toFlush: set<Entity>, height: nat)
    requires g.Acyclic() && p == s.(dirty := p.dirty) && Covered(g, p, deleted, entities, package, toFlush) && toFlush != {}
    requires forall e :: e in entities && Unsaved(g, s, e) != {} ==> g.Rank(e) < height
    ensures height > 0 && forall r :: r in toFlush ==> g.Rank(r) < height - 1
  {
    forall r | r in toFlush ensures g.Rank(r) < height - 1 {
      var e :| e in entities && r in Unsaved(g, p, e);
      SameUnsaved(g, s, p, e);
    }
    var r :| r in toFlush;
  }

  /** Once the missing references are saved the other entities miss none. */
  lemma RestReady(g: Graph, p: State, middle: State, entities: seq<Entity>, toFlush: set<Entity>, rest: seq<Entity>)
    requires Flushed(g, p, middle) && forall e :: e in entities ==> Unsaved(g, p, e) <= toFlush
    requires forall r :: r in toFlush ==> middle.Saved(r)
    requires forall e :: e in rest ==> e in entities
    ensures forall e :: e in rest ==> Unsaved(g, middle, e) == {}
  {
    forall e | e in rest ensures Unsaved(g, middle, e) == {} {
      forall r | r in g.Refs(e) ensures middle.Saved(r) {
        assert p.Saved(r) || r in Unsaved(g, p, e);
      }
    }
  }

  lemma MissingAll(g: Graph, p: State, deleted: set<Entity>, entities: seq<Entity>, package: map<string, seq<Entity>>, toFlush: set<Entity>)
    requires Covered(g, p, deleted, entities, package, toFlush)
    ensures forall e :: e in entities ==> Unsaved(g, p, e) <= toFlush
  {
    hide Unsaved;
  }

  lemma NotDisjoint(g: Graph, tracked: set<Entity>, begun: set<string>)
    requires tracked != {} && PoolsOf(g, tracked) <= begun
    ensures !(PoolsOf(g, tracked) !! begun)
  {
    PoolsSome(g, tracked);
  }

  lemma AllCovered(g: Graph, p: State, t: State, deleted: set<Entity>, entities: seq<Entity>, package: map<string, seq<Entity>>)
    requires Covered(g, p, deleted, entities, package, {}) && p.inDB <= t.inDB && deleted <= p.inDB
    requires forall u, e :: u in package && e in package[u] ==> e in t.inDB
    ensures forall e :: e in entities ==> e in t.inDB
  {
    forall e | e in entities ensures e in t.inDB {
      assert Unsaved(g, p, e) <= {} ==> Unsaved(g, p, e) == {};
    }
  }

  /** Some order of the entities. */
  method ListOf(es: set<Entity>) returns (list: seq<Entity>)
    ensures NoRepeats(list) && (forall e :: e in list <==> e in es) && (es != {} ==> list != [])
  {
    list := [];
    var left := es;
    while left != {}
      invariant left <= es && NoRepeats(list)
      invariant forall e :: e in list <==> e in es && e !in left
      decreases |left|
    {
      var e :| e in left;
      list := list + [e];
      left := left - {e};
    }
  }

  /** The entities that are not flushed as references. */
  method Rest(entities: seq<Entity>, toFlush: set<Entity>) returns (rest: seq<Entity>)
    ensures rest == Without(entities, toFlush)
  {
    rest := [];
    for i := 0 to |entities|
      invariant rest == Without(entities[..i], toFlush)
    {
      assert entities[..i + 1][..i] == entities[..i];
      if entities[i] !in toFlush {
        rest := rest + [entities[i]];
      }
    }
    assert entities[..|entities|] == entities;
  }

  lemma NothingToFlush(g: Graph, s: State, deleted: set<Entity>, q: Queues)
    ensures AllEnqueued(g, s, deleted, [], q, q) && Cleaned(s, s, deleted, Elements([]))
  {
  }

  /** After the first pass what is dirty misses references. */
  lemma OnlyMissing(g: Graph, s: State, p: State, deleted: set<Entity>, entities: seq<Entity>, toFlush: set<Entity>)
    requires p == s.(dirty := s.dirty - Updated(g, s, deleted, Elements(entities)))
    requires toFlush == Missing(g, s, Elements(entities)) && forall e :: e in s.inDB ==> s.Saved(e)
    ensures forall e :: e in entities && e in p.inDB && e in p.dirty && e !in deleted ==> Unsaved(g, p, e) != {}
    ensures forall r :: r in toFlush ==> r !in p.inDB
  {
    MissingNew(g, s, Elements(entities));
    hide Unsaved;
    forall e ensures Unsaved(g, p, e) == Unsaved(g, s, e) {
      SameUnsaved(g, s, p, e);
    }
  }

  lemma NoneMissing(g: Graph, s: State, p: State, deleted: set<Entity>, entities: seq<Entity>, package: map<string, seq<Entity>>)
    requires p == s.(dirty := p.dirty) && Covered(g, p, deleted, entities, package, {})
    ensures forall e :: e in entities ==> Unsaved(g, s, e) == {}
    ensures forall e :: e in Elements(entities) ==> Unsaved(g, s, e) == {}
  {
    hide Unsaved;
    forall e | e in entities ensures Unsaved(g, s, e) == {} {
      SameUnsaved(g, s, p, e);
    }
  }

  /** What is to be inserted: entities of this pass that are not in the database, ready, each once under its table. */
  ghost predicate Packed(g: Graph, s: State, done: seq<Entity>, package: map<string, seq<Entity>>) {
    forall t :: t in package ==>
      && package[t] != [] && NoRepeats(package[t])
      && forall e :: e in package[t] ==> e in done && g.Table(e) == t && Ready(g, s, e) && e !in s.inDB
  }

  /** Every entity of this pass waits for its references, or is to be inserted, or is in the database. */
  ghost predicate Covered(g: Graph, s: State, deleted: set<Entity>, done: seq<Entity>, package: map<string, seq<Entity>>, toFlush: set<Entity>) {
    && (forall e :: e in done ==>
          if Unsaved(g, s, e) != {} then Unsaved(g, s, e) <= toFlush
          else e in s.inDB || e in deleted || (g.Table(e) in package && e in package[g.Table(e)]))
    && (forall r :: r in toFlush ==> exists e :: e in done && r in Unsaved(g, s, e))
  }

  lemma NothingPacked(g: Graph, s: State, deleted: set<Entity>)
    ensures Packed(g, s, [], map[]) && Covered(g, s, deleted, [], map[], {})
  {
  }

  lemma SameUnsaved(g: Graph, s: State, t: State, e: Entity)
    requires t == s.(dirty := t.dirty)
    ensures Unsaved(g, t, e) == Unsaved(g, s, e)
  {
  }

  lemma SamePacked(g: Graph, s: State, t: State, deleted: set<Entity>, done: seq<Entity>, package: map<string, seq<Entity>>, toFlush: set<Entity>)
    requires t == s.(dirty := t.dirty)
    requires Packed(g, s, done, package) && Covered(g, s, deleted, done, package, toFlush)
    ensures Packed(g, t, done, package) && Covered(g, t, deleted, done, package, toFlush)
  {
    forall e ensures Unsaved(g, t, e) == Unsaved(g, s, e) {
      SameUnsaved(g, s, t, e);
    }
    forall e | Ready(g, s, e) ensures Ready(g, t, e) {}
  }

  lemma PackedTables(g: Graph, s: State, done: seq<Entity>, package: map<string, seq<Entity>>)
    requires Packed(g, s, done, package)
    ensures forall t, u, e :: t in package && u in package && e in package[t] && e in package[u] ==> t == u
    ensures forall t :: t in package ==> NoRepeats(package[t])
  {
    hide Ready, NoRepeats;
  }

  /** What becomes of the package in one step of the pass. */
  lemma PackStep(g: Graph, s: State, deleted: set<Entity>, entities: seq<Entity>, i: nat, package: map<string, seq<Entity>>, was: set<Entity>)
    requires i < |entities| && NoRepeats(entities)
    requires Packed(g, s, entities[..i], package) && Covered(g, s, deleted, entities[..i], package, was)
    ensures
      var e := entities[i];
      var table, now := g.Table(e), was + Unsaved(g, s, e);
      var more := package[table := (if table in package then package[table] else []) + [e]];
      && Packed(g, s, entities[..i + 1], package)
      && (Unsaved(g, s, e) != {} || e in s.inDB || e in deleted ==> Covered(g, s, deleted, entities[..i + 1], package, now))
      && (Unsaved(g, s, e) == {} && e !in s.inDB ==>
            Packed(g, s, entities[..i + 1], more) && Covered(g, s, deleted, entities[..i + 1], more, now))
  {
    hide Unsaved, Ready;
    var e := entities[i];
    var done := entities[..i + 1];
    assert done == entities[..i] + [e];
    assert e !in entities[..i];
    ReadyWhen(g, s, e);
    forall r | r in was + Unsaved(g, s, e) ensures exists x :: x in done && r in Unsaved(g, s, x) {
      if r in was {
        var x :| x in entities[..i] && r in Unsaved(g, s, x);
        assert x in done;
      } else {
        assert e in done;
      }
    }
  }

  lemma ReadyWhen(g: Graph, s: State, e: Entity)
    ensures Unsaved(g, s, e) == {} <==> Ready(g, s, e)
  {
    if Unsaved(g, s, e) == {} {
      forall r | r in g.Refs(e) ensures s.Saved(r) {
        assert r !in Unsaved(g, s, e);
      }
    }
  }

  lemma StillReady(g: Graph, s: State, t: State, e: Entity)
    requires Flushed(g, s, t) && Ready(g, s, e)
    ensures Ready(g, t, e)
  {
  }
}
