/** Loads, flushes and transactions over one table: what the local cache, Redis and the after-commit queues hold. */
module CacheCoherence {
  import opened Wrappers
  import RecordCodec

  /** What reading a row or a record puts into the columns' fields. */
  type Row = map<string, RecordCodec.Value>

  /** A cached entity: its row, or the mark that there is none. */
  datatype Entry = Absent | Present(row: Row)

  /**
   * A tracked entity's part in a flush. was is the record an updated entity was loaded from and now its record once it is
   * written; stored and bind are what MySQL makes of the columns of the statement.
   */
  datatype Change =
    | Insert(id: nat, stored: Row, now: Row)
    | Update(id: nat, was: Row, bind: Row, now: Row)
    | Delete(id: nat)

  /**
   * db is committed; tx is what an open transaction has made of it. sets waits for the commit, and so does the queue of
   * deletes that after names. Each flusher owns a queue from its first flush on.
   */
  datatype State = State(
    hasLocal: bool, hasRedis: bool,
    db: map<nat, Row>, tx: Option<map<nat, Row>>,
    local: map<nat, Entry>, redis: map<nat, Entry>,
    sets: seq<(nat, Entry)>, queues: map<nat, set<nat>>, flushers: map<nat, nat>, after: Option<nat>)
  {
    function View(): map<nat, Row> {
      if tx.Some? then tx.value else db
    }
  }

  function Find(db: map<nat, Row>, id: nat): Option<Row> {
    if id in db then Some(db[id]) else None
  }

  function EntryOf(db: map<nat, Row>, id: nat): Entry {
    if id in db then Present(db[id]) else Absent
  }

  // ---------------------------------------------------------------- what a flush writes

  function Apply(view: map<nat, Row>, c: Change): map<nat, Row> {
    match c
    case Insert(id, stored, _) => view[id := stored]
    case Update(id, _, bind, _) => if id in view then view[id := view[id] + bind] else view
    case Delete(id) => view - {id}
  }

  function ApplyAll(view: map<nat, Row>, cs: seq<Change>): map<nat, Row> {
    if cs == [] then view else Apply(ApplyAll(view, cs[..|cs| - 1]), cs[|cs| - 1])
  }

  /** What the flush puts into the local cache for a change. */
  function SetOf(c: Change): (nat, Entry) {
    match c
    case Insert(id, _, now) => (id, Present(now))
    case Update(id, _, _, now) => (id, Present(now))
    case Delete(id) => (id, Absent)
  }

  function Sets(cs: seq<Change>): seq<(nat, Entry)> {
    seq(|cs|, i requires 0 <= i < |cs| => SetOf(cs[i]))
  }

  datatype Part = Inserts | Updates | Deletes

  function PartOf(c: Change): Part {
    match c
    case Insert(_, _, _) => Inserts
    case Update(_, _, _, _) => Updates
    case Delete(_) => Deletes
  }

  function Only(cs: seq<Change>, p: Part): seq<Change> {
    if cs == [] then []
    else
      var c := cs[|cs| - 1];
      Only(cs[..|cs| - 1], p) + if PartOf(c) == p then [c] else []
  }

  /** Updates are sent after the inserts, but their cache entries are made out while the entities are gone through. */
  function SqlOrder(cs: seq<Change>): seq<Change> {
    Only(cs, Inserts) + Only(cs, Updates) + Only(cs, Deletes)
  }

  function CacheOrder(cs: seq<Change>): seq<Change> {
    Only(cs, Updates) + Only(cs, Inserts) + Only(cs, Deletes)
  }

  /** The rows after a flush, and what it gives the local cache. */
  function Written(view: map<nat, Row>, cs: seq<Change>): map<nat, Row> {
    ApplyAll(view, SqlOrder(cs))
  }

  function Served(cs: seq<Change>): seq<(nat, Entry)> {
    Sets(CacheOrder(cs))
  }

  function Ids(cs: seq<Change>): (r: set<nat>)
    ensures forall c :: c in cs ==> c.id in r
  {
    set c <- cs :: c.id
  }

  function MSet(m: map<nat, Entry>, pairs: seq<(nat, Entry)>): map<nat, Entry> {
    if pairs == [] then m
    else
      var (id, e) := pairs[|pairs| - 1];
      MSet(m, pairs[..|pairs| - 1])[id := e]
  }

  /** The change is possible, and an updated entity is not older than its row. */
  predicate Fresh(view: map<nat, Row>, c: Change) {
    match c
    case Insert(id, _, _) => id !in view
    case Update(id, was, _, _) => id in view && view[id] == was
    case Delete(_) => true
  }

  /** The entity's new record is its new row. */
  predicate Kept(c: Change) {
    match c
    case Insert(_, stored, now) => stored == now
    case Update(_, was, bind, now) => was + bind == now
    case Delete(_) => true
  }

  /** An entity is tracked once. */
  ghost predicate Distinct(cs: seq<Change>) {
    forall i, j :: 0 <= i < j < |cs| ==> cs[i].id != cs[j].id
  }

  ghost predicate Flushable(view: map<nat, Row>, cs: seq<Change>) {
    Distinct(cs) && forall i :: 0 <= i < |cs| ==> Fresh(view, cs[i])
  }

  // ---------------------------------------------------------------- steps

  datatype Action =
    | Load(id: nat) | LoadMany(ids: seq<nat>) | ForgetLocal(id: nat) | ForgetRedis(id: nat)
    | Begin | Flush(flusher: nat, queue: nat, changes: seq<Change>) | Fail(flusher: nat, queue: nat, keys: set<nat>)
    | Commit | Rollback | Clear(ids: seq<nat>)

  /** What a load leaves in the caches, and what it returns. */
  function Loaded(s: State, id: nat): (State, Option<Row>) {
    if s.hasLocal && id in s.local then
      (s, if s.local[id].Absent? then None else Some(s.local[id].row))
    else if s.hasRedis && id in s.redis then
      (if s.hasLocal then s.(local := s.local[id := s.redis[id]]) else s,
       if s.redis[id].Absent? then None else Some(s.redis[id].row))
    else
      var e := EntryOf(s.View(), id);
      (s.(local := if s.hasLocal then s.local[id := e] else s.local,
          redis := if s.hasRedis then s.redis[id := e] else s.redis),
       Find(s.View(), id))
  }

  /** A load leaves what it returns in every cache that it went past, and changes nothing else. */
  lemma LoadFills(s: State, id: nat)
    ensures
      var (t, row) := Loaded(s, id);
      var e := if row.Some? then Present(row.value) else Absent;
      && (s.hasLocal ==> id in t.local && t.local[id] == e)
      && (s.hasRedis && !(s.hasLocal && id in s.local) ==> id in t.redis && t.redis[id] == e)
      && (!s.hasLocal ==> t.local == s.local) && (!s.hasRedis || (s.hasLocal && id in s.local) ==> t.redis == s.redis)
      && (forall x :: x != id ==> (x in t.local <==> x in s.local) && (x in s.local ==> t.local[x] == s.local[x]))
      && (forall x :: x != id ==> (x in t.redis <==> x in s.redis) && (x in s.redis ==> t.redis[x] == s.redis[x]))
      && t == s.(local := t.local, redis := t.redis)
  {
  }

  function Elements(ids: seq<nat>): (r: set<nat>)
    ensures forall id :: id in r <==> id in ids
  {
    set id <- ids
  }

  function InLocal(s: State, ids: set<nat>): set<nat> {
    set id <- ids | s.hasLocal && id in s.local
  }

  function InRedis(s: State, ids: set<nat>): set<nat> {
    set id <- ids | !(s.hasLocal && id in s.local) && s.hasRedis && id in s.redis
  }

  function Uncached(s: State, ids: set<nat>): set<nat> {
    ids - InLocal(s, ids) - InRedis(s, ids)
  }

  function RedisRows(s: State, ids: set<nat>): map<nat, Entry> {
    map id | id in ids && id in s.redis && s.redis[id].Present? :: s.redis[id]
  }

  function DbRows(s: State, ids: set<nat>): map<nat, Entry> {
    map id | id in ids && id in s.View() :: Present(s.View()[id])
  }

  /** Rows found in Redis or MySQL are copied into the local cache, rows found in MySQL into Redis; absences are not kept. */
  function ManyLocal(s: State, ids: set<nat>): map<nat, Entry> {
    if s.hasLocal then s.local + RedisRows(s, InRedis(s, ids)) + DbRows(s, Uncached(s, ids)) else s.local
  }

  function ManyRedis(s: State, ids: set<nat>): map<nat, Entry> {
    if s.hasRedis then s.redis + DbRows(s, Uncached(s, ids)) else s.redis
  }

  /**
   * A batch leaves every row it finds in the caches that it went past, while what the local cache has is not looked for; no
   * absence is written down, and nothing else changes.
   */
  lemma ManyFills(s: State, ids: set<nat>, id: nat)
    ensures
      var local, redis := ManyLocal(s, ids), ManyRedis(s, ids);
      var asked := id in ids && !(s.hasLocal && id in s.local);
      var inRedis := s.hasRedis && id in s.redis;
      && (asked && s.hasLocal && inRedis && s.redis[id].Present? ==> id in local && local[id] == s.redis[id])
      && (asked && s.hasLocal && !inRedis && id in s.View() ==> id in local && local[id] == Present(s.View()[id]))
      && (asked && s.hasRedis && !inRedis && id in s.View() ==> id in redis && redis[id] == Present(s.View()[id]))
      && (!asked || !s.hasLocal || (if inRedis then s.redis[id].Absent? else id !in s.View()) ==>
            (id in local <==> id in s.local) && (id in s.local ==> local[id] == s.local[id]))
      && (!asked || inRedis || !s.hasRedis || id !in s.View() ==>
            (id in redis <==> id in s.redis) && (id in s.redis ==> redis[id] == s.redis[id]))
  {
  }

  /** The queue a flusher puts its deletes into: its own, or the transaction's, or a new one. */
  predicate Uses(s: State, flusher: nat, queue: nat) {
    if flusher in s.flushers then queue == s.flushers[flusher]
    else if s.after.Some? then queue == s.after.value
    else queue !in s.queues
  }

  function Queued(s: State, queue: nat): set<nat> {
    if queue in s.queues then s.queues[queue] else {}
  }

  ghost predicate Enabled(s: State, a: Action) {
    match a
    case Load(_) => s.tx.None? || s.tx.value == s.db
    case LoadMany(_) => s.tx.None? || s.tx.value == s.db
    case Flush(f, q, cs) => Uses(s, f, q) && Flushable(s.View(), cs)
    case Fail(f, q, _) => Uses(s, f, q)
    case Begin => s.tx.None?
    case Commit => s.tx.Some?
    case Rollback => s.tx.Some?
    case _ => true
  }

  /** A flusher gets its queue with its first delete, or when it joins a transaction. */
  predicate Takes(s: State, flusher: nat, deletes: set<nat>) {
    s.tx.Some? || flusher in s.flushers || deletes != {}
  }

  function RunQueue(s: State, queue: nat): State {
    s.(redis := s.redis - Queued(s, queue), queues := s.queues[queue := {}])
  }

  ghost function Next(s: State, a: Action): State {
    match a
    case Load(id) => Loaded(s, id).0
    case LoadMany(ids) => s.(local := ManyLocal(s, Elements(ids)), redis := ManyRedis(s, Elements(ids)))
    case ForgetLocal(id) => s.(local := s.local - {id})
    case ForgetRedis(id) => s.(redis := s.redis - {id})
    case Begin => s.(tx := Some(s.db))
    case Flush(f, q, cs) => Flushed(s, f, q, cs)
    case Fail(f, q, keys) =>
      var t := s.(tx := None, sets := [], after := None);
      if keys == {} then t else t.(flushers := s.flushers[f := q], queues := s.queues[q := Queued(s, q) + keys])
    case Commit =>
      var t := s.(db := s.View(), tx := None, local := MSet(s.local, s.sets), sets := [], after := None);
      if s.after.Some? then RunQueue(t, s.after.value) else t
    case Rollback => s.(tx := None, sets := [], after := None)
    case Clear(ids) =>
      s.(local := if s.hasLocal then s.local - (set i <- ids) else s.local,
         redis := if s.hasRedis then s.redis - (set i <- ids) else s.redis)
  }

  /** Inside a transaction a flush leaves the caches to the commit; outside it commits its statements and then serves them. */
  function Flushed(s: State, flusher: nat, queue: nat, cs: seq<Change>): State {
    var deletes := if s.hasRedis then Ids(cs) else {};
    var pairs := if s.hasLocal then Served(cs) else [];
    if s.tx.Some? then
      Taken(s, flusher, queue, deletes).(tx := Some(Written(s.tx.value, cs)), sets := s.sets + pairs, after := Some(queue))
    else
      var t := s.(db := Written(s.db, cs), local := MSet(s.local, pairs));
      if Takes(s, flusher, deletes) then RunQueue(Taken(t, flusher, queue, deletes), queue) else t
  }

  function Taken(s: State, flusher: nat, queue: nat, deletes: set<nat>): State {
    s.(flushers := s.flushers[flusher := queue], queues := s.queues[queue := Queued(s, queue) + deletes])
  }

  ghost predicate Init(s: State) {
    s.tx.None? && s.local == map[] && s.redis == map[] && s.sets == [] && s.queues == map[] && s.flushers == map[] && s.after.None?
  }

  ghost predicate Run(ss: seq<State>, acts: seq<Action>) {
    && |ss| == |acts| + 1 && Init(ss[0])
    && forall i :: 0 <= i < |acts| ==> Enabled(ss[i], acts[i]) && ss[i + 1] == Next(ss[i], acts[i])
  }

  // ---------------------------------------------------------------- coherence

  ghost predicate Matching(m: map<nat, Entry>, db: map<nat, Row>) {
    forall id :: id in m ==> m[id] == EntryOf(db, id)
  }

  /** Every cached entity is its committed row, or marks that there is none. */
  ghost predicate Coherent(s: State) {
    Matching(s.local, s.db) && Matching(s.redis, s.db)
  }

  /** What waits for the commit covers everything the transaction has changed. */
  ghost predicate Pending(s: State)
    requires s.tx.Some?
  {
    && Matching(MSet(map[], s.sets), s.tx.value)
    && (forall id :: Find(s.db, id) != Find(s.tx.value, id) ==>
          && (id in s.local ==> id in MSet(map[], s.sets))
          && (id in s.redis ==> s.after.Some? && id in Queued(s, s.after.value)))
  }

  ghost predicate Inv(s: State) {
    && Coherent(s)
    && (!s.hasLocal ==> s.local == map[] && s.sets == [])
    && (!s.hasRedis ==> s.redis == map[])
    && (s.tx.None? ==> s.sets == [] && s.after.None?)
    && (s.tx.Some? ==> Pending(s))
    && (s.after.Some? ==> s.after.value in s.queues)
    && (forall f :: f in s.flushers ==> s.flushers[f] in s.queues)
  }

  /** The rows that the transaction has changed so far and Redis holds are among the deletes of the flusher that joins it. */
  ghost predicate Joins(s: State, a: Action) {
    a.Flush? && s.tx.Some? && s.hasRedis ==>
      forall id :: id in s.redis && Find(s.db, id) != Find(s.tx.value, id) ==> id in Queued(s, a.queue) || id in Ids(a.changes)
  }

  /** What the local cache is given are the new rows. */
  predicate Faithful(s: State, a: Action) {
    a.Flush? && s.hasLocal ==> forall c <- a.changes :: Kept(c)
  }

  lemma {:induction false} MSetMerge(m: map<nat, Entry>, pairs: seq<(nat, Entry)>)
    ensures MSet(m, pairs) == m + MSet(map[], pairs)
  {
    if pairs != [] {
      MSetMerge(m, pairs[..|pairs| - 1]);
    }
  }

  lemma {:induction false} MSetConcat(m: map<nat, Entry>, p: seq<(nat, Entry)>, q: seq<(nat, Entry)>)
    ensures MSet(m, p + q) == MSet(MSet(m, p), q)
  {
    if q == [] {
      assert p + q == p;
    } else {
      MSetConcat(m, p, q[..|q| - 1]);
      assert (p + q)[..|p + q| - 1] == p + q[..|q| - 1];
    }
  }

  lemma {:induction false} OrderedSets(view: map<nat, Row>, cs: seq<Change>)
    requires Flushable(view, cs)
    ensures MSet(map[], Sets(cs)).Keys == Ids(cs)
    ensures forall c :: c in cs ==> (MSet(map[], Sets(cs))[c.id] == EntryOf(ApplyAll(view, cs), c.id) <==> Kept(c))
    ensures forall id :: id !in Ids(cs) ==> Find(ApplyAll(view, cs), id) == Find(view, id)
  {
    if cs != [] {
      var n := |cs| - 1;
      OrderedSets(view, cs[..n]);
      FlushStep(view, cs);
    }
  }

  /** The same changes in another order. */
  ghost predicate Arranged(cs: seq<Change>, ds: seq<Change>) {
    Distinct(ds) && forall c :: c in ds <==> c in cs
  }

  lemma {:induction false} OnlyArranged(cs: seq<Change>, p: Part)
    requires Distinct(cs)
    ensures Distinct(Only(cs, p)) && forall c :: c in Only(cs, p) <==> c in cs && PartOf(c) == p
  {
    hide PartOf;
    if cs != [] {
      var n := |cs| - 1;
      OnlyArranged(cs[..n], p);
      assert cs == cs[..n] + [cs[n]];
      forall c | c in cs[..n] ensures c.id != cs[n].id {}
    }
  }

  lemma DistinctIds(cs: seq<Change>)
    requires Distinct(cs)
    ensures forall c, d :: c in cs && d in cs && c.id == d.id ==> c == d
  {
  }

  lemma DistinctConcat(cs: seq<Change>, a: seq<Change>, b: seq<Change>)
    requires Distinct(cs) && Distinct(a) && Distinct(b)
    requires (forall c :: c in a ==> c in cs && c !in b) && (forall c :: c in b ==> c in cs)
    ensures Distinct(a + b)
  {
    DistinctIds(cs);
    forall i, j | 0 <= i < j < |a + b| ensures (a + b)[i].id != (a + b)[j].id {
      if i < |a| <= j {
        assert a[i] in a && b[j - |a|] in b;
      }
    }
  }

  lemma OrdersArranged(cs: seq<Change>)
    requires Distinct(cs)
    ensures Arranged(cs, SqlOrder(cs)) && Arranged(cs, CacheOrder(cs))
  {
    hide PartOf, Only, Distinct;
    OnlyArranged(cs, Inserts);
    OnlyArranged(cs, Updates);
    OnlyArranged(cs, Deletes);
    var i, u, d := Only(cs, Inserts), Only(cs, Updates), Only(cs, Deletes);
    DistinctConcat(cs, i, u);
    DistinctConcat(cs, i + u, d);
    DistinctConcat(cs, u, i);
    DistinctConcat(cs, u + i, d);
    forall c | c in cs ensures PartOf(c) == Inserts || PartOf(c) == Updates || PartOf(c) == Deletes {}
  }

  lemma {:induction false} SetsAt(cs: seq<Change>)
    requires Distinct(cs)
    ensures MSet(map[], Sets(cs)).Keys == Ids(cs)
    ensures forall c :: c in cs ==> MSet(map[], Sets(cs))[c.id] == SetOf(c).1
  {
    hide SetOf, Ids;
    if cs != [] {
      var n := |cs| - 1;
      SetsAt(cs[..n]);
      IdsStep(cs);
      SetOfId(cs[n]);
      assert Sets(cs)[..n] == Sets(cs[..n]) && Sets(cs)[n] == SetOf(cs[n]);
      assert cs == cs[..n] + [cs[n]];
    } else {
      NothingChanged(cs);
    }
  }

  lemma SetOfId(c: Change)
    ensures SetOf(c).0 == c.id
  {
  }

  lemma NothingChanged(cs: seq<Change>)
    requires cs == []
    ensures Ids(cs) == {}
  {
  }

  lemma SameSets(cs: seq<Change>, ds: seq<Change>)
    requires Distinct(cs) && Arranged(cs, ds)
    ensures Ids(ds) == Ids(cs) && MSet(map[], Sets(ds)) == MSet(map[], Sets(cs))
  {
    hide MSet, Sets, SetOf, Distinct;
    SetsAt(cs);
    SetsAt(ds);
    assert forall id :: id in Ids(ds) ==> exists c :: c in ds && c.id == id;
    assert forall id :: id in Ids(cs) ==> exists c :: c in cs && c.id == id;
  }

  /**
   * Of what a flush will put into the caches, exactly the kept changes are what it makes of its rows; all other rows
   * it leaves alone.
   */
  lemma FlushSets(view: map<nat, Row>, cs: seq<Change>)
    requires Flushable(view, cs)
    ensures MSet(map[], Served(cs)).Keys == Ids(cs)
    ensures forall c :: c in cs ==> (MSet(map[], Served(cs))[c.id] == EntryOf(Written(view, cs), c.id) <==> Kept(c))
    ensures forall id :: id !in Ids(cs) ==> Find(Written(view, cs), id) == Find(view, id)
  {
    hide MSet, Sets, SqlOrder, CacheOrder, ApplyAll, Kept, Ids, Distinct, Fresh;
    OrdersArranged(cs);
    SameSets(cs, SqlOrder(cs));
    SameSets(cs, CacheOrder(cs));
    forall i | 0 <= i < |SqlOrder(cs)| ensures Fresh(view, SqlOrder(cs)[i]) {
      assert SqlOrder(cs)[i] in cs;
    }
    OrderedSets(view, SqlOrder(cs));
  }

  lemma SetsMatching(view: map<nat, Row>, cs: seq<Change>)
    requires Flushable(view, cs)
    ensures Matching(MSet(map[], Served(cs)), Written(view, cs)) <==> forall c <- cs :: Kept(c)
  {
    hide MSet, Served, Written, Kept, EntryOf, Flushable;
    FlushSets(view, cs);
    forall c | c in cs ensures c.id in MSet(map[], Served(cs)) {
      assert c.id in Ids(cs);
    }
  }

  lemma IdsStep(cs: seq<Change>)
    requires Distinct(cs) && cs != []
    ensures Ids(cs) == Ids(cs[..|cs| - 1]) + {cs[|cs| - 1].id} && cs[|cs| - 1].id !in Ids(cs[..|cs| - 1])
  {
    var n := |cs| - 1;
    var done, c := cs[..n], cs[n];
    assert cs == done + [c];
  }

  lemma FlushStep(view: map<nat, Row>, cs: seq<Change>)
    requires Flushable(view, cs) && cs != []
    requires
      var done := cs[..|cs| - 1];
      && MSet(map[], Sets(done)).Keys == Ids(done)
      && (forall c :: c in done ==> (MSet(map[], Sets(done))[c.id] == EntryOf(ApplyAll(view, done), c.id) <==> Kept(c)))
      && forall id :: id !in Ids(done) ==> Find(ApplyAll(view, done), id) == Find(view, id)
    ensures MSet(map[], Sets(cs)).Keys == Ids(cs)
    ensures forall c :: c in cs ==> (MSet(map[], Sets(cs))[c.id] == EntryOf(ApplyAll(view, cs), c.id) <==> Kept(c))
    ensures forall id :: id !in Ids(cs) ==> Find(ApplyAll(view, cs), id) == Find(view, id)
  {
    hide Apply, Fresh, SetOf, Ids, Kept;
    var n := |cs| - 1;
    var done, c := cs[..n], cs[n];
    assert Sets(cs)[..n] == Sets(done) && Sets(cs)[n] == SetOf(c);
    IdsStep(cs);
    var mid := ApplyAll(view, done);
    assert Find(mid, c.id) == Find(view, c.id);
    assert Fresh(view, c);
    ApplyOne(view, mid, c);
    assert cs == done + [c];
  }

  /** The row of a change becomes what the flush caches for it exactly when the change is kept; the other rows stay. */
  lemma ApplyOne(view: map<nat, Row>, mid: map<nat, Row>, c: Change)
    requires Fresh(view, c) && Find(mid, c.id) == Find(view, c.id)
    ensures SetOf(c).0 == c.id && (SetOf(c).1 == EntryOf(Apply(mid, c), c.id) <==> Kept(c))
    ensures forall id :: id != c.id ==> Find(Apply(mid, c), id) == Find(mid, id)
    ensures forall id :: id != c.id ==> EntryOf(Apply(mid, c), id) == EntryOf(mid, id)
  {
  }

  // ---------------------------------------------------------------- every step keeps it

  /** Only the caches differ, and what is new in them is committed while nothing waits for a commit. */
  lemma CachesKeep(s: State, t: State)
    requires Inv(s) && t == s.(local := t.local, redis := t.redis)
    requires Matching(t.local, s.db) && Matching(t.redis, s.db)
    requires (!s.hasLocal ==> t.local == map[]) && (!s.hasRedis ==> t.redis == map[])
    requires s.View() == s.db || (t.local.Keys <= s.local.Keys && t.redis.Keys <= s.redis.Keys)
    ensures Inv(t)
  {
    if s.tx.Some? {
      assert Pending(s);
      forall id | Find(s.db, id) != Find(s.tx.value, id)
        ensures id in t.local ==> id in s.local
        ensures id in t.redis ==> id in s.redis
      {
        assert id in t.local.Keys ==> id in s.local.Keys;
        assert id in t.redis.Keys ==> id in s.redis.Keys;
      }
    }
  }

  lemma LoadKeeps(s: State, id: nat)
    requires Inv(s) && Enabled(s, Load(id))
    ensures Inv(Next(s, Load(id)))
    ensures Loaded(s, id).1 == Find(s.db, id)
  {
    hide Inv;
    CachesOf(s);
    var t := Loaded(s, id).0;
    CachesKeep(s, t);
  }

  lemma CachesOf(s: State)
    requires Inv(s)
    ensures Coherent(s) && (!s.hasLocal ==> s.local == map[]) && (!s.hasRedis ==> s.redis == map[])
  {
  }

  lemma LoadManyKeeps(s: State, ids: seq<nat>)
    requires Inv(s) && Enabled(s, LoadMany(ids))
    ensures Inv(Next(s, LoadMany(ids)))
  {
    hide Inv, ManyLocal, ManyRedis;
    CachesOf(s);
    ManyMatching(s, Elements(ids));
    CachesKeep(s, Next(s, LoadMany(ids)));
  }

  lemma ManyMatching(s: State, ids: set<nat>)
    requires Coherent(s) && s.View() == s.db
    requires (!s.hasLocal ==> s.local == map[]) && (!s.hasRedis ==> s.redis == map[])
    ensures Matching(ManyLocal(s, ids), s.db) && Matching(ManyRedis(s, ids), s.db)
    ensures (!s.hasLocal ==> ManyLocal(s, ids) == map[]) && (!s.hasRedis ==> ManyRedis(s, ids) == map[])
  {
  }

  /** A flush outside a transaction leaves the caches coherent exactly when its changes are kept. */
  lemma FlushExact(s: State, a: Action)
    requires Inv(s) && a.Flush? && Enabled(s, a) && s.tx.None?
    ensures Inv(Next(s, a)) <==> Faithful(s, a)
    ensures Coherent(Next(s, a)) <==> Faithful(s, a)
  {
    FlushedOutside(s, a);
    hide Next, Written, Served, Flushable, Kept, MSet, Ids;
    var cs, t := a.changes, Next(s, a);
    FlushSets(s.db, cs);
    SetsMatching(s.db, cs);
    MSetMerge(s.local, if s.hasLocal then Served(cs) else []);
    NoSets();
    forall id | id in t.redis ensures t.redis[id] == EntryOf(t.db, id) {
      assert Find(t.db, id) == Find(s.db, id);
    }
    if Faithful(s, a) {
      forall id | id in t.local ensures t.local[id] == EntryOf(t.db, id) {
        if id !in Ids(cs) {
          assert Find(t.db, id) == Find(s.db, id);
        }
      }
    }
  }

  lemma NoSets()
    ensures MSet(map[], []) == map[]
  {
  }

  /** A flush outside a transaction: the rows, the local cache, and Redis without the changed rows. */
  lemma FlushedOutside(s: State, a: Action)
    requires Inv(s) && a.Flush? && Enabled(s, a) && s.tx.None?
    ensures
      var t := Next(s, a);
      && t == s.(db := Written(s.db, a.changes), local := MSet(s.local, if s.hasLocal then Served(a.changes) else []),
                 redis := t.redis, flushers := t.flushers, queues := t.queues)
      && (forall id :: id in t.redis ==> id in s.redis && t.redis[id] == s.redis[id] && id !in Ids(a.changes))
      && (forall f :: f in t.flushers ==> t.flushers[f] in t.queues)
  {
    hide Written, Served, Flushable, MSet, Coherent, Uses;
    if s.hasRedis {
      if Ids(a.changes) == {} {
        assert forall id :: id !in Ids(a.changes);
      }
    }
  }

  lemma FlushInsideKeeps(s: State, a: Action)
    requires Inv(s) && a.Flush? && Enabled(s, a) && s.tx.Some? && Joins(s, a) && Faithful(s, a)
    ensures Inv(Next(s, a))
  {
    hide Written, Served, Flushable, Kept;
    var t := Next(s, a);
    assert t.tx == Some(Written(s.tx.value, a.changes)) && t.db == s.db;
    FlushedWaits(s, a.changes);
    FlushSets(s.tx.value, a.changes);
    assert t.sets == s.sets + if s.hasLocal then Served(a.changes) else [];
    hide MSet, Joins;
    forall id | Find(t.db, id) != Find(t.tx.value, id)
      ensures id in t.local ==> id in MSet(map[], t.sets)
      ensures id in t.redis ==> id in Queued(t, a.queue)
    {
      if id !in Ids(a.changes) {
        assert Find(t.tx.value, id) == Find(s.tx.value, id);
        if id in s.redis {
          JoinedAt(s, a, id);
        }
      }
    }
  }

  lemma JoinedAt(s: State, a: Action, id: nat)
    requires a.Flush? && s.tx.Some? && s.hasRedis && Joins(s, a) && id in s.redis && Find(s.db, id) != Find(s.tx.value, id)
    ensures id in Queued(s, a.queue) || id in Ids(a.changes)
  {
  }

  /** What waits for the commit after a flush of kept changes are the rows it has made. */
  lemma FlushedWaits(s: State, cs: seq<Change>)
    requires s.tx.Some? && Flushable(s.tx.value, cs) && Matching(MSet(map[], s.sets), s.tx.value)
    requires if s.hasLocal then forall c <- cs :: Kept(c) else s.sets == []
    ensures
      var waiting := MSet(map[], s.sets + if s.hasLocal then Served(cs) else []);
      && Matching(waiting, Written(s.tx.value, cs))
      && forall id :: id in waiting <==> id in MSet(map[], s.sets) || (s.hasLocal && id in Ids(cs))
  {
    hide Written, Served, Flushable, Kept;
    FlushSets(s.tx.value, cs);
    SetsMatching(s.tx.value, cs);
    var pairs := if s.hasLocal then Served(cs) else [];
    MSetConcat(map[], s.sets, pairs);
    MSetMerge(MSet(map[], s.sets), pairs);
    var p := MSet(map[], s.sets) + MSet(map[], pairs);
    forall id | id in p ensures p[id] == EntryOf(Written(s.tx.value, cs), id) {
      if id in MSet(map[], pairs) {
        assert id in Ids(cs);
      }
    }
  }

  lemma CommitKeeps(s: State)
    requires Inv(s) && s.tx.Some?
    ensures Inv(Next(s, Commit))
  {
    MSetMerge(s.local, s.sets);
    CommitMatching(s);
  }

  lemma CommitMatching(s: State)
    requires s.tx.Some? && Coherent(s) && Pending(s)
    ensures Matching(s.local + MSet(map[], s.sets), s.tx.value)
    ensures Matching(if s.after.Some? then s.redis - Queued(s, s.after.value) else s.redis, s.tx.value)
  {
    var local := s.local + MSet(map[], s.sets);
    forall id | id in local ensures local[id] == EntryOf(s.tx.value, id) {
      if id !in MSet(map[], s.sets) {
        assert Find(s.db, id) == Find(s.tx.value, id);
      }
    }
    var redis := if s.after.Some? then s.redis - Queued(s, s.after.value) else s.redis;
    forall id | id in redis ensures redis[id] == EntryOf(s.tx.value, id) {
      assert Find(s.db, id) == Find(s.tx.value, id);
    }
  }

  lemma ForgetKeeps(s: State, a: Action)
    requires Inv(s) && (a.ForgetLocal? || a.ForgetRedis? || a.Clear?)
    ensures Inv(Next(s, a))
  {
    hide Inv;
    CachesOf(s);
    CachesKeep(s, Next(s, a));
  }

  lemma TransactionKeeps(s: State, a: Action)
    requires Inv(s) && Enabled(s, a) && (a.Begin? || a.Rollback? || a.Fail?)
    ensures Inv(Next(s, a))
  {
    hide Uses, Matching, Flushed, Loaded, ManyLocal, ManyRedis, Pending;
    if a.Begin? {
      NothingPending(s);
    } else if a.Rollback? {
    } else {
      FailKeeps(s, a);
    }
  }

  lemma FailKeeps(s: State, a: Action)
    requires Inv(s) && a.Fail?
    ensures Inv(Next(s, a))
  {
    hide Matching, Flushed, Loaded, ManyLocal, ManyRedis, Pending;
  }

  lemma NothingPending(s: State)
    requires Inv(s) && s.tx.None?
    ensures Pending(s.(tx := Some(s.db)))
  {
  }

  lemma StepKeeps(s: State, a: Action)
    requires Inv(s) && Enabled(s, a) && Joins(s, a) && Faithful(s, a)
    ensures Inv(Next(s, a))
  {
    match a
    case Load(id) => LoadKeeps(s, id);
    case LoadMany(ids) => LoadManyKeeps(s, ids);
    case Flush(_, _, _) =>
      if s.tx.None? {
        FlushExact(s, a);
      } else {
        FlushInsideKeeps(s, a);
      }
    case Commit => CommitKeeps(s);
    case Begin => TransactionKeeps(s, a);
    case Rollback => TransactionKeeps(s, a);
    case Fail(_, _, _) => TransactionKeeps(s, a);
    case _ => ForgetKeeps(s, a);
  }

  /**
   * In every run in which the flushers that join a transaction cover what it has changed, and the records that flushes
   * leave are the rows they make, both caches are coherent after every step, and every load returns the committed row.
   */
  lemma {:induction false} RunCoherent(ss: seq<State>, acts: seq<Action>, i: nat)
    requires Run(ss, acts) && i < |ss|
    requires forall j :: 0 <= j < |acts| ==> Joins(ss[j], acts[j]) && Faithful(ss[j], acts[j])
    ensures Inv(ss[i])
    ensures i < |acts| && acts[i].Load? ==> Loaded(ss[i], acts[i].id).1 == Find(ss[i].db, acts[i].id)
  {
    if i > 0 {
      RunCoherent(ss, acts, i - 1);
      StepKeeps(ss[i - 1], acts[i - 1]);
    }
    if i < |acts| && acts[i].Load? {
      LoadKeeps(ss[i], acts[i].id);
    }
  }

  /**
   * No step but a commit or a flush outside a transaction changes a committed row, and none between begin and
   * rollback leaves a trace.
   */
  lemma {:induction false} RollbackLeavesNothing(ss: seq<State>, acts: seq<Action>, begin: nat, end: nat)
    requires Run(ss, acts) && begin < end < |acts|
    requires forall j :: 0 <= j < |acts| ==> Joins(ss[j], acts[j]) && Faithful(ss[j], acts[j])
    requires acts[begin] == Begin && acts[end].Rollback?
    requires forall j :: begin < j < end ==> ss[j].tx.Some? && !acts[j].Commit?
    ensures ss[end + 1].db == ss[begin].db && Coherent(ss[end + 1])
    ensures ss[end + 1].tx.None? && ss[end + 1].sets == [] && ss[end + 1].after.None?
  {
    InTransaction(ss, acts, begin, end);
    RunCoherent(ss, acts, end + 1);
  }

  lemma {:induction false} InTransaction(ss: seq<State>, acts: seq<Action>, begin: nat, k: nat)
    requires Run(ss, acts) && begin < k < |ss| && acts[begin] == Begin
    requires forall j :: begin < j < k ==> ss[j].tx.Some? && !acts[j].Commit?
    ensures ss[k].db == ss[begin].db
  {
    hide Next, Enabled;
    assert ss[k - 1 + 1] == Next(ss[k - 1], acts[k - 1]);
    DbStays(ss[k - 1], acts[k - 1]);
    if k > begin + 1 {
      InTransaction(ss, acts, begin, k - 1);
    }
  }

  lemma DbStays(s: State, a: Action)
    requires a == Begin || (s.tx.Some? && !a.Commit?)
    ensures Next(s, a).db == s.db
  {
    hide Flushed, Loaded, ManyLocal, ManyRedis, Queued;
    match a
    case Flush(f, q, cs) => FlushDbStays(s, f, q, cs);
    case Load(id) => LoadDbStays(s, id);
    case _ =>
  }

  lemma FlushDbStays(s: State, f: nat, q: nat, cs: seq<Change>)
    requires s.tx.Some?
    ensures Flushed(s, f, q, cs).db == s.db
  {
    hide Written, Served, Ids, Queued;
  }

  lemma LoadDbStays(s: State, id: nat)
    ensures Loaded(s, id).0.db == s.db
  {
  }

  // ---------------------------------------------------------------- where the conditions bite

  /**
   * Updating an entity that may be older than its row leaves the local cache right exactly when every column not
   * written is still what the entity was loaded with.
   */
  lemma StaleUpdate(view: map<nat, Row>, c: Change)
    requires c.Update? && Kept(c) && c.id in view && view[c.id].Keys == c.was.Keys
    ensures SetOf(c).1 == EntryOf(Apply(view, c), c.id) <==> forall x :: x in c.was && x !in c.bind ==> view[c.id][x] == c.was[x]
  {
    var saved := view[c.id] + c.bind;
    if forall x :: x in c.was && x !in c.bind ==> view[c.id][x] == c.was[x] {
      assert saved == c.now;
    } else {
      var x :| x in c.was && x !in c.bind && view[c.id][x] != c.was[x];
      assert saved[x] == view[c.id][x] && c.now[x] == c.was[x];
    }
  }

  /**
   * A commit right after a flush in a transaction leaves Redis right exactly when the rows that the transaction had
   * changed before and Redis holds are among that flusher's deletes.
   */
  lemma JoinExact(s: State, f: nat, q: nat, cs: seq<Change>)
    requires s.tx.Some? && s.hasRedis && Matching(s.redis, s.db) && Flushable(s.tx.value, cs)
    ensures
      var t := Next(Next(s, Flush(f, q, cs)), Commit);
      Matching(t.redis, t.db) <==> Joins(s, Flush(f, q, cs))
  {
    hide Written, Flushable, Ids;
    FlushSets(s.tx.value, cs);
    var t := Next(Next(s, Flush(f, q, cs)), Commit);
    assert t.redis == s.redis - (Queued(s, q) + Ids(cs)) && t.db == Written(s.tx.value, cs);
    forall id | id in t.redis
      ensures t.redis[id] == EntryOf(t.db, id) <==> Find(s.db, id) == Find(s.tx.value, id)
    {
      assert Find(t.db, id) == Find(s.tx.value, id) && s.redis[id] == EntryOf(s.db, id);
    }
  }

  /** A flusher that has no queue yet takes the transaction's, and so always covers what the transaction has changed. */
  lemma FreshJoins(s: State, f: nat, q: nat, cs: seq<Change>)
    requires Inv(s) && f !in s.flushers && Enabled(s, Flush(f, q, cs))
    ensures Joins(s, Flush(f, q, cs))
  {
  }

  /** An entry may be forgotten at any time, and it alone. */
  lemma Forgets(s: State, id: nat)
    ensures Enabled(s, ForgetLocal(id)) && Enabled(s, ForgetRedis(id))
    ensures
      var t, u := Next(s, ForgetLocal(id)), Next(s, ForgetRedis(id));
      && t == s.(local := t.local) && u == s.(redis := u.redis)
      && (forall x :: x in t.local <==> x in s.local && x != id) && (forall x :: x in t.local ==> t.local[x] == s.local[x])
      && (forall x :: x in u.redis <==> x in s.redis && x != id) && (forall x :: x in u.redis ==> u.redis[x] == s.redis[x])
  {
  }

  /** A flush that panics leaves the keys it has queued in its flusher's queue; the rows and caches are as they were. */
  lemma Failed(s: State, f: nat, q: nat, keys: set<nat>)
    ensures
      var t := Next(s, Fail(f, q, keys));
      && t.db == s.db && t.local == s.local && t.redis == s.redis && t.tx.None? && t.sets == [] && t.after.None?
      && (forall x :: Queued(t, x) == Queued(s, x) + if x == q then keys else {})
      && (forall g :: g != f || keys == {} ==> (g in t.flushers <==> g in s.flushers) && (g in s.flushers ==> t.flushers[g] == s.flushers[g]))
      && (keys != {} ==> f in t.flushers && t.flushers[f] == q)
  {
  }

  /** The statements run and the records are served part by part. */
  lemma PartsInOrder(cs: seq<Change>, i: nat, j: nat)
    requires i < j < |SqlOrder(cs)|
    ensures SqlOrder(cs)[j].Insert? ==> SqlOrder(cs)[i].Insert?
    ensures SqlOrder(cs)[i].Delete? ==> SqlOrder(cs)[j].Delete?
    ensures CacheOrder(cs)[j].Update? ==> CacheOrder(cs)[i].Update?
    ensures CacheOrder(cs)[i].Delete? ==> CacheOrder(cs)[j].Delete?
  {
    hide Only;
    OnlyParts(cs, Inserts);
    OnlyParts(cs, Updates);
    OnlyParts(cs, Deletes);
  }

  lemma {:induction false} OnlyParts(cs: seq<Change>, p: Part)
    ensures forall k :: 0 <= k < |Only(cs, p)| ==>
      match Only(cs, p)[k]
      case Insert(_, _, _) => p == Inserts
      case Update(_, _, _, _) => p == Updates
      case Delete(_) => p == Deletes
  {
    if cs != [] {
      OnlyParts(cs[..|cs| - 1], p);
    }
  }

  /** A change that is not kept, flushed on its own, leaves the local cache with something else than the row. */
  lemma UnkeptRun(c: Change) returns (ss: seq<State>, acts: seq<Action>)
    requires !Kept(c)
    ensures Run(ss, acts) && |acts| == 1 && acts[0].Flush? && acts[0].changes == [c] && Joins(ss[0], acts[0])
    ensures ss[0].db == if c.Update? then map[c.id := c.was] else map[]
    ensures !Coherent(ss[1])
  {
    var s := State(true, true, if c.Update? then map[c.id := c.was] else map[], None, map[], map[], [], map[], map[], None);
    acts := [Flush(0, 0, [c])];
    ss := [s, Next(s, acts[0])];
    assert [c][0] in [c];
    FlushExact(s, acts[0]);
  }

  /** A flush of one update, in a transaction or outside. */
  lemma OneUpdate(view: map<nat, Row>, c: Change)
    requires c.Update? && c.id in view
    ensures Written(view, [c]) == view[c.id := view[c.id] + c.bind] && Ids([c]) == {c.id}
  {
    OneId(c);
    assert [c][..0] == [] && Only([], Inserts) == [] && Only([], Updates) == [] && Only([], Deletes) == [];
    assert Only([c], Inserts) == [] && Only([c], Updates) == [c] && Only([c], Deletes) == [];
    assert SqlOrder([c]) == [c];
    assert ApplyAll(view, []) == view;
  }

  lemma UpdateInside(s: State, f: nat, q: nat, id: nat, was: Row, now: Row)
    requires s.tx.Some? && s.hasRedis && !s.hasLocal && id in s.tx.value && q in s.queues
    ensures
      var t := Next(s, Flush(f, q, [Update(id, was, now, now)]));
      t == s.(flushers := s.flushers[f := q], queues := s.queues[q := s.queues[q] + {id}], after := Some(q),
              tx := Some(s.tx.value[id := s.tx.value[id] + now]))
  {
    hide Written, Ids;
    OneUpdate(s.tx.value, Update(id, was, now, now));
    assert s.sets + [] == s.sets;
  }

  /** The first update of a flusher gives it a queue, which is served at once. */
  lemma FirstUpdate(s: State, f: nat, q: nat, id: nat, was: Row, now: Row)
    requires s.tx.None? && s.after.None? && s.hasRedis && !s.hasLocal && f !in s.flushers && q !in s.queues
    requires id in s.db && s.db[id] == was && was.Keys == now.Keys && s.redis == map[]
    ensures
      var a := Flush(f, q, [Update(id, was, now, now)]);
      && Enabled(s, a)
      && Next(s, a) == s.(db := s.db[id := now], flushers := s.flushers[f := q], queues := s.queues[q := {}])
  {
    hide Written, Ids, Flushable, Loaded, ManyLocal, ManyRedis;
    var c := Update(id, was, now, now);
    OneUpdate(s.db, c);
    OneFlushable(s.db, c);
    assert was + now == now;
    assert s.redis - {id} == s.redis && MSet(s.local, []) == s.local;
    assert s.queues[q := {id}][q := {}] == s.queues[q := {}];
  }

  lemma OneFlushable(view: map<nat, Row>, c: Change)
    requires Fresh(view, c)
    ensures Flushable(view, [c])
  {
  }

  /** Two used flushers in one transaction: the first one's delete is not among those the commit sends. */
  lemma LostDelete(s: State, was: Row, now: Row)
    requires Used(s, was, now) && s.tx == Some(s.db)
    ensures
      var a, b := Flush(10, 0, [Update(1, was, now, now)]), Flush(20, 1, [Update(2, was, now, now)]);
      var t := Next(s, a);
      var u := Next(t, b);
      && Enabled(s, a) && Enabled(t, b) && Enabled(u, Commit)
      && !Matching(Next(u, Commit).redis, Next(u, Commit).db)
  {
    hide Next, Matching, Flushable, Joins;
    var t := FirstInside(s, was, now);
    SecondInside(t, was, now);
    RedisMatches(t, 1, was);
    JoinExact(t, 20, 1, [Update(2, was, now, now)]);
  }

  /** Flushers 10 and 20 have flushed before, row 1 is cached, rows 1 and 2 are to be updated. */
  ghost predicate Used(s: State, was: Row, now: Row) {
    && was.Keys == now.Keys && was != now
    && s.hasRedis && !s.hasLocal && s.after.None?
    && 1 in s.db && 2 in s.db && s.db[1] == was && s.db[2] == was && s.redis == map[1 := Present(was)]
    && s.queues == map[0 := {}, 1 := {}] && s.flushers == map[10 := 0, 20 := 1]
  }

  lemma FirstInside(s: State, was: Row, now: Row) returns (t: State)
    requires Used(s, was, now) && s.tx == Some(s.db)
    ensures
      var a := Flush(10, 0, [Update(1, was, now, now)]);
      && Enabled(s, a) && t == Next(s, a)
      && t == s.(tx := Some(s.db[1 := now]), queues := map[0 := {1}, 1 := {}], after := Some(0))
  {
    hide Next, Flushable;
    t := Next(s, Flush(10, 0, [Update(1, was, now, now)]));
    UpdateInside(s, 10, 0, 1, was, now);
    OneFlushable(s.tx.value, Update(1, was, now, now));
    assert was + now == now;
    assert s.queues[0] + {1} == {1};
    assert t.queues == map[0 := {1}, 1 := {}];
    assert t.flushers == s.flushers;
  }

  lemma SecondInside(t: State, was: Row, now: Row)
    requires was != now && t.hasRedis && 1 in t.redis && 1 in t.db && t.db[1] == was
    requires t.tx.Some? && 1 in t.tx.value && 2 in t.tx.value && t.tx.value[1] == now && t.tx.value[2] == was
    requires t.queues == map[0 := {1}, 1 := {}] && t.flushers == map[10 := 0, 20 := 1]
    ensures
      var b := Flush(20, 1, [Update(2, was, now, now)]);
      Enabled(t, b) && Enabled(Next(t, b), Commit) && Flushable(t.tx.value, b.changes) && !Joins(t, b)
  {
    hide Flushable, Joins, Written;
    OneFlushable(t.tx.value, Update(2, was, now, now));
    NotJoined(t, 20, 1, Update(2, was, now, now), 1);
  }

  lemma NotJoined(s: State, f: nat, q: nat, c: Change, id: nat)
    requires s.tx.Some? && s.hasRedis && id in s.redis && Find(s.db, id) != Find(s.tx.value, id) && id !in Queued(s, q) && id != c.id
    ensures !Joins(s, Flush(f, q, [c]))
  {
    OneId(c);
  }

  lemma RedisMatches(s: State, id: nat, row: Row)
    requires s.redis == map[id := Present(row)] && id in s.db && s.db[id] == row
    ensures Matching(s.redis, s.db)
  {
  }

  /** Both flushers update a row each, row 1 is loaded, and a transaction begins. */
  lemma FirstSteps(s: State, was: Row, now: Row) returns (ss: seq<State>, acts: seq<Action>)
    requires was.Keys == now.Keys && was != now
    requires s == State(false, true, map[1 := was, 2 := was, 3 := was, 4 := was], None, map[], map[], [], map[], map[], None)
    ensures |acts| == 4 && acts == [Flush(10, 0, [Update(3, was, now, now)]), Flush(20, 1, [Update(4, was, now, now)]), Load(1), Begin]
    ensures |ss| == 5 && ss[0] == s && forall i :: 0 <= i < 4 ==> Enabled(ss[i], acts[i]) && ss[i + 1] == Next(ss[i], acts[i])
    ensures Used(ss[4], was, now) && ss[4].tx == Some(ss[4].db)
  {
    hide Next, Enabled;
    acts := [Flush(10, 0, [Update(3, was, now, now)]), Flush(20, 1, [Update(4, was, now, now)]), Load(1), Begin];
    FirstUpdate(s, 10, 0, 3, was, now);
    var s1 := Next(s, acts[0]);
    assert s1.flushers == map[10 := 0] && s1.queues == map[0 := {}];
    FirstUpdate(s1, 20, 1, 4, was, now);
    var s2 := Next(s1, acts[1]);
    assert s2.flushers == map[10 := 0, 20 := 1] && s2.queues == map[0 := {}, 1 := {}];
    FirstLoad(s2, 1);
    var s3 := Next(s2, acts[2]);
    Opened(s3);
    ss := [s, s1, s2, s3, Next(s3, acts[3])];
  }

  /** Two flushers, each used before, update a row each in one transaction: Redis keeps the first row's old content. */
  lemma SharedQueueNeeded() returns (ss: seq<State>, acts: seq<Action>)
    ensures Run(ss, acts) && !Coherent(ss[|ss| - 1])
    ensures forall i :: 0 <= i < |acts| && acts[i].Flush? ==> acts[i].changes != []
  {
    hide Next, Enabled, Matching, Flushable, Inv, Used;
    var was, now: Row := map["A" := RecordCodec.IntV(1)], map["A" := RecordCodec.IntV(2)];
    assert was["A"] != now["A"];
    var s0 := State(false, true, map[1 := was, 2 := was, 3 := was, 4 := was], None, map[], map[], [], map[], map[], None);
    ss, acts := FirstSteps(s0, was, now);
    LostDelete(ss[4], was, now);
    var a, b := Flush(10, 0, [Update(1, was, now, now)]), Flush(20, 1, [Update(2, was, now, now)]);
    var s5 := Next(ss[4], a);
    var s6 := Next(s5, b);
    acts := acts + [a, b, Commit];
    ss := ss + [s5, s6, Next(s6, Commit)];
  }

  lemma OneId(c: Change)
    ensures Ids([c]) == {c.id}
  {
    assert [c][0] in [c];
  }

  lemma FirstLoad(s: State, id: nat)
    requires s.hasRedis && !s.hasLocal && id !in s.redis && s.tx.None?
    ensures Enabled(s, Load(id)) && Next(s, Load(id)) == s.(redis := s.redis[id := EntryOf(s.db, id)])
  {
  }

  lemma Opened(s: State)
    requires s.tx.None?
    ensures Enabled(s, Begin) && Next(s, Begin) == s.(tx := Some(s.db))
  {
  }
}
