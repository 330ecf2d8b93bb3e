/** The consumer of the lazy flush: it groups a batch of events, runs the groups and acknowledges their events. */
module LazyDigest {
  import opened Wrappers
  import opened LazyFlush

  predicate Below(events: seq<nat>, n: nat) {
    forall j :: 0 <= j < |events| ==> events[j] < n
  }

  /** The statements of these events. */
  function Pick(batch: seq<Statement>, events: seq<nat>): seq<Statement>
    requires Below(events, |batch|)
  {
    seq(|events|, j requires 0 <= j < |events| => batch[events[j]])
  }

  function Of(m: map<string, seq<nat>>, pool: string): seq<nat> {
    if pool in m then m[pool] else []
  }

  function At<T>(m: map<string, map<nat, seq<T>>>, g: Group): seq<T> {
    if g.pool in m && g.modulo in m[g.pool] then m[g.pool][g.modulo] else []
  }

  /** m with x added to the list of a group. */
  function Add<T>(m: map<string, map<nat, seq<T>>>, g: Group, x: T): map<string, map<nat, seq<T>>> {
    var inner := if g.pool in m then m[g.pool] else map[];
    m[g.pool := inner[g.modulo := At(m, g) + [x]]]
  }

  lemma AddAt<T>(m: map<string, map<nat, seq<T>>>, g: Group, x: T, h: Group)
    ensures At(Add(m, g, x), h) == if h == g then At(m, g) + [x] else At(m, h)
  {
  }

  /** Of the first n events the inserts are listed under their pool, in order. */
  ghost predicate InsertsSorted(batch: seq<Statement>, n: nat, insertEvents: map<string, seq<nat>>)
    requires n <= |batch|
  {
    && (forall pool :: Below(Of(insertEvents, pool), n))
    && (forall pool :: Pick(batch, Of(insertEvents, pool)) == InPool(Inserts(batch[..n]), pool))
    && (forall e: nat :: e < n && batch[e].Insert? ==> e in Of(insertEvents, batch[e].pool))
  }

  /** The others are listed under their group, in order. */
  ghost predicate OthersSorted(batch: seq<Statement>, n: nat, workers: nat,
                               groupQueries: map<string, map<nat, seq<Statement>>>, groupEvents: map<string, map<nat, seq<nat>>>)
    requires workers > 0 && n <= |batch|
  {
    && (forall g :: At(groupQueries, g) == InGroup(Others(batch[..n]), workers, g))
    && (forall e: nat :: e < n && !batch[e].Insert? ==> e in At(groupEvents, GroupOf(batch[e], workers)))
  }

  lemma Snoc(batch: seq<Statement>, n: nat)
    requires n < |batch|
    ensures Inserts(batch[..n + 1]) == Inserts(batch[..n]) + if batch[n].Insert? then [batch[n]] else []
    ensures Others(batch[..n + 1]) == Others(batch[..n]) + if batch[n].Insert? then [] else [batch[n]]
  {
    assert batch[..n + 1][..n] == batch[..n];
  }

  lemma PoolSnoc(ss: seq<Statement>, s: Statement, pool: string)
    ensures InPool(ss + [s], pool) == InPool(ss, pool) + if s.pool == pool then [s] else []
  {
    assert (ss + [s])[..|ss|] == ss;
  }

  lemma GroupSnoc(ss: seq<Statement>, s: Statement, workers: nat, g: Group)
    requires workers > 0 && !s.Insert? && forall t :: t in ss ==> !t.Insert?
    ensures InGroup(ss + [s], workers, g) == InGroup(ss, workers, g) + if GroupOf(s, workers) == g then [s] else []
  {
    assert (ss + [s])[..|ss|] == ss;
  }

  lemma PickSnoc(batch: seq<Statement>, events: seq<nat>, e: nat)
    requires Below(events, |batch|) && e < |batch|
    ensures Below(events + [e], |batch|) && Pick(batch, events + [e]) == Pick(batch, events) + [batch[e]]
  {
  }

  lemma InsertStep(batch: seq<Statement>, n: nat, insertEvents: map<string, seq<nat>>)
    requires n < |batch| && batch[n].Insert? && InsertsSorted(batch, n, insertEvents)
    ensures
      var pool := batch[n].pool;
      InsertsSorted(batch, n + 1, insertEvents[pool := Of(insertEvents, pool) + [n]])
  {
    hide Pick, InPool;
    var mine := batch[n].pool;
    var now := insertEvents[mine := Of(insertEvents, mine) + [n]];
    Snoc(batch, n);
    forall pool ensures Below(Of(now, pool), n + 1) && Pick(batch, Of(now, pool)) == InPool(Inserts(batch[..n + 1]), pool) {
      PoolSnoc(Inserts(batch[..n]), batch[n], pool);
      assert Below(Of(insertEvents, pool), |batch|);
      if pool == mine {
        PickSnoc(batch, Of(insertEvents, pool), n);
      } else {
        assert Of(now, pool) == Of(insertEvents, pool);
        assert InPool(Inserts(batch[..n]), pool) + [] == InPool(Inserts(batch[..n]), pool);
      }
    }
  }

  lemma InsertSkip(batch: seq<Statement>, n: nat, insertEvents: map<string, seq<nat>>)
    requires n < |batch| && !batch[n].Insert? && InsertsSorted(batch, n, insertEvents)
    ensures InsertsSorted(batch, n + 1, insertEvents)
  {
    hide Pick, InPool;
    Snoc(batch, n);
    assert Inserts(batch[..n]) + [] == Inserts(batch[..n]);
    forall pool ensures Below(Of(insertEvents, pool), n + 1) {
      assert Below(Of(insertEvents, pool), n);
    }
  }

  lemma OtherStep(batch: seq<Statement>, n: nat, workers: nat,
                  groupQueries: map<string, map<nat, seq<Statement>>>, groupEvents: map<string, map<nat, seq<nat>>>)
    requires workers > 0 && n < |batch| && !batch[n].Insert? && OthersSorted(batch, n, workers, groupQueries, groupEvents)
    ensures
      var g := GroupOf(batch[n], workers);
      OthersSorted(batch, n + 1, workers, Add(groupQueries, g, batch[n]), Add(groupEvents, g, n))
  {
    hide Add, At, InGroup;
    var g := GroupOf(batch[n], workers);
    var oth := Others(batch[..n]);
    Snoc(batch, n);
    forall h ensures At(Add(groupQueries, g, batch[n]), h) == InGroup(Others(batch[..n + 1]), workers, h) {
      AddAt(groupQueries, g, batch[n], h);
      GroupSnoc(oth, batch[n], workers, h);
      if h != g {
        assert InGroup(oth, workers, h) + [] == InGroup(oth, workers, h);
      }
    }
    forall e: nat | e < n + 1 && !batch[e].Insert? ensures e in At(Add(groupEvents, g, n), GroupOf(batch[e], workers)) {
      AddAt(groupEvents, g, n, GroupOf(batch[e], workers));
    }
  }

  lemma OtherSkip(batch: seq<Statement>, n: nat, workers: nat,
                  groupQueries: map<string, map<nat, seq<Statement>>>, groupEvents: map<string, map<nat, seq<nat>>>)
    requires workers > 0 && n < |batch| && batch[n].Insert? && OthersSorted(batch, n, workers, groupQueries, groupEvents)
    ensures OthersSorted(batch, n + 1, workers, groupQueries, groupEvents)
  {
    hide At, InGroup;
    Snoc(batch, n);
    assert Others(batch[..n]) + [] == Others(batch[..n]);
  }

  method GroupBatch(batch: seq<Statement>, workers: nat)
    returns (insertEvents: map<string, seq<nat>>, groupQueries: map<string, map<nat, seq<Statement>>>,
             groupEvents: map<string, map<nat, seq<nat>>>)
    requires workers > 0
    ensures InsertsSorted(batch, |batch|, insertEvents) && OthersSorted(batch, |batch|, workers, groupQueries, groupEvents)
  {
    hide InsertsSorted, OthersSorted;
    insertEvents, groupQueries, groupEvents := map[], map[], map[];
    NothingSorted(batch, workers);
    for i := 0 to |batch|
      invariant InsertsSorted(batch, i, insertEvents) && OthersSorted(batch, i, workers, groupQueries, groupEvents)
    {
      var s := batch[i];
      if s.Insert? {
        InsertStep(batch, i, insertEvents);
        OtherSkip(batch, i, workers, groupQueries, groupEvents);
        insertEvents := insertEvents[s.pool := Of(insertEvents, s.pool) + [i]];
      } else {
        InsertSkip(batch, i, insertEvents);
        OtherStep(batch, i, workers, groupQueries, groupEvents);
        var g := GroupOf(s, workers);
        groupQueries := Add(groupQueries, g, s);
        groupEvents := Add(groupEvents, g, i);
      }
    }
  }

  lemma NothingSorted(batch: seq<Statement>, workers: nat)
    requires workers > 0
    ensures InsertsSorted(batch, 0, map[]) && OthersSorted(batch, 0, workers, map[], map[])
  {
    assert batch[..0] == [];
  }

  // ---------------------------------------------------------------- running a batch

  class Consumer {
    var db: Database
    var acked: set<nat>

    constructor (db: Database)
      ensures this.db == db && acked == {}
    {
      this.db, acked := db, {};
    }

    /** Runs statements in order. */
    method Execute(ss: seq<Statement>)
      modifies this`db
      ensures db == Run(old(db), ss)
    {
      for i := 0 to |ss|
        invariant db == Run(old(db), ss[..i])
      {
        assert ss[..i + 1][..i] == ss[..i];
        db := Exec(db, ss[i]);
      }
      assert ss[..|ss|] == ss;
    }

    /** Each insert runs and is acknowledged before the next. */
    method RunInserts(batch: seq<Statement>, events: seq<nat>)
      requires Below(events, |batch|)
      modifies this
      ensures db == Run(old(db), Pick(batch, events)) && acked == old(acked) + set e <- events
    {
      for j := 0 to |events|
        invariant db == Run(old(db), Pick(batch, events)[..j]) && acked == old(acked) + set e <- events[..j]
      {
        assert Pick(batch, events)[..j + 1][..j] == Pick(batch, events)[..j];
        assert events[..j + 1] == events[..j] + [events[j]];
        db := Exec(db, batch[events[j]]);
        acked := acked + {events[j]};
      }
      assert events[..|events|] == events && Pick(batch, events)[..|events|] == Pick(batch, events);
    }

    /** A group's statements run together; then its events are acknowledged. */
    method RunGroup(sql: seq<Statement>, events: seq<nat>)
      modifies this
      ensures db == Run(old(db), sql) && acked == old(acked) + set e <- events
    {
      Execute(sql);
      for j := 0 to |events|
        invariant db == Run(old(db), sql) && acked == old(acked) + set e <- events[..j]
      {
        assert events[..j + 1] == events[..j] + [events[j]];
        acked := acked + {events[j]};
      }
      assert events[..|events|] == events;
    }

    /** The inserts, pool by pool in any order. */
    method RunPools(batch: seq<Statement>, insertEvents: map<string, seq<nat>>) returns (ghost trace: seq<Statement>)
      requires InsertsSorted(batch, |batch|, insertEvents)
      modifies this
      ensures db == Run(old(db), trace) && PoolsInterleaved(Inserts(batch), trace)
      ensures forall e: nat :: e < |batch| && batch[e].Insert? ==> e in acked
      ensures old(acked) <= acked
    {
      hide Run, InPool, Pick;
      trace := [];
      EmptyRun(db);
      SortedInserts(batch, insertEvents);
      var pools := insertEvents.Keys;
      NoPool();
      while pools != {}
        invariant pools <= insertEvents.Keys
        invariant db == Run(old(db), trace) && old(acked) <= acked
        invariant forall pool :: InPool(trace, pool) == if pool in insertEvents && pool !in pools then InPool(Inserts(batch), pool) else []
        invariant forall e: nat :: e < |batch| && batch[e].Insert? && batch[e].pool !in pools ==> e in acked
        decreases |pools|
      {
        var pool :| pool in pools;
        var events := insertEvents[pool];
        ghost var ss := InPool(Inserts(batch), pool);
        RunConcat(old(db), trace, ss);
        forall q ensures InPool(trace + ss, q) == if q == pool then InPool(trace, q) + ss else InPool(trace, q) {
          PoolConcat(trace, ss, q);
          PoolOfPool(Inserts(batch), pool, q);
          assert InPool(trace, q) + [] == InPool(trace, q);
        }
        assert [] + ss == ss;
        RunInserts(batch, events);
        trace := trace + ss;
        pools := pools - {pool};
      }
    }

    /** The groups, in any order. */
    method RunGroups(batch: seq<Statement>, workers: nat,
                     groupQueries: map<string, map<nat, seq<Statement>>>, groupEvents: map<string, map<nat, seq<nat>>>)
      returns (ghost trace: seq<Statement>)
      requires workers > 0 && OthersSorted(batch, |batch|, workers, groupQueries, groupEvents)
      modifies this
      ensures db == Run(old(db), trace) && GroupsInterleaved(Others(batch), trace, workers)
      ensures forall e: nat :: e < |batch| && !batch[e].Insert? ==> e in acked
      ensures old(acked) <= acked
    {
      hide Run, InGroup, At;
      trace := [];
      EmptyRun(db);
      SortedGroups(batch, workers, groupQueries, groupEvents);
      var all := AllGroups(groupQueries);
      var groups := all;
      NoGroup(workers);
      while groups != {}
        invariant groups <= all
        invariant db == Run(old(db), trace) && old(acked) <= acked
        invariant forall s :: s in trace ==> !s.Insert?
        invariant forall g :: InGroup(trace, workers, g) == if g in all && g !in groups then InGroup(Others(batch), workers, g) else []
        invariant forall e: nat :: e < |batch| && !batch[e].Insert? && GroupOf(batch[e], workers) !in groups ==> e in acked
        decreases |groups|
      {
        var g :| g in groups;
        ghost var ss := InGroup(Others(batch), workers, g);
        GroupMembers(Others(batch), workers, g);
        RunConcat(old(db), trace, ss);
        forall h ensures InGroup(trace + ss, workers, h) == if h == g then InGroup(trace, workers, h) + ss else InGroup(trace, workers, h) {
          GroupConcat(trace, ss, workers, h);
          GroupOfGroup(Others(batch), workers, g, h);
          assert InGroup(trace, workers, h) + [] == InGroup(trace, workers, h);
        }
        assert [] + ss == ss;
        RunGroup(At(groupQueries, g), At(groupEvents, g));
        trace := trace + ss;
        groups := groups - {g};
      }
    }

    /** One batch: afterwards the database is as if its statements had been run one by one, and every event is acknowledged. */
    method Digest(batch: seq<Statement>, workers: nat)
      requires workers > 0 && InsertsLead(db, batch)
      modifies this
      ensures db == Run(old(db), batch)
      ensures forall e: nat :: e < |batch| ==> e in acked
    {
      hide Run, InsertsSorted, OthersSorted, InsertsLead, PoolsInterleaved, GroupsInterleaved;
      ghost var was := db;
      var insertEvents, groupQueries, groupEvents := GroupBatch(batch, workers);
      ghost var inserted := RunPools(batch, insertEvents);
      ghost var rest := RunGroups(batch, workers, groupQueries, groupEvents);
      BatchIsSequential(was, batch, workers, inserted, rest);
    }
  }

  lemma EmptyRun(db: Database)
    ensures Run(db, []) == db
  {
  }

  lemma NoPool()
    ensures forall pool :: InPool([], pool) == []
  {
  }

  lemma NoGroup(workers: nat)
    requires workers > 0
    ensures forall g :: InGroup([], workers, g) == []
  {
  }

  lemma SortedInserts(batch: seq<Statement>, insertEvents: map<string, seq<nat>>)
    requires InsertsSorted(batch, |batch|, insertEvents)
    ensures forall pool :: pool in insertEvents ==> Below(insertEvents[pool], |batch|)
    ensures forall pool :: pool in insertEvents ==> Pick(batch, insertEvents[pool]) == InPool(Inserts(batch), pool)
    ensures forall pool :: pool !in insertEvents ==> InPool(Inserts(batch), pool) == []
    ensures forall e: nat :: e < |batch| && batch[e].Insert? ==> batch[e].pool in insertEvents && e in insertEvents[batch[e].pool]
  {
    hide InPool, Below;
    assert batch[..|batch|] == batch;
    forall pool | pool in insertEvents
      ensures Below(insertEvents[pool], |batch|) && Pick(batch, insertEvents[pool]) == InPool(Inserts(batch), pool)
    {
      assert Of(insertEvents, pool) == insertEvents[pool];
    }
    forall pool | pool !in insertEvents ensures InPool(Inserts(batch), pool) == [] {
      assert Pick(batch, Of(insertEvents, pool)) == [];
    }
  }

  function AllGroups(m: map<string, map<nat, seq<Statement>>>): (r: set<Group>)
    ensures forall g :: g in r <==> g.pool in m && g.modulo in m[g.pool]
  {
    set pool, modulo | pool in m && modulo in m[pool] :: Group(pool, modulo)
  }

  lemma SortedGroups(batch: seq<Statement>, workers: nat,
                     groupQueries: map<string, map<nat, seq<Statement>>>, groupEvents: map<string, map<nat, seq<nat>>>)
    requires workers > 0 && OthersSorted(batch, |batch|, workers, groupQueries, groupEvents)
    ensures forall g :: At(groupQueries, g) == InGroup(Others(batch), workers, g)
    ensures forall g :: g !in AllGroups(groupQueries) ==> InGroup(Others(batch), workers, g) == []
    ensures forall e: nat :: e < |batch| && !batch[e].Insert? ==>
      GroupOf(batch[e], workers) in AllGroups(groupQueries) && e in At(groupEvents, GroupOf(batch[e], workers))
  {
    hide InGroup, At;
    assert batch[..|batch|] == batch;
    forall g | g !in AllGroups(groupQueries) ensures InGroup(Others(batch), workers, g) == [] {
      NotListed(groupQueries, g);
    }
    forall e: nat | e < |batch| && !batch[e].Insert?
      ensures GroupOf(batch[e], workers) in AllGroups(groupQueries) && e in At(groupEvents, GroupOf(batch[e], workers))
    {
      var g := GroupOf(batch[e], workers);
      OtherListed(batch, e);
      GroupListed(Others(batch), workers, batch[e]);
      assert batch[e] in At(groupQueries, g);
      NotListed(groupQueries, g);
    }
  }

  lemma NotListed(m: map<string, map<nat, seq<Statement>>>, g: Group)
    ensures g !in AllGroups(m) ==> At(m, g) == []
  {
  }

  lemma {:induction false} OtherListed(batch: seq<Statement>, e: nat)
    requires e < |batch| && !batch[e].Insert?
    ensures batch[e] in Others(batch)
  {
    if e < |batch| - 1 {
      OtherListed(batch[..|batch| - 1], e);
    }
  }

  lemma {:induction false} GroupListed(ss: seq<Statement>, workers: nat, s: Statement)
    requires workers > 0 && s in ss && forall t :: t in ss ==> !t.Insert?
    ensures s in InGroup(ss, workers, GroupOf(s, workers))
  {
    var n := |ss| - 1;
    assert ss == ss[..n] + [ss[n]];
    if s in ss[..n] {
      GroupListed(ss[..n], workers, s);
    }
  }

  lemma {:induction false} GroupMembers(ss: seq<Statement>, workers: nat, g: Group)
    requires workers > 0 && forall t :: t in ss ==> !t.Insert?
    ensures forall s :: s in InGroup(ss, workers, g) ==> !s.Insert? && GroupOf(s, workers) == g
  {
    if ss != [] {
      GroupMembers(ss[..|ss| - 1], workers, g);
    }
  }

  lemma {:induction false} RunConcat(db: Database, p: seq<Statement>, q: seq<Statement>)
    ensures Run(db, p + q) == Run(Run(db, p), q)
  {
    if q == [] {
      assert p + q == p;
    } else {
      RunConcat(db, p, q[..|q| - 1]);
      assert (p + q)[..|p + q| - 1] == p + q[..|q| - 1];
    }
  }

  lemma {:induction false} PoolConcat(p: seq<Statement>, q: seq<Statement>, pool: string)
    ensures InPool(p + q, pool) == InPool(p, pool) + InPool(q, pool)
  {
    if q == [] {
      assert p + q == p;
    } else {
      PoolConcat(p, q[..|q| - 1], pool);
      assert (p + q)[..|p + q| - 1] == p + q[..|q| - 1];
    }
  }

  lemma {:induction false} PoolOfPool(ss: seq<Statement>, pool: string, q: string)
    ensures InPool(InPool(ss, pool), q) == if q == pool then InPool(ss, pool) else []
  {
    if ss != [] {
      var n := |ss| - 1;
      PoolOfPool(ss[..n], pool, q);
      var r := InPool(ss[..n], pool);
      if ss[n].pool == pool {
        assert (r + [ss[n]])[..|r|] == r;
      } else {
        assert r + [] == r;
      }
    }
  }

  lemma {:induction false} GroupConcat(p: seq<Statement>, q: seq<Statement>, workers: nat, g: Group)
    requires workers > 0 && (forall s :: s in p ==> !s.Insert?) && (forall s :: s in q ==> !s.Insert?)
    ensures InGroup(p + q, workers, g) == InGroup(p, workers, g) + InGroup(q, workers, g)
  {
    if q == [] {
      assert p + q == p;
    } else {
      GroupConcat(p, q[..|q| - 1], workers, g);
      assert (p + q)[..|p + q| - 1] == p + q[..|q| - 1];
    }
  }

  lemma {:induction false} GroupOfGroup(ss: seq<Statement>, workers: nat, g: Group, h: Group)
    requires workers > 0 && forall s :: s in ss ==> !s.Insert?
    ensures forall s :: s in InGroup(ss, workers, g) ==> !s.Insert?
    ensures InGroup(InGroup(ss, workers, g), workers, h) == if h == g then InGroup(ss, workers, g) else []
  {
    GroupMembers(ss, workers, g);
    if ss != [] {
      var n := |ss| - 1;
      GroupOfGroup(ss[..n], workers, g, h);
      var r := InGroup(ss[..n], workers, g);
      if GroupOf(ss[n], workers) == g {
        assert (r + [ss[n]])[..|r|] == r;
      } else {
        assert r + [] == r;
      }
    }
  }
}
