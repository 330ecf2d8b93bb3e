/** The engine's own methods over the caches: single and batch loads, clearing, and the transaction boundaries. */
module CacheEngine {
  import opened Wrappers
  import opened CacheCoherence

  /** What a load of id returns. */
  function Answer(s: State, id: nat): Option<Row> {
    Loaded(s, id).1
  }

  // ---------------------------------------------------------------- grouping the ids of a batch

  /** first maps each id to where it occurs first; duplicates lists, for ids that occur again, all their places. */
  ghost predicate Grouped(ids: seq<nat>, n: nat, first: map<nat, int>, duplicates: map<nat, seq<nat>>)
    requires n <= |ids|
  {
    && (forall id :: id in first <==> id in ids[..n])
    && (forall id :: id in first ==> 0 <= first[id] < n && ids[first[id]] == id)
    && (forall id :: id in duplicates ==> id in first && |duplicates[id]| > 1 && duplicates[id][0] == first[id])
    && (forall id :: id in duplicates ==> forall j :: 0 <= j < |duplicates[id]| ==> duplicates[id][j] < n && ids[duplicates[id][j]] == id)
    && (forall i :: 0 <= i < n ==> i == first[ids[i]] || (ids[i] in duplicates && i in duplicates[ids[i]][1..]))
  }

  lemma GroupedNew(ids: seq<nat>, n: nat, first: map<nat, int>, duplicates: map<nat, seq<nat>>)
    requires n < |ids| && Grouped(ids, n, first, duplicates) && ids[n] !in first
    ensures Grouped(ids, n + 1, first[ids[n] := n], duplicates)
  {
    assert ids[..n + 1] == ids[..n] + [ids[n]];
    assert forall i :: 0 <= i < n ==> ids[i] in ids[..n];
  }

  lemma GroupedAgain(ids: seq<nat>, n: nat, first: map<nat, int>, was: map<nat, seq<nat>>, list: seq<nat>)
    requires n < |ids| && Grouped(ids, n, first, was) && ids[n] in first
    requires list == if ids[n] in was then was[ids[n]] else [first[ids[n]]]
    ensures Grouped(ids, n + 1, first, was[ids[n] := list + [n]])
  {
    var now := was[ids[n] := list + [n]];
    assert ids[..n + 1] == ids[..n] + [ids[n]];
    assert (list + [n])[1..] == list[1..] + [n];
    forall i | 0 <= i < n + 1
      ensures i == first[ids[i]] || (ids[i] in now && i in now[ids[i]][1..])
    {
      if i == n {
        assert (list[1..] + [n])[|list| - 1] == n;
      } else if i != first[ids[i]] && ids[i] == ids[n] {
        assert i in list[1..];
        assert i in list[1..] + [n];
      }
    }
    forall id | id in now
      ensures id in first && |now[id]| > 1 && now[id][0] == first[id]
      ensures forall j :: 0 <= j < |now[id]| ==> now[id][j] < n + 1 && ids[now[id][j]] == id
    {
    }
  }

  method Group(ids: seq<nat>) returns (first: map<nat, int>, duplicates: map<nat, seq<nat>>)
    ensures Grouped(ids, |ids|, first, duplicates)
  {
    first, duplicates := map[], map[];
    for i := 0 to |ids|
      invariant Grouped(ids, i, first, duplicates)
    {
      var id := ids[i];
      if id in first {
        var list := if id in duplicates then duplicates[id] else [first[id]];
        GroupedAgain(ids, i, first, duplicates, list);
        duplicates := duplicates[id := list + [i]];
      } else {
        GroupedNew(ids, i, first, duplicates);
        first := first[id := i];
      }
    }
  }

  // ---------------------------------------------------------------- placing what was found

  /** The ids in done are answered at their first place and taken out of rest; nothing else has been touched. */
  ghost predicate Placed(s: State, ids: seq<nat>, first: map<nat, int>, rest: map<nat, int>, slice: seq<Option<Row>>, done: set<nat>) {
    && |slice| == |ids| && rest.Keys == first.Keys && done <= first.Keys
    && (forall id :: id in first ==> 0 <= first[id] < |ids| && ids[first[id]] == id)
    && (forall id :: id in first && id in done ==> rest[id] == -1 && slice[first[id]] == Answer(s, id))
    && (forall id :: id in first && id !in done ==> rest[id] == first[id] && slice[first[id]] == None)
  }

  lemma PlacedStep(s: State, ids: seq<nat>, first: map<nat, int>, rest: map<nat, int>, slice: seq<Option<Row>>, done: set<nat>,
                   id: nat, row: Option<Row>)
    requires Placed(s, ids, first, rest, slice, done) && id in first && id !in done && row == Answer(s, id)
    ensures 0 <= first[id] < |slice|
    ensures Placed(s, ids, first, rest[id := -1], slice[first[id] := row], done + {id})
    ensures row == None ==> slice[first[id] := row] == slice
    ensures SomeMissing(s, done + {id}) <==> SomeMissing(s, done) || row == None
  {
    if SomeMissing(s, done) {
      var x :| x in done && Answer(s, x) == None;
      assert x in done + {id};
    }
    if row == None {
      assert id in done + {id};
    }
  }

  /** Some id in done has no row. */
  ghost predicate SomeMissing(s: State, done: set<nat>) {
    exists id :: id in done && Answer(s, id) == None
  }

  lemma AnswerLocal(s: State, id: nat)
    requires s.hasLocal && id in s.local
    ensures Answer(s, id) == if s.local[id].Absent? then None else Some(s.local[id].row)
  {
  }

  lemma AnswerRedis(s: State, id: nat)
    requires !(s.hasLocal && id in s.local) && s.hasRedis && id in s.redis
    ensures Answer(s, id) == if s.redis[id].Absent? then None else Some(s.redis[id].row)
  {
  }

  lemma AnswerDb(s: State, id: nat)
    requires !(s.hasLocal && id in s.local) && !(s.hasRedis && id in s.redis)
    ensures Answer(s, id) == Find(s.View(), id)
  {
  }

  lemma {:induction false} SmallerSubset<T>(a: set<T>, b: set<T>)
    requires a <= b
    ensures |a| <= |b|
    ensures |a| == |b| <==> a == b
  {
    if a != b {
      var x :| x in b && x !in a;
      if a == {} {
      } else {
        var y :| y in a;
        SmallerSubset(a - {y}, b - {y});
      }
    }
  }

  // ---------------------------------------------------------------- the engine

  class Engine {
    const hasLocal: bool
    const hasRedis: bool
    var db: map<nat, Row>
    var tx: Option<map<nat, Row>>
    var local: map<nat, Entry>
    var redis: map<nat, Entry>
    var sets: seq<(nat, Entry)>
    var queues: map<nat, set<nat>>
    var flushers: map<nat, nat>
    var after: Option<nat>

    constructor (hasLocal: bool, hasRedis: bool, db: map<nat, Row>)
      ensures Init(Now()) && Now().db == db && this.hasLocal == hasLocal && this.hasRedis == hasRedis
    {
      this.hasLocal, this.hasRedis, this.db, tx := hasLocal, hasRedis, db, None;
      local, redis, sets, queues, flushers, after := map[], map[], [], map[], map[], None;
    }

    ghost function Now(): State
      reads this
    {
      State(hasLocal, hasRedis, db, tx, local, redis, sets, queues, flushers, after)
    }

    /** The row as MySQL shows it on this connection. */
    function Select(id: nat): Option<Row>
      reads this
    {
      Find(if tx.Some? then tx.value else db, id)
    }

    method LocalMSet(pairs: seq<(nat, Entry)>)
      modifies this`local
      ensures local == MSet(old(local), pairs)
    {
      for i := 0 to |pairs|
        invariant local == MSet(old(local), pairs[..i])
      {
        assert pairs[..i + 1][..i] == pairs[..i];
        local := local[pairs[i].0 := pairs[i].1];
      }
      assert pairs[..|pairs|] == pairs;
    }

    method LoadByID(id: nat) returns (row: Option<Row>)
      modifies this`local, this`redis
      ensures (Now(), row) == Loaded(old(Now()), id)
    {
      if hasLocal {
        if id in local {
          if local[id] == Absent {
            return None;
          }
          return Some(local[id].row);
        }
      }
      if hasRedis {
        if id in redis {
          if redis[id] == Absent {
            if hasLocal {
              local := local[id := Absent];
            }
            return None;
          }
          row := Some(redis[id].row);
          if hasLocal {
            local := local[id := Present(row.value)];
          }
          return;
        }
      }
      row := Select(id);
      if row.None? {
        if hasLocal {
          local := local[id := Absent];
        }
        if hasRedis {
          redis := redis[id := Absent];
        }
        return;
      }
      if hasLocal {
        local := local[id := Present(row.value)];
      }
      if hasRedis {
        redis := redis[id := Present(row.value)];
      }
    }

    method ClearByIDs(ids: seq<nat>)
      modifies this`local, this`redis
      ensures Now() == Next(old(Now()), Clear(ids))
      ensures forall id :: id in ids ==> (hasLocal ==> id !in local) && (hasRedis ==> id !in redis)
      ensures forall id :: id !in ids || !hasLocal ==> (id in local <==> id in old(local)) && (id in local ==> local[id] == old(local)[id])
      ensures forall id :: id !in ids || !hasRedis ==> (id in redis <==> id in old(redis)) && (id in redis ==> redis[id] == old(redis)[id])
    {
      var cacheKeys: set<nat> := {};
      for i := 0 to |ids|
        invariant cacheKeys == Elements(ids[..i])
      {
        cacheKeys := cacheKeys + {ids[i]};
      }
      assert ids[..|ids|] == ids;
      if hasLocal {
        local := local - cacheKeys;
      }
      if hasRedis {
        redis := redis - cacheKeys;
      }
    }

    method BeginTransaction()
      requires tx.None?
      modifies this`tx
      ensures Now() == Next(old(Now()), Begin)
    {
      tx := Some(db);
    }

    /** The rows are committed first, then the queued cache writes are served and dropped. */
    method CommitTransaction()
      requires tx.Some?
      modifies this
      ensures Now() == Next(old(Now()), Commit)
    {
      db := tx.value;
      tx := None;
      LocalMSet(sets);
      sets := [];
      if after.Some? {
        redis := redis - (if after.value in queues then queues[after.value] else {});
        queues := queues[after.value := {}];
        after := None;
      }
    }

    method RollbackTransaction()
      requires tx.Some?
      modifies this`tx, this`sets, this`after
      ensures Now() == Next(old(Now()), Rollback)
    {
      tx := None;
      sets := [];
      after := None;
    }

    /**
     * Saves tracked entities. Going through them, inserts and deletes are put aside and the caches of updates made out;
     * then the inserts run, the updates, the deletes, and last the caches are served or wait for the commit.
     */
    method FlushTracked(flusher: nat, queue: nat, tracked: seq<Change>)
      requires Uses(Now(), flusher, queue)
      modifies this
      ensures Now() == Next(old(Now()), Flush(flusher, queue, tracked))
    {
      hide RunQueue, Queued, MSet, ApplyAll, Sets, Ids, Only, Loaded, ManyLocal, ManyRedis, Uses;
      var updates, inserts, deletes := [], [], [];
      NothingServed();
      for i := 0 to |tracked|
        invariant Now() == old(Now())
        invariant inserts == Only(tracked[..i], Inserts) && updates == Only(tracked[..i], Updates) && deletes == Only(tracked[..i], Deletes)
      {
        OnlyStep(tracked, i);
        match tracked[i] {
          case Insert(_, _, _) => inserts := inserts + [tracked[i]];
          case Update(_, _, _, _) => updates := updates + [tracked[i]];
          case Delete(_) => deletes := deletes + [tracked[i]];
        }
      }
      assert tracked[..|tracked|] == tracked;
      var rows := if tx.Some? then tx.value else db;
      var localCacheSets, redisDeletes := Serve(updates, [], {});
      rows := Execute(inserts, rows);
      localCacheSets, redisDeletes := Serve(inserts, localCacheSets, redisDeletes);
      rows := Execute(updates, rows);
      rows := Execute(deletes, rows);
      localCacheSets, redisDeletes := Serve(deletes, localCacheSets, redisDeletes);
      InOrder(Now().View(), tracked);
      assert localCacheSets == if hasLocal then Served(tracked) else [];
      assert redisDeletes == if hasRedis then Ids(tracked) else {};
      FinishFlush(flusher, queue, rows, localCacheSets, redisDeletes);
    }

    /** Runs the statements of these changes. */
    method Execute(cs: seq<Change>, rows': map<nat, Row>) returns (rows: map<nat, Row>)
      ensures rows == ApplyAll(rows', cs)
    {
      hide Apply;
      rows := rows';
      for i := 0 to |cs|
        invariant rows == ApplyAll(rows', cs[..i])
      {
        assert cs[..i + 1][..i] == cs[..i];
        rows := Apply(rows, cs[i]);
      }
      assert cs[..|cs|] == cs;
    }

    /** Makes out what the caches are given for them. */
    method Serve(cs: seq<Change>, sets': seq<(nat, Entry)>, deletes': set<nat>) returns (sets: seq<(nat, Entry)>, deletes: set<nat>)
      ensures sets == sets' + (if hasLocal then Sets(cs) else [])
      ensures deletes == deletes' + (if hasRedis then Ids(cs) else {})
    {
      hide SetOf, Ids;
      sets, deletes := sets', deletes';
      NothingServed();
      for i := 0 to |cs|
        invariant sets == sets' + (if hasLocal then Sets(cs[..i]) else [])
        invariant deletes == deletes' + (if hasRedis then Ids(cs[..i]) else {})
      {
        ServedStep(cs, i);
        if hasLocal {
          sets := sets + [SetOf(cs[i])];
        }
        if hasRedis {
          deletes := deletes + {cs[i].id};
        }
      }
      assert cs[..|cs|] == cs;
    }

    /** The caches are served after the statements, or when the transaction commits; a flusher without deletes needs no queue. */
    method FinishFlush(flusher: nat, queue: nat, rows: map<nat, Row>, localCacheSets: seq<(nat, Entry)>, redisDeletes: set<nat>)
      modifies this
      ensures
        var s := old(Now());
        Now() ==
        if s.tx.Some? then
          Taken(s, flusher, queue, redisDeletes).(tx := Some(rows), sets := s.sets + localCacheSets, after := Some(queue))
        else
          var t := s.(db := rows, local := MSet(s.local, localCacheSets));
          if Takes(s, flusher, redisDeletes) then RunQueue(Taken(t, flusher, queue, redisDeletes), queue) else t
    {
      var takes := tx.Some? || flusher in flushers || redisDeletes != {};
      if takes {
        flushers := flushers[flusher := queue];
        queues := queues[queue := (if queue in queues then queues[queue] else {}) + redisDeletes];
      }
      if tx.Some? {
        tx := Some(rows);
        sets := sets + localCacheSets;
        after := Some(queue);
      } else {
        db := rows;
        LocalMSet(localCacheSets);
        if takes {
          redis := redis - queues[queue];
          queues := queues[queue := {}];
        }
      }
    }

    // -------------------------------------------------------------- batch load

    /** What the local cache holds, answered in any order. */
    method FromLocal(ids: seq<nat>, first: map<nat, int>) returns (rest: map<nat, int>, slice: seq<Option<Row>>, missing: bool)
      requires Placed(Now(), ids, first, first, seq(|ids|, _ => None), {})
      ensures Placed(Now(), ids, first, rest, slice, InLocal(Now(), first.Keys))
      ensures missing <==> SomeMissing(Now(), InLocal(Now(), first.Keys))
    {
      hide Placed, Answer;
      rest, slice, missing := first, seq(|ids|, _ => None), false;
      ghost var s, done := Now(), {};
      var keys := first.Keys;
      while keys != {}
        invariant keys <= first.Keys && done <= first.Keys
        invariant forall id :: id in first ==> (id in done <==> id !in keys && hasLocal && id in local)
        invariant Placed(s, ids, first, rest, slice, done)
        invariant missing <==> SomeMissing(s, done)
        decreases |keys|
      {
        var id :| id in keys;
        if hasLocal && id in local {
          AnswerLocal(s, id);
          PlacedStep(s, ids, first, rest, slice, done, id, if local[id].Absent? then None else Some(local[id].row));
          if local[id] != Absent {
            slice := slice[first[id] := Some(local[id].row)];
          } else {
            missing := true;
          }
          rest := rest[id := -1];
          done := done + {id};
        }
        keys := keys - {id};
      }
      assert done == InLocal(s, first.Keys);
    }

    /** What Redis holds of the rest; pairs is what the local cache will be given. */
    method FromRedis(ids: seq<nat>, first: map<nat, int>, rest': map<nat, int>, slice': seq<Option<Row>>, missing': bool)
      returns (rest: map<nat, int>, slice: seq<Option<Row>>, missing: bool, pairs: seq<(nat, Entry)>)
      requires Placed(Now(), ids, first, rest', slice', InLocal(Now(), first.Keys))
      requires missing' <==> SomeMissing(Now(), InLocal(Now(), first.Keys))
      ensures
        var done := InLocal(Now(), first.Keys) + InRedis(Now(), first.Keys);
        Placed(Now(), ids, first, rest, slice, done) && (missing <==> SomeMissing(Now(), done))
      ensures MSet(map[], pairs) == if hasLocal then RedisRows(Now(), InRedis(Now(), first.Keys)) else map[]
    {
      hide FoundInRedis, Placed, SomeMissing, InLocal, InRedis, RedisRows, MSet;
      rest, slice, missing, pairs := rest', slice', missing', [];
      ghost var s, before, got := Now(), InLocal(Now(), first.Keys), {};
      RedisStart(s, ids, first, rest, slice, missing, before);
      if hasRedis {
        var keys := Remaining(ids, first, rest, before);
        while keys != {}
          invariant keys <= first.Keys - before - got && got <= first.Keys - before
          invariant forall id :: id in first && id !in before ==> (id in got <==> id !in keys && id in redis)
          invariant FoundInRedis(s, ids, first, rest, slice, missing, pairs, before, got)
          decreases |keys|
        {
          var id :| id in keys;
          if id in redis {
            RedisHit(s, ids, first, rest, slice, missing, pairs, before, got, id);
            if redis[id] != Absent {
              slice := slice[first[id] := Some(redis[id].row)];
              if hasLocal {
                pairs := pairs + [(id, redis[id])];
              }
            } else {
              missing := true;
            }
            rest := rest[id := -1];
            got := got + {id};
          }
          keys := keys - {id};
        }
      }
      AllInRedis(s, first.Keys, got);
      RedisEnd(s, ids, first, rest, slice, missing, pairs, before, got);
    }

    /** The rest comes from MySQL in one query, whose rows come back in any order. */
    method FromDB(ids: seq<nat>, first: map<nat, int>, rest: map<nat, int>, slice': seq<Option<Row>>, missing': bool,
                  localPairs': seq<(nat, Entry)>)
      returns (slice: seq<Option<Row>>, missing: bool, localPairs: seq<(nat, Entry)>, redisPairs: seq<(nat, Entry)>, asked: seq<nat>)
      requires
        var done := InLocal(Now(), first.Keys) + InRedis(Now(), first.Keys);
        Placed(Now(), ids, first, rest, slice', done) && (missing' <==> SomeMissing(Now(), done))
      requires MSet(map[], localPairs') == if hasLocal then RedisRows(Now(), InRedis(Now(), first.Keys)) else map[]
      ensures |slice| == |ids| && forall id :: id in first ==> 0 <= first[id] < |ids| && slice[first[id]] == Answer(Now(), id)
      ensures missing <==> SomeMissing(Now(), first.Keys)
      ensures MSet(map[], localPairs) ==
        if hasLocal then RedisRows(Now(), InRedis(Now(), first.Keys)) + DbRows(Now(), Uncached(Now(), first.Keys)) else map[]
      ensures MSet(map[], redisPairs) == if hasRedis then DbRows(Now(), Uncached(Now(), first.Keys)) else map[]
      ensures |asked| == |Elements(asked)| && Elements(asked) == Uncached(Now(), first.Keys)
    {
      hide FoundInDb, Placed, SomeMissing, InLocal, InRedis, RedisRows, DbRows, MSet, Answer;
      slice, missing, localPairs, redisPairs := slice', missing', localPairs', [];
      ghost var s, before := Now(), InLocal(Now(), first.Keys) + InRedis(Now(), first.Keys);
      RestIs(s, ids, first, rest, slice, before);
      var keys := Remaining(ids, first, rest, before);
      assert keys == Uncached(s, first.Keys);
      asked := ListOf(keys);
      DbStart(s, ids, first, rest, slice, before, localPairs);
      ghost var base, got := MSet(map[], localPairs), {};
      if |asked| > 0 {
        var found;
        slice, localPairs, redisPairs, found, got := ReadRows(ids, first, keys, slice, localPairs, before);
        SmallerSubset(got, keys);
        if !missing && found < |asked| {
          missing := true;
        }
      }
      DbEnd(s, ids, first, slice, localPairs, redisPairs, before, got, base, keys);
    }

    /** The rows of the query. */
    method ReadRows(ids: seq<nat>, first: map<nat, int>, keys: set<nat>, slice': seq<Option<Row>>, localPairs': seq<(nat, Entry)>,
                    ghost before: set<nat>)
      returns (slice: seq<Option<Row>>, localPairs: seq<(nat, Entry)>, redisPairs: seq<(nat, Entry)>, found: nat, ghost got: set<nat>)
      requires FoundInDb(Now(), ids, first, slice', localPairs', [], before, {}, MSet(map[], localPairs'))
      requires keys <= first.Keys - before && keys == Uncached(Now(), first.Keys)
      ensures got == (set id <- keys | id in Now().View()) && found == |got|
      ensures FoundInDb(Now(), ids, first, slice, localPairs, redisPairs, before, got, MSet(map[], localPairs'))
    {
      hide FoundInDb, Placed, Uncached, DbRows, MSet, Answer;
      slice, localPairs, redisPairs := slice', localPairs', [];
      var rows := set id <- keys | Select(id).Some?;
      found, got := 0, {};
      while rows != {}
        invariant rows !! got && rows + got == set id <- keys | id in Now().View()
        invariant found == |got|
        invariant FoundInDb(Now(), ids, first, slice, localPairs, redisPairs, before, got, MSet(map[], localPairs'))
        decreases |rows|
      {
        var id :| id in rows;
        assert id in rows + got;
        var row := Select(id);
        DbHit(Now(), ids, first, slice, localPairs, redisPairs, before, got, MSet(map[], localPairs'), id);
        slice := slice[first[id] := row];
        if hasLocal {
          localPairs := localPairs + [(id, Present(row.value))];
        }
        if hasRedis {
          redisPairs := redisPairs + [(id, Present(row.value))];
        }
        found := found + 1;
        rows := rows - {id};
        got := got + {id};
      }
    }

    method RedisMSet(pairs: seq<(nat, Entry)>)
      modifies this`redis
      ensures redis == MSet(old(redis), pairs)
    {
      for i := 0 to |pairs|
        invariant redis == MSet(old(redis), pairs[..i])
      {
        assert pairs[..i + 1][..i] == pairs[..i];
        redis := redis[pairs[i].0 := pairs[i].1];
      }
      assert pairs[..|pairs|] == pairs;
    }

    /** Gives the caches what they lacked. */
    method WriteBack(localPairs: seq<(nat, Entry)>, redisPairs: seq<(nat, Entry)>)
      modifies this`local, this`redis
      ensures local == if hasLocal && |localPairs| > 0 then old(local) + MSet(map[], localPairs) else old(local)
      ensures redis == if hasRedis && |redisPairs| > 0 then old(redis) + MSet(map[], redisPairs) else old(redis)
    {
      hide MSet;
      MSetMerge(local, localPairs);
      MSetMerge(redis, redisPairs);
      if hasLocal && |localPairs| > 0 {
        LocalMSet(localPairs);
      }
      if hasRedis && |redisPairs| > 0 {
        RedisMSet(redisPairs);
      }
    }

    /**
     * Loads a batch, with duplicates and missing ids: every place gets its row or nil, missing tells whether some id has
     * no row, asked are the ids that MySQL was asked for.
     */
    method TryByIDs(ids: seq<nat>) returns (entities: seq<Option<Row>>, missing: bool, asked: seq<nat>)
      modifies this`local, this`redis
      ensures |entities| == |ids| && forall i :: 0 <= i < |ids| ==> entities[i] == Answer(old(Now()), ids[i])
      ensures missing <==> exists i :: 0 <= i < |ids| && entities[i].None?
      ensures |asked| == |Elements(asked)| && Elements(asked) == Uncached(old(Now()), Elements(ids))
      ensures Now() == Next(old(Now()), LoadMany(ids))
    {
      hide Placed, SomeMissing, InLocal, InRedis, Uncached, RedisRows, DbRows, MSet, Answer;
      if |ids| == 0 {
        NoIds(Now());
        return [], false, [];
      }
      ghost var s := Now();
      var first, duplicates := Group(ids);
      GroupKeys(ids, first, duplicates);
      var localPairs, redisPairs;
      NothingPlaced(s, ids, first, duplicates);
      var rest, slice;
      rest, slice, missing := FromLocal(ids, first);
      rest, slice, missing, localPairs := FromRedis(ids, first, rest, slice, missing);
      slice, missing, localPairs, redisPairs, asked := FromDB(ids, first, rest, slice, missing, localPairs);
      WriteBack(localPairs, redisPairs);
      ServedBatch(s, ids, localPairs, redisPairs);
      entities := CopyDuplicates(ids, first, duplicates, slice, s);
      MissingPlaces(s, ids, entities);
    }

    /** The ids that have not been answered. */
    method Remaining(ids: seq<nat>, first: map<nat, int>, rest: map<nat, int>, ghost done: set<nat>) returns (keys: set<nat>)
      requires rest.Keys == first.Keys
      requires forall id :: id in first ==> (rest[id] >= 0 <==> id !in done)
      ensures keys == first.Keys - done
    {
      keys := set id <- rest | rest[id] >= 0;
    }
  }

  lemma OnlyStep(cs: seq<Change>, i: nat)
    requires i < |cs|
    ensures forall p :: Only(cs[..i + 1], p) == Only(cs[..i], p) + if PartOf(cs[i]) == p then [cs[i]] else []
  {
    hide PartOf;
    assert cs[..i + 1][..i] == cs[..i];
  }

  lemma NothingServed()
    ensures Sets([]) == [] && Ids([]) == {} && forall p :: Only([], p) == []
  {
  }

  lemma ServedStep(cs: seq<Change>, i: nat)
    requires i < |cs|
    ensures Sets(cs[..i + 1]) == Sets(cs[..i]) + [SetOf(cs[i])] && Ids(cs[..i + 1]) == Ids(cs[..i]) + {cs[i].id}
  {
    hide SetOf;
    assert cs[..i + 1] == cs[..i] + [cs[i]];
  }

  lemma {:induction false} ApplyConcat(view: map<nat, Row>, a: seq<Change>, b: seq<Change>)
    ensures ApplyAll(view, a + b) == ApplyAll(ApplyAll(view, a), b)
  {
    hide Apply;
    if b == [] {
      assert a + b == a;
    } else {
      ApplyConcat(view, a, b[..|b| - 1]);
      assert (a + b)[..|a + b| - 1] == a + b[..|b| - 1];
    }
  }

  lemma ServedConcat(a: seq<Change>, b: seq<Change>)
    ensures Sets(a + b) == Sets(a) + Sets(b) && Ids(a + b) == Ids(a) + Ids(b)
  {
    hide SetOf;
  }

  /** The parts in their two orders. */
  lemma InOrder(view: map<nat, Row>, cs: seq<Change>)
    ensures
      var i, u, d := Only(cs, Inserts), Only(cs, Updates), Only(cs, Deletes);
      && Written(view, cs) == ApplyAll(ApplyAll(ApplyAll(view, i), u), d)
      && Served(cs) == Sets(u) + Sets(i) + Sets(d)
      && Ids(cs) == Ids(u) + Ids(i) + Ids(d)
  {
    hide Apply, SetOf, ApplyAll, Sets, Ids, Only;
    var i, u, d := Only(cs, Inserts), Only(cs, Updates), Only(cs, Deletes);
    ApplyConcat(view, i, u);
    ApplyConcat(view, i + u, d);
    ServedConcat(u, i);
    ServedConcat(u + i, d);
    PartIds(cs);
  }

  lemma PartIds(cs: seq<Change>)
    ensures Ids(cs) == Ids(Only(cs, Updates)) + Ids(Only(cs, Inserts)) + Ids(Only(cs, Deletes))
  {
    hide PartOf;
    OnlyMembers(cs, Inserts);
    OnlyMembers(cs, Updates);
    OnlyMembers(cs, Deletes);
    forall c | c in cs ensures PartOf(c) == Inserts || PartOf(c) == Updates || PartOf(c) == Deletes {}
    forall id | id in Ids(cs) ensures id in Ids(Only(cs, Updates)) + Ids(Only(cs, Inserts)) + Ids(Only(cs, Deletes)) {
      var c :| c in cs && c.id == id;
      assert c in Only(cs, PartOf(c));
    }
  }

  lemma {:induction false} OnlyMembers(cs: seq<Change>, p: Part)
    ensures forall c :: c in Only(cs, p) <==> c in cs && PartOf(c) == p
  {
    hide PartOf;
    if cs != [] {
      var n := |cs| - 1;
      OnlyMembers(cs[..n], p);
      assert cs == cs[..n] + [cs[n]];
    }
  }

  lemma NoIds(s: State)
    ensures Next(s, LoadMany([])) == s && Uncached(s, Elements([])) == {}
  {
    assert Elements([]) == {} && InRedis(s, {}) == {} && Uncached(s, {}) == {};
    assert RedisRows(s, {}) == map[] && DbRows(s, {}) == map[];
  }

  lemma GroupKeys(ids: seq<nat>, first: map<nat, int>, duplicates: map<nat, seq<nat>>)
    requires Grouped(ids, |ids|, first, duplicates)
    ensures first.Keys == Elements(ids)
  {
    assert ids[..|ids|] == ids;
  }

  lemma NothingPlaced(s: State, ids: seq<nat>, first: map<nat, int>, duplicates: map<nat, seq<nat>>)
    requires Grouped(ids, |ids|, first, duplicates)
    ensures Placed(s, ids, first, first, seq(|ids|, _ => None), {})
  {
  }

  /** The batch's cache writes are those of the step. */
  lemma ServedBatch(s: State, ids: seq<nat>, localPairs: seq<(nat, Entry)>, redisPairs: seq<(nat, Entry)>)
    requires MSet(map[], localPairs) ==
      if s.hasLocal then RedisRows(s, InRedis(s, Elements(ids))) + DbRows(s, Uncached(s, Elements(ids))) else map[]
    requires MSet(map[], redisPairs) == if s.hasRedis then DbRows(s, Uncached(s, Elements(ids))) else map[]
    ensures ManyLocal(s, Elements(ids)) == if s.hasLocal && |localPairs| > 0 then s.local + MSet(map[], localPairs) else s.local
    ensures ManyRedis(s, Elements(ids)) == if s.hasRedis && |redisPairs| > 0 then s.redis + MSet(map[], redisPairs) else s.redis
  {
    hide InRedis, Uncached, RedisRows, DbRows;
    var r, d := RedisRows(s, InRedis(s, Elements(ids))), DbRows(s, Uncached(s, Elements(ids)));
    assert s.local + r + d == s.local + (r + d);
  }

  /** Every place of an id that occurs again gets what its first place has. */
  method CopyDuplicates(ids: seq<nat>, first: map<nat, int>, duplicates: map<nat, seq<nat>>, slice: seq<Option<Row>>, ghost s: State)
    returns (entities: seq<Option<Row>>)
    requires Grouped(ids, |ids|, first, duplicates) && |slice| == |ids|
    requires forall id :: id in first ==> 0 <= first[id] < |ids| && slice[first[id]] == Answer(s, id)
    ensures |entities| == |ids| && forall i :: 0 <= i < |ids| ==> entities[i] == Answer(s, ids[i])
  {
    hide Answer;
    entities := slice;
    var keys := duplicates.Keys;
    while keys != {}
      invariant keys <= duplicates.Keys && |entities| == |ids|
      invariant forall p :: 0 <= p < |ids| && slice[p] == Answer(s, ids[p]) ==> entities[p] == Answer(s, ids[p])
      invariant forall id :: id in duplicates && id !in keys ==>
        forall j :: 0 <= j < |duplicates[id]| ==> entities[duplicates[id][j]] == Answer(s, id)
      decreases |keys|
    {
      var id :| id in keys;
      entities := CopyList(ids, duplicates[id], entities, id, s);
      keys := keys - {id};
    }
    forall i | 0 <= i < |ids| ensures entities[i] == Answer(s, ids[i]) {
      if i != first[ids[i]] {
        var list := duplicates[ids[i]];
        var j :| 0 <= j < |list[1..]| && list[1..][j] == i;
        assert list[j + 1] == i;
      }
    }
  }

  method CopyList(ids: seq<nat>, list: seq<nat>, entities': seq<Option<Row>>, ghost id: nat, ghost s: State)
    returns (entities: seq<Option<Row>>)
    requires |entities'| == |ids| && |list| > 1 && forall j :: 0 <= j < |list| ==> list[j] < |ids| && ids[list[j]] == id
    requires entities'[list[0]] == Answer(s, id)
    ensures |entities| == |ids| && forall j :: 0 <= j < |list| ==> entities[list[j]] == Answer(s, id)
    ensures forall p :: 0 <= p < |ids| && entities'[p] == Answer(s, ids[p]) ==> entities[p] == Answer(s, ids[p])
  {
    hide Answer;
    entities := entities';
    for j := 1 to |list|
      invariant |entities| == |ids| && forall i :: 0 <= i < j ==> entities[list[i]] == Answer(s, id)
      invariant forall p :: 0 <= p < |ids| && entities'[p] == Answer(s, ids[p]) ==> entities[p] == Answer(s, ids[p])
    {
      var k := list[j];
      entities := entities[k := entities[list[0]]];
    }
  }

  lemma MissingPlaces(s: State, ids: seq<nat>, entities: seq<Option<Row>>)
    requires |entities| == |ids| && forall i :: 0 <= i < |ids| ==> entities[i] == Answer(s, ids[i])
    ensures SomeMissing(s, Elements(ids)) <==> exists i :: 0 <= i < |ids| && entities[i].None?
  {
    hide Answer;
    if SomeMissing(s, Elements(ids)) {
      var id :| id in Elements(ids) && Answer(s, id) == None;
      var i :| 0 <= i < |ids| && ids[i] == id;
      assert entities[i].None?;
    }
    if i :| 0 <= i < |ids| && entities[i].None? {
      assert ids[i] in Elements(ids);
    }
  }

  /** In a coherent state the places of a batch are the committed rows. */
  lemma AnswersCommitted(s: State, ids: seq<nat>)
    requires Inv(s) && Enabled(s, LoadMany(ids))
    ensures forall i :: 0 <= i < |ids| ==> Answer(s, ids[i]) == Find(s.db, ids[i])
  {
    hide Inv;
    forall i | 0 <= i < |ids| ensures Answer(s, ids[i]) == Find(s.db, ids[i]) {
      LoadKeeps(s, ids[i]);
    }
  }

  /** Some order of the ids. */
  method ListOf(keys: set<nat>) returns (list: seq<nat>)
    ensures Elements(list) == keys && |list| == |keys|
  {
    list := [];
    var left := keys;
    while left != {}
      invariant left <= keys && Elements(list) == keys - left && |list| == |keys| - |left|
      decreases |left|
    {
      var id :| id in left;
      list := list + [id];
      left := left - {id};
    }
  }

  /** The ids in got were among the rows; the pairs are what the caches will be given for them. */
  ghost predicate FoundInDb(s: State, ids: seq<nat>, first: map<nat, int>, slice: seq<Option<Row>>,
                            localPairs: seq<(nat, Entry)>, redisPairs: seq<(nat, Entry)>,
                            before: set<nat>, got: set<nat>, base: map<nat, Entry>) {
    && |slice| == |ids| && before !! got
    && (forall id :: id in first ==> 0 <= first[id] < |ids| && ids[first[id]] == id)
    && (forall id :: id in first ==> slice[first[id]] == if id in before + got then Answer(s, id) else None)
    && MSet(map[], localPairs) == (if s.hasLocal then base + DbRows(s, got) else base)
    && MSet(map[], redisPairs) == (if s.hasRedis then DbRows(s, got) else map[])
  }

  lemma RestIs(s: State, ids: seq<nat>, first: map<nat, int>, rest: map<nat, int>, slice: seq<Option<Row>>, before: set<nat>)
    requires Placed(s, ids, first, rest, slice, before)
    ensures rest.Keys == first.Keys && forall id :: id in first ==> (rest[id] >= 0 <==> id !in before)
  {
  }

  lemma DbStart(s: State, ids: seq<nat>, first: map<nat, int>, rest: map<nat, int>, slice: seq<Option<Row>>, before: set<nat>,
                localPairs: seq<(nat, Entry)>)
    requires Placed(s, ids, first, rest, slice, before)
    ensures FoundInDb(s, ids, first, slice, localPairs, [], before, {}, MSet(map[], localPairs))
  {
    hide Answer;
    assert DbRows(s, {}) == map[];
  }

  lemma DbHit(s: State, ids: seq<nat>, first: map<nat, int>, slice: seq<Option<Row>>,
              localPairs: seq<(nat, Entry)>, redisPairs: seq<(nat, Entry)>,
              before: set<nat>, got: set<nat>, base: map<nat, Entry>, id: nat)
    requires FoundInDb(s, ids, first, slice, localPairs, redisPairs, before, got, base)
    requires id in first && id in Uncached(s, first.Keys) && id !in before && id !in got && id in s.View()
    ensures 0 <= first[id] < |slice|
    ensures
      var pair := (id, Present(s.View()[id]));
      FoundInDb(s, ids, first, slice[first[id] := Some(s.View()[id])],
        if s.hasLocal then localPairs + [pair] else localPairs, if s.hasRedis then redisPairs + [pair] else redisPairs,
        before, got + {id}, base)
  {
    hide Answer, DbRows, MSet;
    AnswerDb(s, id);
    MSetOne(s, localPairs, base, got, id);
    MSetOne(s, redisPairs, map[], got, id);
    assert map[] + DbRows(s, got) == DbRows(s, got) && map[] + DbRows(s, got + {id}) == DbRows(s, got + {id});
  }

  lemma MSetOne(s: State, pairs: seq<(nat, Entry)>, base: map<nat, Entry>, got: set<nat>, id: nat)
    requires id in s.View()
    ensures
      var pair := (id, Present(s.View()[id]));
      MSet(map[], pairs) == base + DbRows(s, got) ==> MSet(map[], pairs + [pair]) == base + DbRows(s, got + {id})
  {
    var pair := (id, Present(s.View()[id]));
    assert (pairs + [pair])[..|pairs|] == pairs;
    assert DbRows(s, got)[id := pair.1] == DbRows(s, got + {id});
    assert (base + DbRows(s, got))[id := pair.1] == base + DbRows(s, got + {id});
  }

  lemma DbEnd(s: State, ids: seq<nat>, first: map<nat, int>, slice: seq<Option<Row>>,
              localPairs: seq<(nat, Entry)>, redisPairs: seq<(nat, Entry)>,
              before: set<nat>, got: set<nat>, base: map<nat, Entry>, keys: set<nat>)
    requires FoundInDb(s, ids, first, slice, localPairs, redisPairs, before, got, base)
    requires before == InLocal(s, first.Keys) + InRedis(s, first.Keys) && keys == Uncached(s, first.Keys)
    requires got == set id <- keys | id in s.View()
    ensures |slice| == |ids| && forall id :: id in first ==> 0 <= first[id] < |ids| && slice[first[id]] == Answer(s, id)
    ensures SomeMissing(s, first.Keys) <==> SomeMissing(s, before) || got != keys
    ensures MSet(map[], localPairs) == if s.hasLocal then base + DbRows(s, keys) else base
    ensures MSet(map[], redisPairs) == if s.hasRedis then DbRows(s, keys) else map[]
  {
    hide Answer, MSet;
    assert DbRows(s, got) == DbRows(s, keys);
    forall id | id in keys ensures Answer(s, id) == Find(s.View(), id) {
      AnswerDb(s, id);
    }
    if SomeMissing(s, before) {
      var id :| id in before && Answer(s, id) == None;
      assert id in first.Keys;
    }
    if got != keys {
      var id :| id in keys && id !in got;
      assert id in first.Keys && Answer(s, id) == None;
    }
    if SomeMissing(s, first.Keys) {
      var id :| id in first.Keys && Answer(s, id) == None;
      assert id in before || (id in keys && id !in got);
    }
  }

  /** The ids in got were found in Redis; pairs is what the local cache will be given for them. */
  ghost predicate FoundInRedis(s: State, ids: seq<nat>, first: map<nat, int>, rest: map<nat, int>, slice: seq<Option<Row>>,
                               missing: bool, pairs: seq<(nat, Entry)>, before: set<nat>, got: set<nat>) {
    && Placed(s, ids, first, rest, slice, before + got) && before !! got
    && (missing <==> SomeMissing(s, before + got))
    && MSet(map[], pairs) == (if s.hasLocal then RedisRows(s, got) else map[])
  }

  lemma RedisStart(s: State, ids: seq<nat>, first: map<nat, int>, rest: map<nat, int>, slice: seq<Option<Row>>,
                   missing: bool, before: set<nat>)
    requires Placed(s, ids, first, rest, slice, before) && (missing <==> SomeMissing(s, before))
    ensures FoundInRedis(s, ids, first, rest, slice, missing, [], before, {})
    ensures rest.Keys == first.Keys && forall id :: id in first ==> (rest[id] >= 0 <==> id !in before)
  {
    assert before + {} == before;
    assert RedisRows(s, {}) == map[];
  }

  lemma AllInRedis(s: State, all: set<nat>, got: set<nat>)
    requires got <= all - InLocal(s, all)
    requires forall id :: id in all && id !in InLocal(s, all) ==> (id in got <==> s.hasRedis && id in s.redis)
    ensures got == InRedis(s, all)
  {
    forall id | id in all ensures id in InLocal(s, all) <==> s.hasLocal && id in s.local {}
  }

  lemma RedisEnd(s: State, ids: seq<nat>, first: map<nat, int>, rest: map<nat, int>, slice: seq<Option<Row>>,
                 missing: bool, pairs: seq<(nat, Entry)>, before: set<nat>, got: set<nat>)
    requires FoundInRedis(s, ids, first, rest, slice, missing, pairs, before, got)
    ensures Placed(s, ids, first, rest, slice, before + got) && (missing <==> SomeMissing(s, before + got))
    ensures MSet(map[], pairs) == if s.hasLocal then RedisRows(s, got) else map[]
  {
  }

  lemma RedisHit(s: State, ids: seq<nat>, first: map<nat, int>, rest: map<nat, int>, slice: seq<Option<Row>>,
                 missing: bool, pairs: seq<(nat, Entry)>, before: set<nat>, got: set<nat>, id: nat)
    requires FoundInRedis(s, ids, first, rest, slice, missing, pairs, before, got)
    requires id in first && id !in before && id !in got && before == InLocal(s, first.Keys) && s.hasRedis && id in s.redis
    ensures 0 <= first[id] < |slice|
    ensures s.redis[id].Present? ==>
      FoundInRedis(s, ids, first, rest[id := -1], slice[first[id] := Some(s.redis[id].row)], missing,
        if s.hasLocal then pairs + [(id, s.redis[id])] else pairs, before, got + {id})
    ensures s.redis[id].Absent? ==>
      FoundInRedis(s, ids, first, rest[id := -1], slice, true, pairs, before, got + {id})
  {
    hide Answer, Placed;
    AnswerRedis(s, id);
    assert before + got + {id} == before + (got + {id});
    PlacedStep(s, ids, first, rest, slice, before + got, id, if s.redis[id].Absent? then None else Some(s.redis[id].row));
    RedisStep(s, got, id, pairs);
  }

  lemma RedisStep(s: State, done: set<nat>, id: nat, pairs: seq<(nat, Entry)>)
    requires id in s.redis
    requires MSet(map[], pairs) == if s.hasLocal then RedisRows(s, done) else map[]
    ensures s.redis[id].Absent? ==> RedisRows(s, done + {id}) == RedisRows(s, done)
    ensures s.redis[id].Present? && s.hasLocal ==> MSet(map[], pairs + [(id, s.redis[id])]) == RedisRows(s, done + {id})
  {
    assert (pairs + [(id, s.redis[id])])[..|pairs|] == pairs;
    assert s.redis[id].Present? ==> RedisRows(s, done)[id := s.redis[id]] == RedisRows(s, done + {id});
  }
}
