/** The lazy flush: a batch of queued statements, its inserts first, the rest concurrently in groups of row ids. */
module LazyFlush {
  import opened Wrappers

  datatype RowKey = RowKey(pool: string, table: string, id: nat)

  type Row = map<string, int>

  /** A queued statement: one row each. An insert without an id gets the table's next one. */
  datatype Statement =
    | Insert(pool: string, table: string, id: Option<nat>, row: Row)
    | Update(pool: string, table: string, key: nat, bind: Row)
    | Delete(pool: string, table: string, key: nat)

  /** next is the auto-increment value of each table, 1 where nothing was inserted yet. */
  datatype Database = Database(rows: map<RowKey, Row>, next: map<(string, string), nat>)

  function NextId(db: Database, pool: string, table: string): nat {
    if (pool, table) in db.next then db.next[(pool, table)] else 1
  }

  /** The row an insert makes. */
  function Inserted(db: Database, s: Statement): RowKey
    requires s.Insert?
  {
    RowKey(s.pool, s.table, if s.id.Some? then s.id.value else NextId(db, s.pool, s.table))
  }

  function Max(a: nat, b: nat): nat {
    if a < b then b else a
  }

  /** The row an update or delete is about. */
  function Target(s: Statement): RowKey
    requires !s.Insert?
  {
    RowKey(s.pool, s.table, s.key)
  }

  /** An insert over an existing row is refused, an update of a missing row changes nothing. */
  function Exec(db: Database, s: Statement): Database {
    match s
    case Insert(pool, table, _, row) =>
      var k := Inserted(db, s);
      if k in db.rows then db
      else Database(db.rows[k := row], db.next[(pool, table) := Max(NextId(db, pool, table), k.id + 1)])
    case Update(_, _, _, bind) =>
      var k := Target(s);
      if k in db.rows then db.(rows := db.rows[k := db.rows[k] + bind]) else db
    case Delete(_, _, _) => db.(rows := db.rows - {Target(s)})
  }

  function Run(db: Database, ss: seq<Statement>): Database {
    if ss == [] then db else Exec(Run(db, ss[..|ss| - 1]), ss[|ss| - 1])
  }

  function Inserts(ss: seq<Statement>): (r: seq<Statement>)
    ensures forall s :: s in r ==> s.Insert?
  {
    if ss == [] then []
    else
      var s := ss[|ss| - 1];
      Inserts(ss[..|ss| - 1]) + if s.Insert? then [s] else []
  }

  function Others(ss: seq<Statement>): (r: seq<Statement>)
    ensures forall s :: s in r ==> !s.Insert?
  {
    if ss == [] then []
    else
      var s := ss[|ss| - 1];
      Others(ss[..|ss| - 1]) + if s.Insert? then [] else [s]
  }

  // ---------------------------------------------------------------- inserts first

  /** The row that insert j of the batch makes: only the inserts before it matter. */
  function InsertedBy(db: Database, batch: seq<Statement>, j: nat): RowKey
    requires j < |batch| && batch[j].Insert?
  {
    Inserted(Run(db, Inserts(batch[..j])), batch[j])
  }

  /** No update or delete comes before an insert of the same row. */
  ghost predicate InsertsLead(db: Database, batch: seq<Statement>) {
    forall i, j :: 0 <= i < j < |batch| && !batch[i].Insert? && batch[j].Insert? ==> Target(batch[i]) != InsertedBy(db, batch, j)
  }

  lemma {:induction false} OthersKeepNext(db: Database, ss: seq<Statement>)
    requires forall s :: s in ss ==> !s.Insert?
    ensures Run(db, ss).next == db.next
  {
    if ss != [] {
      OthersKeepNext(db, ss[..|ss| - 1]);
    }
  }

  lemma SwapInsert(db: Database, o: Statement, s: Statement)
    requires !o.Insert? && s.Insert? && Target(o) != Inserted(db, s)
    ensures Exec(Exec(db, o), s) == Exec(Exec(db, s), o)
  {
    hide Max;
    assert Inserted(Exec(db, o), s) == Inserted(db, s);
    if Inserted(db, s) in db.rows {
      assert Exec(Exec(db, o), s) == Exec(db, o);
    } else {
      SwapNewInsert(db, o, s);
    }
  }

  lemma SwapNewInsert(db: Database, o: Statement, s: Statement)
    requires !o.Insert? && s.Insert? && Target(o) != Inserted(db, s) && Inserted(db, s) !in db.rows
    ensures Exec(Exec(db, o), s) == Exec(Exec(db, s), o)
  {
    hide Max;
    var k, t := Inserted(db, s), Target(o);
    assert t in Exec(db, s).rows <==> t in db.rows;
    if t in db.rows && o.Update? {
      assert db.rows[t := db.rows[t] + o.bind][k := s.row] == db.rows[k := s.row][t := db.rows[t] + o.bind];
    } else if o.Delete? {
      assert (db.rows - {t})[k := s.row] == db.rows[k := s.row] - {t};
    }
  }

  /** An insert can be run before statements about other rows. */
  lemma {:induction false} InsertPast(db: Database, others: seq<Statement>, s: Statement)
    requires s.Insert? && forall o :: o in others ==> !o.Insert? && Target(o) != Inserted(db, s)
    ensures Exec(Run(db, others), s) == Run(Exec(db, s), others)
  {
    if others != [] {
      var n := |others| - 1;
      InsertPast(db, others[..n], s);
      OthersKeepNext(db, others[..n]);
      SwapInsert(Run(db, others[..n]), others[n], s);
    }
  }

  lemma {:induction false} OthersMembers(batch: seq<Statement>)
    ensures forall o :: o in Others(batch) ==> o in batch
  {
    if batch != [] {
      OthersMembers(batch[..|batch| - 1]);
      assert batch == batch[..|batch| - 1] + [batch[|batch| - 1]];
    }
  }

  lemma LeadPrefix(db: Database, batch: seq<Statement>)
    requires batch != [] && InsertsLead(db, batch)
    ensures InsertsLead(db, batch[..|batch| - 1])
  {
    var less := batch[..|batch| - 1];
    forall i, j | 0 <= i < j < |less| && !less[i].Insert? && less[j].Insert?
      ensures Target(less[i]) != InsertedBy(db, less, j)
    {
      assert less[..j] == batch[..j];
      assert InsertedBy(db, batch, j) == InsertedBy(db, less, j);
    }
  }

  /** Running the inserts first and the rest afterwards is running the batch in order. */
  lemma {:induction false} InsertsFirst(db: Database, batch: seq<Statement>)
    requires InsertsLead(db, batch)
    ensures Run(db, batch) == Run(Run(db, Inserts(batch)), Others(batch))
  {
    if batch != [] {
      var n := |batch| - 1;
      var less, s := batch[..n], batch[n];
      LeadPrefix(db, batch);
      InsertsFirst(db, less);
      var ins, oth := Inserts(less), Others(less);
      if s.Insert? {
        assert (ins + [s])[..|ins|] == ins;
        OthersMembers(less);
        forall o | o in oth ensures Target(o) != Inserted(Run(db, ins), s) {
          var i :| 0 <= i < n && batch[i] == o;
          assert InsertedBy(db, batch, n) == Inserted(Run(db, ins), s);
        }
        InsertPast(Run(db, ins), oth, s);
        assert oth + [] == oth;
      } else {
        assert (oth + [s])[..|oth|] == oth;
        assert ins + [] == ins;
      }
    }
  }

  // ---------------------------------------------------------------- groups in any interleaving

  datatype Group = Group(pool: string, modulo: nat)

  function GroupOf(s: Statement, workers: nat): Group
    requires workers > 0 && !s.Insert?
  {
    Group(s.pool, s.key % workers)
  }

  /** The statements of one group, in order. */
  function InGroup(ss: seq<Statement>, workers: nat, g: Group): seq<Statement>
    requires workers > 0 && forall s :: s in ss ==> !s.Insert?
  {
    if ss == [] then []
    else
      var s := ss[|ss| - 1];
      InGroup(ss[..|ss| - 1], workers, g) + if GroupOf(s, workers) == g then [s] else []
  }

  function OnRow(ss: seq<Statement>, k: RowKey): (r: seq<Statement>)
    ensures forall s :: s in r ==> !s.Insert? && Target(s) == k
  {
    if ss == [] then []
    else
      var s := ss[|ss| - 1];
      OnRow(ss[..|ss| - 1], k) + if !s.Insert? && Target(s) == k then [s] else []
  }

  function InPool(ss: seq<Statement>, pool: string): seq<Statement> {
    if ss == [] then []
    else
      var s := ss[|ss| - 1];
      InPool(ss[..|ss| - 1], pool) + if s.pool == pool then [s] else []
  }

  function Find(db: Database, k: RowKey): Option<Row> {
    if k in db.rows then Some(db.rows[k]) else None
  }

  /** What the statements about a row make of it. */
  function Fold(row: Option<Row>, ss: seq<Statement>): Option<Row> {
    if ss == [] then row
    else
      var r := Fold(row, ss[..|ss| - 1]);
      match ss[|ss| - 1]
      case Update(_, _, _, bind) => if r.Some? then Some(r.value + bind) else None
      case Delete(_, _, _) => None
      case Insert(_, _, _, _) => r
  }

  lemma {:induction false} RowAfter(db: Database, ss: seq<Statement>, k: RowKey)
    requires forall s :: s in ss ==> !s.Insert?
    ensures Find(Run(db, ss), k) == Fold(Find(db, k), OnRow(ss, k))
  {
    if ss != [] {
      var n := |ss| - 1;
      RowAfter(db, ss[..n], k);
      var r := OnRow(ss[..n], k);
      if Target(ss[n]) == k {
        assert (r + [ss[n]])[..|r|] == r;
      } else {
        assert r + [] == r;
      }
    }
  }

  /** Statement lists that agree row by row have the same effect. */
  lemma SameRows(db: Database, ss: seq<Statement>, tt: seq<Statement>)
    requires forall s :: s in ss + tt ==> !s.Insert?
    requires forall k :: OnRow(ss, k) == OnRow(tt, k)
    ensures Run(db, ss) == Run(db, tt)
  {
    var a, b := Run(db, ss), Run(db, tt);
    OthersKeepNext(db, ss);
    OthersKeepNext(db, tt);
    forall k ensures Find(a, k) == Find(b, k) {
      RowAfter(db, ss, k);
      RowAfter(db, tt, k);
    }
    SameFinds(a, b);
  }

  lemma SameFinds(a: Database, b: Database)
    requires a.next == b.next && forall k :: Find(a, k) == Find(b, k)
    ensures a == b
  {
    assert forall k :: k in a.rows <==> Find(a, k).Some?;
    assert forall k :: k in b.rows <==> Find(b, k).Some?;
    forall k | k in a.rows ensures k in b.rows && a.rows[k] == b.rows[k] {
      assert Find(a, k) == Find(b, k);
    }
    forall k | k in b.rows ensures k in a.rows {
      assert Find(a, k) == Find(b, k);
    }
    assert a.rows == b.rows;
  }

  /** All statements about a row are in one group. */
  lemma {:induction false} RowInGroup(ss: seq<Statement>, workers: nat, k: RowKey)
    requires workers > 0 && forall s :: s in ss ==> !s.Insert?
    ensures OnRow(InGroup(ss, workers, Group(k.pool, k.id % workers)), k) == OnRow(ss, k)
  {
    if ss != [] {
      var n, g := |ss| - 1, Group(k.pool, k.id % workers);
      RowInGroup(ss[..n], workers, k);
      var r := InGroup(ss[..n], workers, g);
      if GroupOf(ss[n], workers) == g {
        assert (r + [ss[n]])[..|r|] == r;
      } else {
        assert r + [] == r;
      }
    }
  }

  /** tt is what running the groups of ss concurrently may do: each group's statements in their order. */
  ghost predicate GroupsInterleaved(ss: seq<Statement>, tt: seq<Statement>, workers: nat)
    requires workers > 0
  {
    && (forall s :: s in ss + tt ==> !s.Insert?)
    && forall g :: InGroup(ss, workers, g) == InGroup(tt, workers, g)
  }

  lemma GroupsAgree(db: Database, ss: seq<Statement>, tt: seq<Statement>, workers: nat)
    requires workers > 0 && GroupsInterleaved(ss, tt, workers)
    ensures Run(db, ss) == Run(db, tt)
  {
    forall k ensures OnRow(ss, k) == OnRow(tt, k) {
      RowInGroup(ss, workers, k);
      RowInGroup(tt, workers, k);
    }
    SameRows(db, ss, tt);
  }

  // ---------------------------------------------------------------- inserts of several pools in any interleaving

  function OnPool(db: Database, pool: string): Database {
    Database(RowsOn(db.rows, pool), NextOn(db.next, pool))
  }

  function RowsOn(rows: map<RowKey, Row>, pool: string): map<RowKey, Row> {
    map k | k in rows && k.pool == pool :: rows[k]
  }

  function NextOn(next: map<(string, string), nat>, pool: string): map<(string, string), nat> {
    map t | t in next && t.0 == pool :: next[t]
  }

  lemma RowsOnUpdate(rows: map<RowKey, Row>, pool: string, k: RowKey, row: Row)
    ensures RowsOn(rows[k := row], pool) == if k.pool == pool then RowsOn(rows, pool)[k := row] else RowsOn(rows, pool)
    ensures RowsOn(rows - {k}, pool) == RowsOn(rows, pool) - {k}
    ensures k.pool != pool ==> RowsOn(rows, pool) - {k} == RowsOn(rows, pool)
    ensures k.pool == pool ==> (k in RowsOn(rows, pool) <==> k in rows)
  {
  }

  lemma NextOnUpdate(next: map<(string, string), nat>, pool: string, t: (string, string), n: nat)
    ensures NextOn(next[t := n], pool) == if t.0 == pool then NextOn(next, pool)[t := n] else NextOn(next, pool)
  {
  }

  lemma ExecOnPool(db: Database, s: Statement, pool: string)
    ensures OnPool(Exec(db, s), pool) == if s.pool == pool then Exec(OnPool(db, pool), s) else OnPool(db, pool)
  {
    hide RowsOn, NextOn;
    if s.Insert? {
      var k := Inserted(db, s);
      PoolNext(db, pool, s.table);
      RowsOnUpdate(db.rows, pool, k, s.row);
      NextOnUpdate(db.next, pool, (s.pool, s.table), Max(NextId(db, s.pool, s.table), k.id + 1));
    } else if s.Update? {
      var k := Target(s);
      RowsOnUpdate(db.rows, pool, k, if k in db.rows then db.rows[k] + s.bind else map[]);
      PoolRow(db, pool, k);
    } else {
      RowsOnUpdate(db.rows, pool, Target(s), map[]);
    }
  }

  lemma PoolNext(db: Database, pool: string, table: string)
    ensures NextId(OnPool(db, pool), pool, table) == NextId(db, pool, table)
  {
  }

  lemma PoolRow(db: Database, pool: string, k: RowKey)
    ensures k.pool == pool && k in db.rows ==> k in OnPool(db, pool).rows && OnPool(db, pool).rows[k] == db.rows[k]
  {
  }

  lemma {:induction false} RunOnPool(db: Database, ss: seq<Statement>, pool: string)
    ensures OnPool(Run(db, ss), pool) == Run(OnPool(db, pool), InPool(ss, pool))
  {
    if ss != [] {
      var n := |ss| - 1;
      RunOnPool(db, ss[..n], pool);
      ExecOnPool(Run(db, ss[..n]), ss[n], pool);
      var r := InPool(ss[..n], pool);
      if ss[n].pool == pool {
        assert (r + [ss[n]])[..|r|] == r;
      } else {
        assert r + [] == r;
      }
    }
  }

  ghost predicate PoolsInterleaved(ss: seq<Statement>, tt: seq<Statement>) {
    forall pool :: InPool(ss, pool) == InPool(tt, pool)
  }

  lemma PoolsAgree(db: Database, ss: seq<Statement>, tt: seq<Statement>)
    requires PoolsInterleaved(ss, tt)
    ensures Run(db, ss) == Run(db, tt)
  {
    var a, b := Run(db, ss), Run(db, tt);
    forall pool ensures OnPool(a, pool) == OnPool(b, pool) {
      RunOnPool(db, ss, pool);
      RunOnPool(db, tt, pool);
    }
    SamePools(a, b);
  }

  lemma SamePools(a: Database, b: Database)
    requires forall pool :: OnPool(a, pool) == OnPool(b, pool)
    ensures a == b
  {
    forall k ensures (k in a.rows <==> k in b.rows) && (k in a.rows ==> a.rows[k] == b.rows[k]) {
      assert OnPool(a, k.pool).rows == OnPool(b, k.pool).rows;
      assert k in a.rows <==> k in OnPool(a, k.pool).rows;
      assert k in b.rows <==> k in OnPool(b, k.pool).rows;
    }
    forall t ensures (t in a.next <==> t in b.next) && (t in a.next ==> a.next[t] == b.next[t]) {
      assert OnPool(a, t.0).next == OnPool(b, t.0).next;
      assert t in a.next <==> t in OnPool(a, t.0).next;
      assert t in b.next <==> t in OnPool(b, t.0).next;
    }
    assert a.rows == b.rows && a.next == b.next;
  }

  /**
   * Whatever the interleaving of the pools' inserts and then of the groups, the database ends as if the batch had been
   * run statement by statement.
   */
  lemma BatchIsSequential(db: Database, batch: seq<Statement>, workers: nat, inserted: seq<Statement>, rest: seq<Statement>)
    requires workers > 0 && InsertsLead(db, batch)
    requires PoolsInterleaved(Inserts(batch), inserted) && GroupsInterleaved(Others(batch), rest, workers)
    ensures Run(Run(db, inserted), rest) == Run(db, batch)
  {
    InsertsFirst(db, batch);
    PoolsAgree(db, Inserts(batch), inserted);
    GroupsAgree(Run(db, inserted), Others(batch), rest, workers);
  }

  // ---------------------------------------------------------------- replays

  lemma {:induction false} FoldConcat(row: Option<Row>, p: seq<Statement>, q: seq<Statement>)
    ensures Fold(row, p + q) == Fold(Fold(row, p), q)
  {
    if q == [] {
      assert p + q == p;
    } else {
      FoldConcat(row, p, q[..|q| - 1]);
      assert (p + q)[..|p + q| - 1] == p + q[..|q| - 1];
    }
  }

  /** Updates and deletes overwrite: running them twice in a row is running them once. */
  lemma {:induction false} FoldTwice(row: Option<Row>, ss: seq<Statement>)
    requires forall s :: s in ss ==> !s.Insert?
    ensures Fold(Fold(row, ss), ss) == Fold(row, ss)
    ensures Fold(None, ss) == None
  {
    FoldColumns(row, ss);
    FoldColumns(Fold(row, ss), ss);
    FoldColumns(None, ss);
    if row.Some? {
      assert row.value + Binds(ss) + Binds(ss) == row.value + Binds(ss);
    }
  }

  predicate HasDelete(ss: seq<Statement>) {
    exists s <- ss :: s.Delete?
  }

  function Binds(ss: seq<Statement>): Row {
    if ss == [] then map[]
    else
      var s := ss[|ss| - 1];
      Binds(ss[..|ss| - 1]) + if s.Update? then s.bind else map[]
  }

  /** A row that was deleted stays so; otherwise the statements write their columns over it. */
  lemma {:induction false} FoldColumns(row: Option<Row>, ss: seq<Statement>)
    requires forall s :: s in ss ==> !s.Insert?
    ensures Fold(row, ss) == if row.None? || HasDelete(ss) then None else Some(row.value + Binds(ss))
  {
    if ss != [] {
      var n := |ss| - 1;
      FoldColumns(row, ss[..n]);
      assert HasDelete(ss) <==> HasDelete(ss[..n]) || ss[n].Delete? by {
        assert ss == ss[..n] + [ss[n]];
        if HasDelete(ss[..n]) {
          var s :| s in ss[..n] && s.Delete?;
          assert s in ss;
        }
      }
      if row.Some? {
        var b := if ss[n].Update? then ss[n].bind else map[];
        assert row.value + Binds(ss[..n]) + b == row.value + (Binds(ss[..n]) + b);
      }
    } else if row.Some? {
      assert row.value + map[] == row.value;
    }
  }

  /** Running a suffix of a row's statements once more changes nothing. */
  lemma FoldSuffix(row: Option<Row>, ss: seq<Statement>, k: nat)
    requires k <= |ss| && forall s :: s in ss ==> !s.Insert?
    ensures Fold(Fold(row, ss), ss[k..]) == Fold(row, ss)
  {
    assert ss == ss[..k] + ss[k..];
    FoldConcat(row, ss[..k], ss[k..]);
    FoldTwice(Fold(row, ss[..k]), ss[k..]);
  }

  /** tt redelivers, for every row, a suffix of its statements in ss. */
  ghost predicate RowSuffixes(ss: seq<Statement>, tt: seq<Statement>) {
    forall k :: exists n :: 0 <= n <= |OnRow(ss, k)| && OnRow(tt, k) == OnRow(ss, k)[n..]
  }

  /** After a crash or a retry the statements that were not acknowledged may run again: the database stays as it is. */
  lemma ReplayHarmless(db: Database, ss: seq<Statement>, tt: seq<Statement>)
    requires (forall s :: s in ss + tt ==> !s.Insert?) && RowSuffixes(ss, tt)
    ensures Run(Run(db, ss), tt) == Run(db, ss)
  {
    var a := Run(db, ss);
    var b := Run(a, tt);
    forall k ensures Find(b, k) == Find(a, k) {
      RowAfter(db, ss, k);
      RowAfter(a, tt, k);
      var n :| 0 <= n <= |OnRow(ss, k)| && OnRow(tt, k) == OnRow(ss, k)[n..];
      FoldSuffix(Find(db, k), OnRow(ss, k), n);
    }
    OthersKeepNext(a, tt);
    SameFinds(b, a);
  }

  predicate NoInserts(ss: seq<Statement>) {
    forall s <- ss :: !s.Insert?
  }

  /**
   * A worker that was to run ss stopped: of each row it ran the first e statements, and those from some a on, not after
   * e, were not acknowledged and are delivered again as tt.
   */
  ghost predicate Stopped(ss: seq<Statement>, ran: seq<Statement>, tt: seq<Statement>) {
    NoInserts(ss) && NoInserts(ran) && NoInserts(tt) &&
    forall k :: exists a, e :: RowStopped(OnRow(ss, k), OnRow(ran, k), OnRow(tt, k), a, e)
  }

  predicate RowStopped(ss: seq<Statement>, ran: seq<Statement>, tt: seq<Statement>, a: int, e: int) {
    0 <= a <= e <= |ss| && ran == ss[..e] && tt == ss[a..]
  }

  lemma FoldStopped(row: Option<Row>, ss: seq<Statement>, a: nat, e: nat)
    requires a <= e <= |ss| && NoInserts(ss)
    ensures Fold(Fold(row, ss[..e]), ss[a..]) == Fold(row, ss)
  {
    hide Fold;
    var before, again, rest := ss[..a], ss[a..e], ss[e..];
    assert ss[..e] == before + again && ss[a..] == again + rest && ss == before + again + rest;
    FoldConcat(row, before, again);
    FoldConcat(Fold(row, before + again), again, rest);
    FoldConcat(row, before + again, rest);
    FoldTwice(Fold(row, before), again);
  }

  /** Running what is delivered again after a stop ends as running everything once would have. */
  lemma StopHarmless(db: Database, ss: seq<Statement>, ran: seq<Statement>, tt: seq<Statement>)
    requires Stopped(ss, ran, tt)
    ensures Run(Run(db, ran), tt) == Run(db, ss)
  {
    hide Run, OnRow;
    var middle := Run(db, ran);
    forall k ensures Find(Run(middle, tt), k) == Find(Run(db, ss), k) {
      RowAfter(db, ran, k);
      RowAfter(middle, tt, k);
      RowAfter(db, ss, k);
      var a, e :| RowStopped(OnRow(ss, k), OnRow(ran, k), OnRow(tt, k), a, e);
      FoldStopped(Find(db, k), OnRow(ss, k), a, e);
    }
    OthersKeepNext(db, ran);
    OthersKeepNext(middle, tt);
    OthersKeepNext(db, ss);
    SameFinds(Run(middle, tt), Run(db, ss));
  }

  function RunAll(db: Database, rounds: seq<seq<Statement>>): Database {
    if rounds == [] then db else Run(RunAll(db, rounds[..|rounds| - 1]), rounds[|rounds| - 1])
  }

  /** However often and wherever the workers stop, the database ends as if the batch had run once. */
  lemma {:induction false} StopsHarmless(db: Database, pending: seq<seq<Statement>>, ran: seq<seq<Statement>>)
    requires |pending| == |ran| + 1 && forall j :: 0 <= j < |ran| ==> Stopped(pending[j], ran[j], pending[j + 1])
    ensures Run(RunAll(db, ran), pending[|ran|]) == Run(db, pending[0])
  {
    hide Stopped, Run;
    if ran != [] {
      var n := |ran| - 1;
      StopsHarmless(db, pending[..n + 1], ran[..n]);
      StopHarmless(RunAll(db, ran[..n]), pending[n], ran[n], pending[n + 1]);
    }
  }

  /** An insert that runs again is harmless exactly when it names its row's id. */
  lemma InsertReplay(db: Database, s: Statement)
    requires s.Insert? && Inserted(db, s) !in db.rows
    requires forall k :: k in db.rows && k.pool == s.pool && k.table == s.table ==> k.id < NextId(db, s.pool, s.table)
    ensures Exec(Exec(db, s), s) == Exec(db, s) <==> s.id.Some?
  {
    var once := Exec(db, s);
    if s.id.None? {
      var k := Inserted(once, s);
      assert k !in once.rows && k in Exec(once, s).rows;
    }
  }
}
