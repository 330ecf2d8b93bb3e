/** Warming up along reference paths: a level, then the references of what that level has loaded. */
module WarmUpPaths {
  import opened Wrappers
  import opened WarmUp

  /** The names of a path such as `Author/City`, one for each level. */
  type Path = seq<string>

  function RefsOf(s: State, p: Ptr, name: string): seq<Ptr> {
    if p in s.refs && name in s.refs[p] then s.refs[p][name] else []
  }

  /** x is an object that the rows refer to under this name and that is still to be loaded. */
  ghost predicate Target(s: State, rows: seq<Option<Ptr>>, name: string, x: Ptr) {
    x !in s.loaded && x.key.id > 0 && exists i :: 0 <= i < |rows| && rows[i].Some? && x in RefsOf(s, rows[i].value, name)
  }

  /** Objects made for reference columns belong to a loaded parent, and only it refers to them. */
  ghost predicate WellFormed(s: State) {
    && s.refs.Keys == s.loaded.Keys
    && (forall p :: p in s.loaded && p.Child? ==> p.parent in s.loaded)
    && (forall r, name, x :: r in s.refs && x in RefsOf(s, r, name) && x.Child? ==> x.parent == r)
  }

  /** Loaded objects stay as they are; the others have got their rows. */
  ghost predicate Grows(s: State, t: State, db: Database) {
    && (forall p :: p in s.loaded ==> p in t.loaded && t.loaded[p] == s.loaded[p] && p in s.refs && p in t.refs && t.refs[p] == s.refs[p])
    && (forall p :: p in t.loaded && p !in s.loaded ==>
          p.key in db && t.loaded[p] == db[p.key] && p in t.refs && t.refs[p] == ChildrenOf(p, db[p.key]))
  }

  /** Everything along the rest of a path whose row exists is loaded. */
  ghost predicate Deep(s: State, db: Database, x: Ptr, rest: Path)
    decreases |rest|
  {
    rest == [] ||
    forall y :: y in RefsOf(s, x, rest[0]) && y.key.id > 0 && y.key in db ==> y in s.loaded && Deep(s, db, y, rest[1..])
  }

  /** No object hangs under two of these names. */
  ghost predicate NoSharing(s: State, rows: seq<Option<Ptr>>) {
    forall a, b, x :: Target(s, rows, a, x) && Target(s, rows, b, x) ==> a == b
  }

  lemma {:induction false} DeepGrows(s: State, t: State, db: Database, x: Ptr, rest: Path)
    requires Deep(s, db, x, rest) && x in s.loaded && Grows(s, t, db)
    ensures Deep(t, db, x, rest)
    decreases |rest|
  {
    if rest != [] {
      forall y | y in RefsOf(t, x, rest[0]) && y.key.id > 0 && y.key in db
        ensures y in t.loaded && Deep(t, db, y, rest[1..])
      {
        assert y in RefsOf(s, x, rest[0]);
        DeepGrows(s, t, db, y, rest[1..]);
      }
    }
  }

  lemma GrowsTwice(s: State, t: State, u: State, db: Database)
    requires Grows(s, t, db) && Grows(t, u, db)
    ensures Grows(s, u, db)
  {
  }

  // ---------------------------------------------------------------- what a level does to the objects

  /** All that the references of these rows name. */
  ghost predicate AllTargets(s: State, rows: seq<Option<Ptr>>, names: set<string>, ptrs: seq<Ptr>) {
    forall x :: x in ptrs <==> exists n :: n in names && Target(s, rows, n, x)
  }

  lemma LevelGrows(s: State, t: State, db: Database, rows: seq<Option<Ptr>>, names: set<string>, ptrs: seq<Ptr>)
    requires WellFormed(s) && AllTargets(s, rows, names, ptrs)
    requires t.loaded == s.loaded + FilledRows(db, ptrs, Keys(ptrs)) && t.refs == s.refs + FilledRefs(db, ptrs, Keys(ptrs))
    ensures Grows(s, t, db)
    ensures forall p :: p in t.loaded && p !in s.loaded ==> p in ptrs
    ensures forall p :: p in ptrs && p.key in db ==> p in t.loaded
  {
    hide WellFormed, Target, FilledRows, FilledRefs, ChildrenOf;
    RefsLoaded(s);
    FilledAre(db, ptrs);
    forall p | p in ptrs ensures p !in s.loaded {
      var n :| n in names && Target(s, rows, n, p);
      TargetUnloaded(s, rows, n, p);
    }
    var filled, refs := FilledRows(db, ptrs, Keys(ptrs)), FilledRefs(db, ptrs, Keys(ptrs));
    forall p | p in s.loaded
      ensures p in t.loaded && t.loaded[p] == s.loaded[p] && p in s.refs && p in t.refs && t.refs[p] == s.refs[p]
    {
      assert p !in filled && p !in refs;
    }
    forall p | p in t.loaded && p !in s.loaded
      ensures p in ptrs && p.key in db && t.loaded[p] == db[p.key] && p in t.refs && t.refs[p] == ChildrenOf(p, db[p.key])
    {
      assert p in filled && p in refs;
    }
  }

  lemma TargetUnloaded(s: State, rows: seq<Option<Ptr>>, name: string, x: Ptr)
    requires Target(s, rows, name, x)
    ensures x !in s.loaded
  {
  }

  lemma FilledAre(db: Database, ptrs: seq<Ptr>)
    ensures
      var rows, refs := FilledRows(db, ptrs, Keys(ptrs)), FilledRefs(db, ptrs, Keys(ptrs));
      && (forall p :: p in rows <==> p in ptrs && p.key in db)
      && (forall p :: p in refs <==> p in ptrs && p.key in db)
      && (forall p :: p in rows ==> p.key in db && rows[p] == db[p.key] && refs[p] == ChildrenOf(p, db[p.key]))
  {
    hide ChildrenOf;
  }

  lemma RefsLoaded(s: State)
    requires WellFormed(s)
    ensures s.refs.Keys == s.loaded.Keys
  {
  }

  lemma TargetParent(s: State, rows: seq<Option<Ptr>>, name: string, x: Ptr)
    requires WellFormed(s) && Target(s, rows, name, x) && x.Child?
    ensures x.parent in s.loaded && x.parent in s.refs && x in RefsOf(s, x.parent, name) && Some(x.parent) in rows
  {
    var i :| 0 <= i < |rows| && rows[i].Some? && x in RefsOf(s, rows[i].value, name);
  }

  lemma ChildrenBelong(p: Ptr, row: Row, name: string, x: Ptr)
    requires name in ChildrenOf(p, row) && x in ChildrenOf(p, row)[name]
    ensures x.Child? && x.parent == p && x.name == name
  {
  }

  lemma LevelWellFormed(s: State, t: State, db: Database, rows: seq<Option<Ptr>>, names: set<string>, ptrs: seq<Ptr>)
    requires WellFormed(s) && AllTargets(s, rows, names, ptrs) && Grows(s, t, db) && t.refs.Keys == t.loaded.Keys
    requires forall p :: p in t.loaded && p !in s.loaded ==> p in ptrs
    ensures WellFormed(t)
  {
    hide ChildrenOf;
    forall p | p in t.loaded && p.Child? ensures p.parent in t.loaded {
      if p !in s.loaded {
        var n :| n in names && Target(s, rows, n, p);
        TargetParent(s, rows, n, p);
      }
    }
    forall r, name, x | r in t.refs && x in RefsOf(t, r, name) && x.Child? ensures x.parent == r {
      if r in s.loaded {
        assert x in RefsOf(s, r, name);
      } else {
        ChildrenBelong(r, db[r.key], name, x);
      }
    }
  }

  // ---------------------------------------------------------------- collecting

  /** The unloaded objects that the rows refer to under a name. */
  method Collect(e: Engine, rows: seq<Option<Ptr>>, name: string) returns (ptrs: seq<Ptr>)
    ensures forall x :: x in ptrs <==> Target(e.Now(), rows, name, x)
  {
    ptrs := [];
    for i := 0 to |rows|
      invariant forall x :: x in ptrs <==> Target(e.Now(), rows[..i], name, x)
    {
      TargetStep(e.Now(), rows, i, name);
      if rows[i].Some? {
        var list := RefsIn(e, rows[i].value, name);
        var found := Unloaded(e, list);
        ptrs := ptrs + found;
      }
    }
    assert rows[..|rows|] == rows;
  }

  lemma TargetStep(s: State, rows: seq<Option<Ptr>>, i: nat, name: string)
    requires i < |rows|
    ensures forall x :: Target(s, rows[..i + 1], name, x) <==>
      Target(s, rows[..i], name, x) || (rows[i].Some? && x in RefsOf(s, rows[i].value, name) && x !in s.loaded && x.key.id > 0)
  {
    var more := rows[..i + 1];
    assert more == rows[..i] + [rows[i]];
    forall x | Target(s, rows[..i], name, x) ensures Target(s, more, name, x) {
      var j :| 0 <= j < i && rows[..i][j].Some? && x in RefsOf(s, rows[..i][j].value, name);
      assert more[j] == rows[..i][j];
    }
    forall x | Target(s, more, name, x)
      ensures Target(s, rows[..i], name, x) || (rows[i].Some? && x in RefsOf(s, rows[i].value, name))
    {
      var j :| 0 <= j < |more| && more[j].Some? && x in RefsOf(s, more[j].value, name);
      if j < i {
        assert rows[..i][j] == more[j];
      }
    }
    assert more[i] == rows[i];
  }

  method RefsIn(e: Engine, p: Ptr, name: string) returns (list: seq<Ptr>)
    ensures list == RefsOf(e.Now(), p, name)
  {
    list := [];
    if p in e.refs && name in e.refs[p] {
      list := e.refs[p][name];
    }
  }

  method Unloaded(e: Engine, list: seq<Ptr>) returns (found: seq<Ptr>)
    ensures forall x :: x in found <==> x in list && x !in e.loaded && x.key.id > 0
  {
    found := [];
    for i := 0 to |list|
      invariant forall x :: x in found <==> x in list[..i] && x !in e.loaded && x.key.id > 0
    {
      assert list[..i + 1] == list[..i] + [list[i]];
      if list[i] !in e.loaded {
        if list[i].key.id > 0 {
          found := found + [list[i]];
        }
      }
    }
    assert list[..|list|] == list;
  }

  // ---------------------------------------------------------------- grouping the paths by their first name

  function Total(references: seq<Path>): nat {
    if references == [] then 0 else Total(references[..|references| - 1]) + |references[|references| - 1]|
  }

  /** The rests of the longer paths that start with each name. */
  ghost predicate NamesGrouped(references: seq<Path>, names: map<string, seq<Path>>) {
    && (forall i :: 0 <= i < |references| && |references[i]| > 1 ==>
          references[i][0] in names && references[i][1..] in names[references[i][0]])
    && (forall n :: n in names ==> Paths(names[n]) && Total(names[n]) < Total(references))
  }

  /** The objects that longer paths go on from. */
  ghost predicate EntitiesGrouped(s: State, rows: seq<Option<Ptr>>, references: seq<Path>, entities: map<string, seq<Ptr>>) {
    forall n :: n in entities ==> n in FirstNames(references) && forall x :: x in entities[n] <==> Target(s, rows, n, x)
  }

  function FirstNames(references: seq<Path>): (r: set<string>) {
    set i | 0 <= i < |references| && references[i] != [] :: references[i][0]
  }

  ghost predicate Paths(references: seq<Path>) {
    forall i :: 0 <= i < |references| ==> references[i] != []
  }

  /** Every path ends with its first name. */
  ghost predicate OneStep(references: seq<Path>) {
    forall i :: 0 <= i < |references| ==> |references[i]| == 1
  }

  lemma TotalStep(references: seq<Path>, i: nat)
    requires i < |references|
    ensures Total(references[..i + 1]) == Total(references[..i]) + |references[i]|
  {
    assert references[..i + 1][..i] == references[..i];
  }

  lemma NamesStep(references: seq<Path>, i: nat, names: map<string, seq<Path>>)
    requires i < |references| && Paths(references) && NamesGrouped(references[..i], names)
    ensures
      var r := references[i];
      NamesGrouped(references[..i + 1],
        if |r| > 1 then names[r[0] := (if r[0] in names then names[r[0]] else []) + [r[1..]]] else names)
  {
    var r := references[i];
    TotalStep(references, i);
    var list := if r[0] in names then names[r[0]] else [];
    if |r| > 1 {
      var longer := list + [r[1..]];
      TotalStep(longer, |list|);
      assert longer[..|list|] == list && longer[..|list| + 1] == longer;
      assert longer[|list|] == r[1..];
      forall j | 0 <= j < i && |references[j]| > 1 && references[j][0] == r[0] ensures references[j][1..] in longer {
        assert references[..i][j] == references[j];
      }
      forall j | 0 <= j < i && |references[j]| > 1 ensures references[j][0] in names && references[j][1..] in names[references[j][0]] {
        assert references[..i][j] == references[j];
      }
    } else {
      forall j | 0 <= j < i && |references[j]| > 1 ensures references[j][0] in names && references[j][1..] in names[references[j][0]] {
        assert references[..i][j] == references[j];
      }
    }
  }

  /** Splits the paths and collects what the rows refer to by their first names. */
  method GroupPaths(e: Engine, rows: seq<Option<Ptr>>, references: seq<Path>)
    returns (ptrs: seq<Ptr>, names: map<string, seq<Path>>, entities: map<string, seq<Ptr>>)
    requires Paths(references)
    ensures AllTargets(e.Now(), rows, FirstNames(references), ptrs)
    ensures NamesGrouped(references, names) && EntitiesGrouped(e.Now(), rows, references, entities) && entities.Keys == names.Keys
    ensures OneStep(references) ==> names == map[]
  {
    hide Target, NamesGrouped, FirstNames;
    ptrs, names, entities := [], map[], map[];
    NothingGrouped(e.Now(), rows);
    assert references[..0] == [];
    for i := 0 to |references|
      invariant AllTargets(e.Now(), rows, FirstNames(references[..i]), ptrs)
      invariant NamesGrouped(references[..i], names) && entities.Keys == names.Keys
      invariant EntitiesGrouped(e.Now(), rows, references[..i], entities)
      invariant OneStep(references) ==> names == map[]
    {
      var r := references[i];
      var name := r[0];
      var found := Collect(e, rows, name);
      NamesStep(references, i, names);
      FirstStep(references, i);
      if |r| > 1 {
        names := names[name := (if name in names then names[name] else []) + [r[1..]]];
        entities := entities[name := []];
      }
      ptrs := ptrs + found;
      if name in entities {
        entities := entities[name := entities[name] + found];
      }
    }
    assert references[..|references|] == references;
  }

  lemma NothingGrouped(s: State, rows: seq<Option<Ptr>>)
    ensures NamesGrouped([], map[]) && AllTargets(s, rows, FirstNames([]), [])
  {
  }

  lemma FirstStep(references: seq<Path>, i: nat)
    requires i < |references| && Paths(references)
    ensures FirstNames(references[..i + 1]) == FirstNames(references[..i]) + {references[i][0]}
  {
    assert forall j :: 0 <= j < i ==> references[..i + 1][j] == references[..i][j];
  }

  // ---------------------------------------------------------------- all levels

  function Rows(ptrs: seq<Ptr>): seq<Option<Ptr>> {
    seq(|ptrs|, i requires 0 <= i < |ptrs| => Some(ptrs[i]))
  }

  /** The i-th object that x refers to under a name. */
  function RefAt(s: State, x: Ptr, name: string, i: nat): Option<Ptr> {
    if i < |RefsOf(s, x, name)| then Some(RefsOf(s, x, name)[i]) else None
  }

  /**
   * Following a path from an object that holds its row: the i-th object under the next name has the i-th key of the row's
   * column, and holds the row of this key if there is one; and so on from there.
   */
  ghost predicate Reached(s: State, db: Database, x: Ptr, rest: Path)
    decreases |rest|
  {
    && x in s.loaded && x.key in db && s.loaded[x] == db[x.key]
    && (rest != [] && rest[0] in db[x.key].refs ==>
          forall i :: 0 <= i < |db[x.key].refs[rest[0]]| ==>
            var y := RefAt(s, x, rest[0], i);
            && y.Some? && y.value.key == db[x.key].refs[rest[0]][i]
            && (y.value.key.id > 0 && y.value.key in db ==> Reached(s, db, y.value, rest[1..])))
  }

  /** What has been loaded since s holds its row and refers to what the row names. */
  ghost predicate Filled(s: State, t: State, db: Database) {
    forall p :: p in t.loaded && p !in s.loaded ==>
      p.key in db && t.loaded[p] == db[p.key] && p in t.refs && RefersTo(t.refs[p], db[p.key])
  }

  lemma GrowsFilled(s: State, t: State, db: Database)
    requires Grows(s, t, db)
    ensures Filled(s, t, db)
  {
    hide ChildrenOf, RefersTo;
    forall p | p in t.loaded && p !in s.loaded ensures RefersTo(t.refs[p], db[p.key]) {
      ChildrenRefer(p, db[p.key]);
    }
  }

  lemma {:induction false} DeepReached(s: State, t: State, db: Database, x: Ptr, rest: Path)
    requires WellFormed(s) && WellFormed(t) && Grows(s, t, db) && x in t.loaded && x !in s.loaded && Deep(t, db, x, rest)
    ensures Reached(t, db, x, rest)
    decreases |rest|
  {
    hide ChildrenOf, RefersTo, WellFormed;
    GrowsFilled(s, t, db);
    if rest != [] && rest[0] in db[x.key].refs {
      forall i | 0 <= i < |db[x.key].refs[rest[0]]|
        ensures RefAt(t, x, rest[0], i).Some? && RefAt(t, x, rest[0], i).value.key == db[x.key].refs[rest[0]][i]
        ensures
          var y := RefAt(t, x, rest[0], i).value;
          y.key.id > 0 && y.key in db ==> Reached(t, db, y, rest[1..])
      {
        RefIs(t, x, db[x.key], rest[0], i);
        var y := RefAt(t, x, rest[0], i).value;
        if y.key.id > 0 && y.key in db {
          ChildrenBelong(x, db[x.key], rest[0], y);
          NewChild(s, x, y);
          DeepReached(s, t, db, y, rest[1..]);
        }
      }
    }
  }

  lemma RefIs(s: State, x: Ptr, row: Row, name: string, i: nat)
    requires x in s.refs && RefersTo(s.refs[x], row) && name in row.refs && i < |row.refs[name]|
    ensures RefAt(s, x, name, i).Some? && RefAt(s, x, name, i).value.key == row.refs[name][i]
  {
  }

  lemma NewChild(s: State, x: Ptr, y: Ptr)
    requires WellFormed(s) && x !in s.loaded && y.Child? && y.parent == x
    ensures y !in s.loaded
  {
  }

  /** What warming up these paths has done, from s to t. */
  ghost predicate Warmed(s: State, t: State, db: Database, rows: seq<Option<Ptr>>, references: seq<Path>)
    requires Paths(references)
  {
    && WellFormed(t) && Grows(s, t, db)
    && (forall p :: p in t.loaded && p !in s.loaded ==>
          (exists n :: n in FirstNames(references) && Target(s, rows, n, p)) || (p.Child? && p.parent !in s.loaded))
    && (forall i, x :: 0 <= i < |references| && Target(s, rows, references[i][0], x) && x.key in db ==>
          x in t.loaded && (NoSharing(s, rows) ==> Deep(t, db, x, references[i][1..])))
  }

  /** The paths through the names in done have been followed from the objects of the level. */
  ghost predicate Followed(s: State, mid: State, now: State, db: Database, rows: seq<Option<Ptr>>,
                           names: map<string, seq<Path>>, entities: map<string, seq<Ptr>>, done: set<string>)
    requires names.Keys == entities.Keys && done <= names.Keys
  {
    && WellFormed(now) && Grows(mid, now, db)
    && (forall p :: p in now.loaded && p !in mid.loaded ==>
          p.Child? && (p.parent !in mid.loaded || exists n :: n in done && p.parent in entities[n]))
    && (NoSharing(s, rows) ==> forall n, x, j :: n in done && x in entities[n] && x.key in db && 0 <= j < |names[n]| ==>
          Deep(now, db, x, names[n][j]))
  }

  /** What the level has made of the objects that longer paths go on from. */
  ghost predicate LevelDone(s: State, mid: State, db: Database, rows: seq<Option<Ptr>>, references: seq<Path>,
                            names: map<string, seq<Path>>, entities: map<string, seq<Ptr>>) {
    && WellFormed(s) && WellFormed(mid) && Grows(s, mid, db) && names.Keys == entities.Keys
    && EntitiesGrouped(s, rows, references, entities)
    && (forall p :: p in mid.loaded && p !in s.loaded ==> exists n :: n in FirstNames(references) && Target(s, rows, n, p))
    && (forall n, x :: n in entities && x in entities[n] ==> Target(s, rows, n, x) && (x.key in db ==> x in mid.loaded))
  }

  /** The objects a level has filled refer to objects of their own, none of which is loaded yet. */
  lemma OwnChildren(s: State, mid: State, db: Database, rows: seq<Option<Ptr>>, references: seq<Path>,
                    names: map<string, seq<Path>>, entities: map<string, seq<Ptr>>, n: string, x: Ptr, a: string, y: Ptr)
    requires LevelDone(s, mid, db, rows, references, names, entities) && n in entities && x in entities[n]
    requires y in RefsOf(mid, x, a)
    ensures x in mid.loaded && x.key in db && y.Child? && y.parent == x && y.name == a && y !in mid.loaded
  {
    hide ChildrenOf;
    assert Target(s, rows, n, x);
    ChildrenBelong(x, db[x.key], a, y);
    if y in mid.loaded && y !in s.loaded {
      var m :| m in FirstNames(references) && Target(s, rows, m, y);
      TargetParent(s, rows, m, y);
    }
  }

  /** What an object of the level refers to later is what it referred to then. */
  lemma LaterChildren(s: State, mid: State, now: State, db: Database, rows: seq<Option<Ptr>>, references: seq<Path>,
                      names: map<string, seq<Path>>, entities: map<string, seq<Ptr>>, n: string, x: Ptr, a: string, y: Ptr)
    requires LevelDone(s, mid, db, rows, references, names, entities) && n in entities && x in entities[n]
    requires WellFormed(now) && Grows(mid, now, db) && y in RefsOf(now, x, a)
    ensures y in RefsOf(mid, x, a)
  {
    hide Target, ChildrenOf;
    assert x in now.loaded;
  }

  lemma FollowedSharing(s: State, mid: State, now: State, db: Database, rows: seq<Option<Ptr>>, references: seq<Path>,
                        names: map<string, seq<Path>>, entities: map<string, seq<Ptr>>, n: string)
    requires LevelDone(s, mid, db, rows, references, names, entities) && n in entities
    requires WellFormed(now) && Grows(mid, now, db)
    ensures NoSharing(now, Rows(entities[n]))
  {
    hide LevelDone, WellFormed, Grows;
    var es := Rows(entities[n]);
    forall a, b, y | Target(now, es, a, y) && Target(now, es, b, y) ensures a == b {
      var i :| 0 <= i < |es| && es[i].Some? && y in RefsOf(now, es[i].value, a);
      var j :| 0 <= j < |es| && es[j].Some? && y in RefsOf(now, es[j].value, b);
      LaterChildren(s, mid, now, db, rows, references, names, entities, n, entities[n][i], a, y);
      OwnChildren(s, mid, db, rows, references, names, entities, n, entities[n][i], a, y);
      LaterChildren(s, mid, now, db, rows, references, names, entities, n, entities[n][j], b, y);
      OwnChildren(s, mid, db, rows, references, names, entities, n, entities[n][j], b, y);
    }
  }

  /** An object's own child is still to be loaded when its name's turn comes. */
  lemma StillTarget(s: State, mid: State, now: State, db: Database, rows: seq<Option<Ptr>>, references: seq<Path>,
                    names: map<string, seq<Path>>, entities: map<string, seq<Ptr>>, done: set<string>,
                    n: string, x: Ptr, a: string, y: Ptr)
    requires LevelDone(s, mid, db, rows, references, names, entities) && n in entities && x in entities[n]
    requires done <= names.Keys && n !in done && NoSharing(s, rows)
    requires Followed(s, mid, now, db, rows, names, entities, done)
    requires y in RefsOf(mid, x, a) && y.key.id > 0
    ensures Target(now, Rows(entities[n]), a, y)
  {
    OwnChildren(s, mid, db, rows, references, names, entities, n, x, a, y);
    assert Target(s, rows, n, x);
    forall m | m in done ensures x !in entities[m] {}
    var i :| 0 <= i < |entities[n]| && entities[n][i] == x;
    assert Rows(entities[n])[i] == Some(x);
    assert y in RefsOf(now, x, a);
  }

  lemma DeepOfName(s: State, mid: State, now: State, after: State, db: Database, rows: seq<Option<Ptr>>, references: seq<Path>,
                   names: map<string, seq<Path>>, entities: map<string, seq<Ptr>>, done: set<string>, n: string, x: Ptr, j: nat)
    requires names.Keys == entities.Keys
    requires LevelDone(s, mid, db, rows, references, names, entities) && n in entities && x in entities[n] && x.key in db
    requires done <= names.Keys && n !in done && NoSharing(s, rows)
    requires Followed(s, mid, now, db, rows, names, entities, done)
    requires Paths(names[n]) && j < |names[n]| && Warmed(now, after, db, Rows(entities[n]), names[n])
    ensures Deep(after, db, x, names[n][j])
  {
    hide LevelDone, Followed, WellFormed;
    var t := names[n][j];
    FollowedFacts(s, mid, now, db, rows, names, entities, done);
    LevelFacts(s, mid, db, rows, references, names, entities, n, x);
    FollowedSharing(s, mid, now, db, rows, references, names, entities, n);
    forall y | y in RefsOf(after, x, t[0]) && y.key.id > 0 && y.key in db
      ensures y in after.loaded && Deep(after, db, y, t[1..])
    {
      assert y in RefsOf(mid, x, t[0]);
      StillTarget(s, mid, now, db, rows, references, names, entities, done, n, x, t[0], y);
    }
  }

  lemma FollowedFacts(s: State, mid: State, now: State, db: Database, rows: seq<Option<Ptr>>,
                      names: map<string, seq<Path>>, entities: map<string, seq<Ptr>>, done: set<string>)
    requires names.Keys == entities.Keys && done <= names.Keys && Followed(s, mid, now, db, rows, names, entities, done)
    ensures WellFormed(now) && Grows(mid, now, db)
  {
  }

  lemma LevelFacts(s: State, mid: State, db: Database, rows: seq<Option<Ptr>>, references: seq<Path>,
                   names: map<string, seq<Path>>, entities: map<string, seq<Ptr>>, n: string, x: Ptr)
    requires LevelDone(s, mid, db, rows, references, names, entities) && n in entities && x in entities[n] && x.key in db
    ensures x in mid.loaded && x !in s.loaded && x in mid.refs
  {
  }

  lemma StaysLoaded(s: State, t: State, db: Database, x: Ptr)
    requires Grows(s, t, db) && x in s.loaded
    ensures x in t.loaded
  {
  }

  /** Following the paths of one more name. */
  lemma FollowedStep(s: State, mid: State, now: State, after: State, db: Database, rows: seq<Option<Ptr>>, references: seq<Path>,
                     names: map<string, seq<Path>>, entities: map<string, seq<Ptr>>, done: set<string>, n: string)
    requires names.Keys == entities.Keys
    requires LevelDone(s, mid, db, rows, references, names, entities) && n in entities
    requires done <= names.Keys && n !in done && Followed(s, mid, now, db, rows, names, entities, done)
    requires Paths(names[n]) && Warmed(now, after, db, Rows(entities[n]), names[n])
    ensures Followed(s, mid, after, db, rows, names, entities, done + {n})
  {
    hide LevelDone, ChildrenOf, NoSharing, Deep, WellFormed, Grows;
    forall p | p in after.loaded && p !in now.loaded
      ensures p.Child? && (p.parent in entities[n] || p.parent !in now.loaded)
    {
      NewOnes(s, mid, now, after, db, rows, references, names, entities, n, p);
    }
    GrowsTwice(mid, now, after, db);
    FrameStep(mid, now, after, db, entities, done, n);
    if NoSharing(s, rows) {
      forall m, x, j | m in done + {n} && x in entities[m] && x.key in db && 0 <= j < |names[m]|
        ensures Deep(after, db, x, names[m][j])
      {
        LevelFacts(s, mid, db, rows, references, names, entities, m, x);
        if m in done {
          StaysLoaded(mid, now, db, x);
          DeepGrows(now, after, db, x, names[m][j]);
        } else {
          DeepOfName(s, mid, now, after, db, rows, references, names, entities, done, n, x, j);
        }
      }
    }
  }

  /** What following a name loads are children of its objects, and what hangs below those. */
  lemma NewOnes(s: State, mid: State, now: State, after: State, db: Database, rows: seq<Option<Ptr>>, references: seq<Path>,
                names: map<string, seq<Path>>, entities: map<string, seq<Ptr>>, n: string, p: Ptr)
    requires LevelDone(s, mid, db, rows, references, names, entities) && n in names && n in entities
    requires WellFormed(now) && Grows(mid, now, db)
    requires Paths(names[n]) && Warmed(now, after, db, Rows(entities[n]), names[n])
    requires p in after.loaded && p !in now.loaded
    ensures p.Child? && (p.parent in entities[n] || p.parent !in now.loaded)
  {
    hide LevelDone, Deep, NoSharing, ChildrenOf, WellFormed, Grows;
    if a :| a in FirstNames(names[n]) && Target(now, Rows(entities[n]), a, p) {
      var i :| 0 <= i < |Rows(entities[n])| && Rows(entities[n])[i].Some? && p in RefsOf(now, Rows(entities[n])[i].value, a);
      var x := entities[n][i];
      LaterChildren(s, mid, now, db, rows, references, names, entities, n, x, a, p);
      OwnChildren(s, mid, db, rows, references, names, entities, n, x, a, p);
    }
  }

  lemma FrameStep(mid: State, now: State, after: State, db: Database, entities: map<string, seq<Ptr>>, done: set<string>, n: string)
    requires Grows(mid, now, db) && Grows(now, after, db) && done <= entities.Keys && n in entities
    requires forall p :: p in now.loaded && p !in mid.loaded ==>
      p.Child? && (p.parent !in mid.loaded || exists m :: m in done && p.parent in entities[m])
    requires forall p :: p in after.loaded && p !in now.loaded ==> p.Child? && (p.parent in entities[n] || p.parent !in now.loaded)
    ensures forall p :: p in after.loaded && p !in mid.loaded ==>
      p.Child? && (p.parent !in mid.loaded || exists m :: m in done + {n} && p.parent in entities[m])
  {
    hide ChildrenOf;
    forall p | p in after.loaded && p !in mid.loaded
      ensures p.Child? && (p.parent !in mid.loaded || exists m :: m in done + {n} && p.parent in entities[m])
    {
      if p in now.loaded {
        if p.parent in mid.loaded {
          var m :| m in done && p.parent in entities[m];
          assert m in done + {n};
        }
      } else {
        assert n in done + {n};
      }
    }
  }

  lemma FollowedStart(s: State, mid: State, db: Database, rows: seq<Option<Ptr>>,
                      names: map<string, seq<Path>>, entities: map<string, seq<Ptr>>)
    requires WellFormed(mid) && names.Keys == entities.Keys
    ensures Followed(s, mid, mid, db, rows, names, entities, {})
  {
  }

  lemma WarmedEnd(s: State, mid: State, now: State, db: Database, rows: seq<Option<Ptr>>, references: seq<Path>,
                  names: map<string, seq<Path>>, entities: map<string, seq<Ptr>>, ptrs: seq<Ptr>)
    requires Paths(references) && NamesGrouped(references, names) && AllTargets(s, rows, FirstNames(references), ptrs)
    requires names.Keys == entities.Keys && EntitiesGrouped(s, rows, references, entities)
    requires LevelDone(s, mid, db, rows, references, names, entities)
    requires forall p :: p in ptrs && p.key in db ==> p in mid.loaded
    requires Followed(s, mid, now, db, rows, names, entities, names.Keys)
    ensures Warmed(s, now, db, rows, references)
  {
    hide ChildrenOf, Target, NoSharing, LevelDone, Deep, NamesGrouped, WellFormed, AllTargets, Grows;
    MidGrows(s, mid, db, rows, references, names, entities);
    GrowsTwice(s, mid, now, db);
    forall i, x | 0 <= i < |references| && Target(s, rows, references[i][0], x) && x.key in db
      ensures x in now.loaded && (NoSharing(s, rows) ==> Deep(now, db, x, references[i][1..]))
    {
      PathFollowed(s, mid, now, db, rows, references, names, entities, ptrs, i, x);
    }
    forall p | p in now.loaded && p !in s.loaded
      ensures (exists n :: n in FirstNames(references) && Target(s, rows, n, p)) || (p.Child? && p.parent !in s.loaded)
    {
      NewOrBelow(s, mid, now, db, rows, references, names, entities, p);
    }
  }

  lemma MidGrows(s: State, mid: State, db: Database, rows: seq<Option<Ptr>>, references: seq<Path>,
                 names: map<string, seq<Path>>, entities: map<string, seq<Ptr>>)
    requires LevelDone(s, mid, db, rows, references, names, entities)
    ensures Grows(s, mid, db)
  {
  }

  lemma PathFollowed(s: State, mid: State, now: State, db: Database, rows: seq<Option<Ptr>>, references: seq<Path>,
                     names: map<string, seq<Path>>, entities: map<string, seq<Ptr>>, ptrs: seq<Ptr>, i: nat, x: Ptr)
    requires Paths(references) && NamesGrouped(references, names) && AllTargets(s, rows, FirstNames(references), ptrs)
    requires names.Keys == entities.Keys && EntitiesGrouped(s, rows, references, entities)
    requires forall p :: p in ptrs && p.key in db ==> p in mid.loaded
    requires Followed(s, mid, now, db, rows, names, entities, names.Keys)
    requires i < |references| && Target(s, rows, references[i][0], x) && x.key in db
    ensures x in now.loaded && (NoSharing(s, rows) ==> Deep(now, db, x, references[i][1..]))
  {
    hide ChildrenOf, Target, NoSharing, WellFormed;
    var n := references[i][0];
    assert n in FirstNames(references);
    assert x in ptrs;
    if |references[i]| > 1 {
      assert n in names && references[i][1..] in names[n];
      var j :| 0 <= j < |names[n]| && names[n][j] == references[i][1..];
      assert x in entities[n];
    }
  }

  lemma NewOrBelow(s: State, mid: State, now: State, db: Database, rows: seq<Option<Ptr>>, references: seq<Path>,
                   names: map<string, seq<Path>>, entities: map<string, seq<Ptr>>, p: Ptr)
    requires LevelDone(s, mid, db, rows, references, names, entities) && names.Keys == entities.Keys
    requires Followed(s, mid, now, db, rows, names, entities, names.Keys) && p in now.loaded && p !in s.loaded
    ensures (exists n :: n in FirstNames(references) && Target(s, rows, n, p)) || (p.Child? && p.parent !in s.loaded)
  {
    hide ChildrenOf, Target, NoSharing, WellFormed, Deep;
    if p !in mid.loaded && p.parent in mid.loaded {
      var m :| m in names.Keys && p.parent in entities[m];
      TargetUnloaded(s, rows, m, p.parent);
    }
  }

  /**
   * Loads what the rows refer to along these paths. Every unloaded object named by the first step of a path gets its
   * row if there is one; so does everything further along the path, unless an object hangs under two of the names.
   */
  method WarmUpReferences(e: Engine, rows: seq<Option<Ptr>>, references: seq<Path>)
    requires Paths(references) && WellFormed(e.Now()) && Coherent(e.Now(), e.db)
    modifies e
    ensures Coherent(e.Now(), e.db) && Warmed(old(e.Now()), e.Now(), e.db, rows, references)
    ensures OneStep(references) ==> OnlyTargets(old(e.Now()), e.Now(), rows, references)
    ensures Filled(old(e.Now()), e.Now(), e.db)
    ensures NoSharing(old(e.Now()), rows) ==>
      forall i, x :: 0 <= i < |references| && Target(old(e.Now()), rows, references[i][0], x) && x.key in e.db ==>
        Reached(e.Now(), e.db, x, references[i][1..])
    decreases Total(references)
  {
    hide Filled, Reached, OneStep, OnlyTargets, Target, WellFormed, Grows, Followed, LevelDone;
    hide Warmed, NamesGrouped, AllTargets, EntitiesGrouped, FirstNames, Level, Coherent;
    ghost var s := e.Now();
    var ptrs, names, entities := GroupPaths(e, rows, references);
    UnloadedTargets(s, rows, FirstNames(references), ptrs);
    var asked := e.WarmLevel(ptrs);
    ghost var mid := e.Now();
    LevelCoherent(s, e.db, e.hasLocal, e.hasRedis, ptrs);
    AfterLevel(s, mid, e.db, e.hasLocal, e.hasRedis, rows, references, names, entities, ptrs);
    LevelTargets(s, mid, e.db, rows, references, names, entities);
    FollowedStart(s, mid, e.db, rows, names, entities);
    var left := entities.Keys;
    assert names.Keys - left == {};
    while left != {}
      invariant left <= names.Keys && names.Keys == entities.Keys
      invariant Coherent(e.Now(), e.db)
      invariant Followed(s, mid, e.Now(), e.db, rows, names, entities, names.Keys - left)
      invariant names == map[] ==> e.Now() == mid
      decreases |left|
    {
      var n :| n in left;
      ghost var now := e.Now();
      FollowedFacts(s, mid, now, e.db, rows, names, entities, names.Keys - left);
      ShorterPaths(references, names, n);
      if |entities[n]| > 0 {
        WarmUpReferences(e, Rows(entities[n]), names[n]);
      } else {
        NothingToWarm(now, e.db, names[n]);
      }
      FollowedStep(s, mid, now, e.Now(), e.db, rows, references, names, entities, names.Keys - left, n);
      assert names.Keys - (left - {n}) == names.Keys - left + {n};
      left := left - {n};
    }
    assert names.Keys - {} == names.Keys;
    WarmedEnd(s, mid, e.Now(), e.db, rows, references, names, entities, ptrs);
    WarmedReached(s, e.Now(), e.db, rows, references);
  }

  lemma WarmedReached(s: State, t: State, db: Database, rows: seq<Option<Ptr>>, references: seq<Path>)
    requires Paths(references) && WellFormed(s) && Warmed(s, t, db, rows, references)
    ensures Filled(s, t, db)
    ensures NoSharing(s, rows) ==>
      forall i, x :: 0 <= i < |references| && Target(s, rows, references[i][0], x) && x.key in db ==>
        Reached(t, db, x, references[i][1..])
  {
    hide Target, WellFormed, Grows, Deep, NoSharing, Filled, Reached;
    GrowsFilled(s, t, db);
    if NoSharing(s, rows) {
      forall i, x | 0 <= i < |references| && Target(s, rows, references[i][0], x) && x.key in db
        ensures Reached(t, db, x, references[i][1..])
      {
        TargetUnloaded(s, rows, references[i][0], x);
        DeepReached(s, t, db, x, references[i][1..]);
      }
    }
  }

  /** Only what the first names of the paths lead to has been loaded. */
  ghost predicate OnlyTargets(s: State, t: State, rows: seq<Option<Ptr>>, references: seq<Path>) {
    forall p :: p in t.loaded && p !in s.loaded ==> exists n :: n in FirstNames(references) && Target(s, rows, n, p)
  }

  lemma LevelTargets(s: State, mid: State, db: Database, rows: seq<Option<Ptr>>, references: seq<Path>,
                     names: map<string, seq<Path>>, entities: map<string, seq<Ptr>>)
    requires LevelDone(s, mid, db, rows, references, names, entities)
    ensures OnlyTargets(s, mid, rows, references)
  {
  }

  lemma NothingToWarm(s: State, db: Database, references: seq<Path>)
    requires WellFormed(s) && Paths(references)
    ensures Warmed(s, s, db, Rows([]), references)
  {
    hide ChildrenOf;
  }

  lemma ShorterPaths(references: seq<Path>, names: map<string, seq<Path>>, n: string)
    requires NamesGrouped(references, names) && n in names
    ensures Paths(names[n]) && Total(names[n]) < Total(references)
  {
  }

  lemma UnloadedTargets(s: State, rows: seq<Option<Ptr>>, names: set<string>, ptrs: seq<Ptr>)
    requires AllTargets(s, rows, names, ptrs)
    ensures forall p :: p in ptrs ==> p !in s.loaded
  {
    forall p | p in ptrs ensures p !in s.loaded {
      var n :| n in names && Target(s, rows, n, p);
    }
  }

  lemma AfterLevel(s: State, mid: State, db: Database, hasLocal: set<string>, hasRedis: set<string>, rows: seq<Option<Ptr>>,
                   references: seq<Path>, names: map<string, seq<Path>>, entities: map<string, seq<Ptr>>, ptrs: seq<Ptr>)
    requires WellFormed(s) && mid == Level(s, db, hasLocal, hasRedis, ptrs) && names.Keys == entities.Keys
    requires AllTargets(s, rows, FirstNames(references), ptrs) && EntitiesGrouped(s, rows, references, entities)
    ensures LevelDone(s, mid, db, rows, references, names, entities) && WellFormed(mid)
    ensures forall p :: p in ptrs && p.key in db ==> p in mid.loaded
  {
    hide Target, ChildrenOf, WellFormed, Grows, FilledRows, FilledRefs, FirstNames, ServedLocal, ServedRedis;
    LevelGrows(s, mid, db, rows, FirstNames(references), ptrs);
    FilledAre(db, ptrs);
    RefsLoaded(s);
    assert mid.refs.Keys == mid.loaded.Keys;
    LevelWellFormed(s, mid, db, rows, FirstNames(references), ptrs);
    AllGathered(s, rows, references, entities, ptrs);
  }

  lemma AllGathered(s: State, rows: seq<Option<Ptr>>, references: seq<Path>, entities: map<string, seq<Ptr>>, ptrs: seq<Ptr>)
    requires AllTargets(s, rows, FirstNames(references), ptrs) && EntitiesGrouped(s, rows, references, entities)
    ensures forall n, x :: n in entities && x in entities[n] ==> Target(s, rows, n, x) && x in ptrs
  {
    hide Target, FirstNames;
  }

  // ---------------------------------------------------------------- an object under two names

  /**
   * The two calls that follow X/Z and then Y/Z/V from an object x that hangs under both X and Y. The first loads what x
   * refers to under z; the second finds it loaded and loads nothing, so the rest of its path is filled only where there
   * are no rows to fill it with.
   */
  method ShorterPathFirst(e: Engine, x: Ptr, z: string, rest: Path)
    requires WellFormed(e.Now()) && Coherent(e.Now(), e.db) && rest != []
    modifies e
    ensures forall y :: Target(old(e.Now()), [Some(x)], z, y) && y.key in e.db ==>
      && y in e.loaded
      && (forall v :: v in RefsOf(e.Now(), y, rest[0]) ==> v !in e.loaded)
      && (Deep(e.Now(), e.db, y, rest) <==> forall v :: v in RefsOf(e.Now(), y, rest[0]) && v.key.id > 0 ==> v.key !in e.db)
  {
    hide Target, WellFormed, Grows, Coherent, Deep, NoSharing;
    ghost var s := e.Now();
    var short, long: seq<Path> := [[z]], [[z] + rest];
    WarmUpReferences(e, [Some(x)], short);
    ghost var mid := e.Now();
    WarmUpReferences(e, [Some(x)], long);
    ghost var t := e.Now();
    forall p | p in t.loaded ensures p in mid.loaded {
      NothingMore(s, mid, t, e.db, x, z, rest, p);
    }
    forall y | Target(s, [Some(x)], z, y) && y.key in e.db
      ensures y in t.loaded
      ensures forall v :: v in RefsOf(t, y, rest[0]) ==> v !in t.loaded
      ensures Deep(t, e.db, y, rest) <==> forall v :: v in RefsOf(t, y, rest[0]) && v.key.id > 0 ==> v.key !in e.db
    {
      BelowUnloaded(s, mid, t, e.db, x, z, rest, y);
    }
  }

  /** The second call loads nothing. */
  lemma {:induction false} NothingMore(s: State, mid: State, t: State, db: Database, x: Ptr, z: string, rest: Path, p: Ptr)
    requires WellFormed(s) && Warmed(s, mid, db, [Some(x)], [[z]]) && OnlyTargets(s, mid, [Some(x)], [[z]])
    requires Warmed(mid, t, db, [Some(x)], [[z] + rest]) && p in t.loaded
    ensures p in mid.loaded
    decreases p
  {
    hide Deep, NoSharing, ChildrenOf, OnlyTargets, WellFormed, Target;
    NoneLeft(s, mid, db, x, z);
    assert [[z] + rest][0][0] == z;
    if p.Child? && p.parent !in mid.loaded {
      ParentLoaded(t, p);
      NothingMore(s, mid, t, db, x, z, rest, p.parent);
    }
  }

  lemma ParentLoaded(t: State, p: Ptr)
    requires WellFormed(t) && p in t.loaded && p.Child?
    ensures p.parent in t.loaded
  {
  }

  /** What the first call has left unloaded under its name has no rows. */
  lemma NoneLeft(s: State, mid: State, db: Database, x: Ptr, z: string)
    requires WellFormed(s) && Warmed(s, mid, db, [Some(x)], [[z]]) && OnlyTargets(s, mid, [Some(x)], [[z]])
    ensures forall p :: Target(mid, [Some(x)], z, p) ==> p.key !in db
  {
    hide ChildrenOf, Deep, NoSharing;
    assert [[z]][0][0] == z && [Some(x)][0] == Some(x);
    forall p | p in RefsOf(mid, x, z) && p.key.id > 0 && p.key in db ensures p in mid.loaded {
      assert x in s.loaded && p in RefsOf(s, x, z);
    }
  }

  /** The objects that the first call has loaded refer to objects that neither call loads. */
  lemma BelowUnloaded(s: State, mid: State, t: State, db: Database, x: Ptr, z: string, rest: Path, y: Ptr)
    requires WellFormed(s) && Warmed(s, mid, db, [Some(x)], [[z]]) && OnlyTargets(s, mid, [Some(x)], [[z]])
    requires Grows(mid, t, db) && forall p :: p in t.loaded ==> p in mid.loaded
    requires rest != [] && Target(s, [Some(x)], z, y) && y.key in db
    ensures y in t.loaded && forall v :: v in RefsOf(t, y, rest[0]) ==> v !in t.loaded
    ensures Deep(t, db, y, rest) <==> forall v :: v in RefsOf(t, y, rest[0]) && v.key.id > 0 ==> v.key !in db
  {
    hide ChildrenOf, NoSharing, WellFormed, OnlyTargets, Target, Deep;
    assert [[z]][0][0] == z;
    TargetUnloaded(s, [Some(x)], z, y);
    forall v | v in RefsOf(t, y, rest[0]) ensures v !in t.loaded {
      ChildrenBelong(y, db[y.key], rest[0], v);
      ChildUnloaded(s, mid, x, z, y, v);
    }
    DeepUnloaded(t, db, y, rest);
  }

  lemma ChildUnloaded(s: State, mid: State, x: Ptr, z: string, y: Ptr, v: Ptr)
    requires WellFormed(s) && OnlyTargets(s, mid, [Some(x)], [[z]])
    requires Target(s, [Some(x)], z, y) && v.Child? && v.parent == y
    ensures v !in mid.loaded
  {
    hide Target;
    TargetUnloaded(s, [Some(x)], z, y);
    forall n, w | Target(s, [Some(x)], n, w) && w.Child? ensures w.parent in s.loaded {
      TargetParent(s, [Some(x)], n, w);
    }
  }

  lemma DeepUnloaded(t: State, db: Database, y: Ptr, rest: Path)
    requires rest != [] && forall v :: v in RefsOf(t, y, rest[0]) ==> v !in t.loaded
    ensures Deep(t, db, y, rest) <==> forall v :: v in RefsOf(t, y, rest[0]) && v.key.id > 0 ==> v.key !in db
  {
  }
}
