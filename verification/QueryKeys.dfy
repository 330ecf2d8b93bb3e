/** Which cached id lists a change of one row invalidates. */
module QueryKeys {
  import opened Wrappers
  import SerializerBuffer
  import DirtyValues

  type Id = SerializerBuffer.uint64

  /** What a column holds. */
  type Value = DirtyValues.Column
  const NIL: Value := DirtyValues.Null

  type Row = map<string, Value>

  const ID := "ID"
  const FAKE_DELETE := "FakeDelete"

  /**
   * A cached query: the fields of its `:Field = ?` conjuncts in order, whether it has an ORDER BY, and the fields
   * that orders by.
   */
  datatype Query = Query(conjuncts: seq<string>, hasOrder: bool, orders: seq<string>)

  datatype Index = Index(name: string, query: Query)

  datatype Key = Key(index: string, arguments: seq<Value>)

  function Lookup(m: Row, f: string): Value {
    if f in m then m[f] else NIL
  }

  // ---------------------------------------------------------------- reading a query's tag

  function WithoutRepeats(fs: seq<string>): (r: seq<string>)
    ensures forall f :: f in r <==> f in fs
  {
    if fs == [] then []
    else
      var r := WithoutRepeats(fs[..|fs| - 1]);
      var f := fs[|fs| - 1];
      assert fs == fs[..|fs| - 1] + [f];
      if f in r then r else r + [f]
  }

  /** The fields a query's tag names, with FakeDelete added when the table has it. */
  function Fields(q: Query, hasFakeDelete: bool): seq<string> {
    var fs := WithoutRepeats(q.conjuncts + q.orders);
    if hasFakeDelete && |q.conjuncts + q.orders| > 0 then fs + [FAKE_DELETE] else fs
  }

  /** The place of `:f` in the tag, found as a substring, comes before ORDER BY; a field that is not there counts as before. */
  predicate BeforeOrder(q: Query, f: string) {
    !q.hasOrder || (exists c <- q.conjuncts :: f <= c) || !(exists o <- q.orders :: f <= o)
  }

  function Keep(fs: seq<string>, p: string -> bool): (r: seq<string>) {
    if fs == [] then []
    else
      var r := Keep(fs[..|fs| - 1], p);
      if p(fs[|fs| - 1]) then r + [fs[|fs| - 1]] else r
  }

  function NotId(): string -> bool {
    f => f != ID
  }

  function Before(q: Query): string -> bool {
    f => BeforeOrder(q, f)
  }

  function NotFake(hasFakeDelete: bool): string -> bool {
    f => !hasFakeDelete || f != FAKE_DELETE
  }

  function TrackedFields(q: Query, hasFakeDelete: bool): seq<string> {
    Keep(Fields(q, hasFakeDelete), NotId())
  }

  function QueryFields(q: Query, hasFakeDelete: bool): seq<string> {
    Keep(Fields(q, hasFakeDelete), Before(q))
  }

  /** The fields whose values go into a key. */
  function KeyFields(q: Query, hasFakeDelete: bool): seq<string> {
    Keep(QueryFields(q, hasFakeDelete), NotFake(hasFakeDelete))
  }

  /** The conjuncts name different fields, and no field of the ORDER BY alone is a prefix of one of them. */
  ghost predicate WellNamed(q: Query) {
    && (forall i, j :: 0 <= i < j < |q.conjuncts| ==> q.conjuncts[i] != q.conjuncts[j])
    && (forall o :: o in q.orders && o !in q.conjuncts ==> forall c :: c in q.conjuncts ==> !(o <= c))
  }

  predicate Sound(q: Query, hasFakeDelete: bool) {
    (q.orders != [] ==> q.hasOrder) && (hasFakeDelete ==> FAKE_DELETE !in q.conjuncts + q.orders)
  }

  lemma {:induction false} KeepMembers(fs: seq<string>, p: string -> bool)
    ensures forall f :: f in Keep(fs, p) <==> f in fs && p(f)
  {
    if fs != [] {
      KeepMembers(fs[..|fs| - 1], p);
      assert fs == fs[..|fs| - 1] + [fs[|fs| - 1]];
    }
  }

  lemma {:induction false} KeepDistinct(fs: seq<string>, p: string -> bool)
    requires forall i, j :: 0 <= i < j < |fs| ==> fs[i] != fs[j]
    ensures forall i, j :: 0 <= i < j < |Keep(fs, p)| ==> Keep(fs, p)[i] != Keep(fs, p)[j]
  {
    if fs != [] {
      var n := |fs| - 1;
      KeepDistinct(fs[..n], p);
      KeepMembers(fs[..n], p);
      assert forall i :: 0 <= i < n ==> fs[..n][i] != fs[n];
    }
  }

  lemma {:induction false} KeepConcat(a: seq<string>, b: seq<string>, p: string -> bool)
    ensures Keep(a + b, p) == Keep(a, p) + Keep(b, p)
  {
    if b == [] {
      assert a + b == a;
    } else {
      var n := |b| - 1;
      KeepConcat(a, b[..n], p);
      assert (a + b)[..|a| + n] == a + b[..n];
    }
  }

  lemma {:induction false} KeepAll(fs: seq<string>, p: string -> bool)
    requires forall f :: f in fs ==> p(f)
    ensures Keep(fs, p) == fs
  {
    if fs != [] {
      KeepAll(fs[..|fs| - 1], p);
    }
  }

  lemma {:induction false} KeepNone(fs: seq<string>, p: string -> bool)
    requires forall f :: f in fs ==> !p(f)
    ensures Keep(fs, p) == []
  {
    if fs != [] {
      KeepNone(fs[..|fs| - 1], p);
    }
  }

  lemma {:induction false} RepeatsDistinct(fs: seq<string>)
    ensures forall i, j :: 0 <= i < j < |WithoutRepeats(fs)| ==> WithoutRepeats(fs)[i] != WithoutRepeats(fs)[j]
  {
    if fs != [] {
      RepeatsDistinct(fs[..|fs| - 1]);
    }
  }

  lemma RepeatsNext(fs: seq<string>, f: string)
    ensures WithoutRepeats(fs + [f]) == if f in WithoutRepeats(fs) then WithoutRepeats(fs) else WithoutRepeats(fs) + [f]
  {
    assert (fs + [f])[..|fs|] == fs;
  }

  /** What WithoutRepeats adds for the second part. */
  lemma {:induction false} RepeatsConcat(a: seq<string>, b: seq<string>) returns (rest: seq<string>)
    ensures WithoutRepeats(a + b) == WithoutRepeats(a) + rest
    ensures forall f :: f in rest ==> f in b && f !in a
  {
    if b == [] {
      assert a + b == a;
      rest := [];
    } else {
      var n := |b| - 1;
      rest := RepeatsConcat(a, b[..n]);
      RepeatsNext(a + b[..n], b[n]);
      assert a + b == a + b[..n] + [b[n]];
      if b[n] !in WithoutRepeats(a + b[..n]) {
        rest := rest + [b[n]];
      }
    }
  }

  lemma {:induction false} DistinctKept(fs: seq<string>)
    requires forall i, j :: 0 <= i < j < |fs| ==> fs[i] != fs[j]
    ensures WithoutRepeats(fs) == fs
  {
    if fs != [] {
      DistinctKept(fs[..|fs| - 1]);
    }
  }

  /** The values in a key are those of the conjuncts, in order, exactly when the query is well named. */
  lemma KeyFieldsExact(q: Query, hasFakeDelete: bool)
    requires Sound(q, hasFakeDelete)
    ensures KeyFields(q, hasFakeDelete) == q.conjuncts <==> WellNamed(q)
  {
    if WellNamed(q) {
      WellNamedKeys(q, hasFakeDelete);
    } else if KeyFields(q, hasFakeDelete) == q.conjuncts {
      KeysWellNamed(q, hasFakeDelete);
    }
  }

  lemma WellNamedKeys(q: Query, hasFakeDelete: bool)
    requires Sound(q, hasFakeDelete) && WellNamed(q)
    ensures KeyFields(q, hasFakeDelete) == q.conjuncts
  {
    var before, notFake := Before(q), NotFake(hasFakeDelete);
    DistinctKept(q.conjuncts);
    var rest := RepeatsConcat(q.conjuncts, q.orders);
    var all := q.conjuncts + rest;
    KeepConcat(q.conjuncts, rest, before);
    KeepAll(q.conjuncts, before);
    KeepNone(rest, before);
    assert Keep(all, before) == q.conjuncts;
    KeepAll(q.conjuncts, notFake);
    if hasFakeDelete && |q.conjuncts + q.orders| > 0 {
      KeepConcat(all, [FAKE_DELETE], before);
      var last := Keep([FAKE_DELETE], before);
      KeepMembers([FAKE_DELETE], before);
      KeepConcat(q.conjuncts, last, notFake);
      KeepNone(last, notFake);
    }
  }

  lemma KeysWellNamed(q: Query, hasFakeDelete: bool)
    requires Sound(q, hasFakeDelete) && KeyFields(q, hasFakeDelete) == q.conjuncts
    ensures WellNamed(q)
  {
    var before, notFake := Before(q), NotFake(hasFakeDelete);
    var fs := Fields(q, hasFakeDelete);
    RepeatsDistinct(q.conjuncts + q.orders);
    KeepDistinct(fs, before);
    KeepDistinct(Keep(fs, before), notFake);
    KeepMembers(fs, before);
    KeepMembers(Keep(fs, before), notFake);
    forall o, c | o in q.orders && o !in q.conjuncts && c in q.conjuncts ensures !(o <= c) {
      assert o in q.conjuncts + q.orders;
      assert o in fs;
    }
  }

  // ---------------------------------------------------------------- the keys of one change

  function Attributes(fs: seq<string>, bind: Row, current: Row, old': bool): seq<Value> {
    seq(|fs|, i requires 0 <= i < |fs| => if fs[i] !in bind || old' then Lookup(current, fs[i]) else bind[fs[i]])
  }

  predicate Touches(q: Query, hasFakeDelete: bool, bind: Row, addedDeleted: bool) {
    exists f <- TrackedFields(q, hasFakeDelete) :: f in bind || addedDeleted
  }

  function IndexKeys(index: Index, hasFakeDelete: bool, bind: Row, current: Row, old': bool, addedDeleted: bool): seq<Key> {
    (if addedDeleted && |TrackedFields(index.query, hasFakeDelete)| == 0 then [Key(index.name, [])] else [])
    + (if Touches(index.query, hasFakeDelete, bind, addedDeleted)
       then [Key(index.name, Attributes(KeyFields(index.query, hasFakeDelete), bind, current, old'))] else [])
  }

  function AllKeys(indexes: seq<Index>, hasFakeDelete: bool, bind: Row, current: Row, old': bool, addedDeleted: bool): seq<Key> {
    if indexes == [] then []
    else
      var n := |indexes| - 1;
      AllKeys(indexes[..n], hasFakeDelete, bind, current, old', addedDeleted)
      + IndexKeys(indexes[n], hasFakeDelete, bind, current, old', addedDeleted)
  }

  /** Whether rows come or go: they were inserted or deleted, or their FakeDelete is written. */
  predicate ComesOrGoes(hasFakeDelete: bool, bind: Row, addedDeleted: bool) {
    addedDeleted || (hasFakeDelete && FAKE_DELETE in bind)
  }

  /**
   * A change makes out a key for an index exactly when the row comes or goes, or one of the fields that the query asks for
   * or orders by is written, the ID apart.
   */
  lemma TouchedExact(index: Index, hasFakeDelete: bool, bind: Row, current: Row, old': bool, addedDeleted: bool)
    ensures IndexKeys(index, hasFakeDelete, bind, current, old', ComesOrGoes(hasFakeDelete, bind, addedDeleted)) != []
       <==> || addedDeleted || (hasFakeDelete && FAKE_DELETE in bind)
            || exists f :: f in index.query.conjuncts + index.query.orders && f != ID && f in bind
  {
    var q := index.query;
    KeepMembers(Fields(q, hasFakeDelete), NotId());
    var tracked := TrackedFields(q, hasFakeDelete);
    forall f | f in q.conjuncts + q.orders && f != ID && f in bind ensures f in tracked {
    }
    if addedDeleted && tracked != [] {
      assert tracked[0] in tracked;
    }
    if hasFakeDelete && FAKE_DELETE in bind && tracked != [] {
      assert tracked[0] in tracked;
    }
  }

  method GetAttributes(q: Query, hasFakeDelete: bool, bind: Row, current: Row, old': bool) returns (attributes: seq<Value>)
    ensures attributes == Attributes(KeyFields(q, hasFakeDelete), bind, current, old')
  {
    hide QueryFields;
    attributes := [];
    var fs := QueryFields(q, hasFakeDelete);
    for i := 0 to |fs|
      invariant attributes == Attributes(Keep(fs[..i], NotFake(hasFakeDelete)), bind, current, old')
    {
      assert fs[..i + 1][..i] == fs[..i];
      var val := NIL;
      if fs[i] in bind {
        val := bind[fs[i]];
      }
      if fs[i] !in bind || old' {
        val := Lookup(current, fs[i]);
      }
      if !hasFakeDelete || fs[i] != FAKE_DELETE {
        attributes := attributes + [val];
      }
    }
    assert fs[..|fs|] == fs;
  }

  method GetCacheQueriesKeys(indexes: seq<Index>, hasFakeDelete: bool, bind: Row, current: Row, old': bool, addedDeleted': bool)
    returns (keys: seq<Key>)
    ensures keys == AllKeys(indexes, hasFakeDelete, bind, current, old', ComesOrGoes(hasFakeDelete, bind, addedDeleted'))
  {
    keys := [];
    var addedDeleted := addedDeleted';
    for i := 0 to |indexes|
      invariant addedDeleted == if i == 0 then addedDeleted' else ComesOrGoes(hasFakeDelete, bind, addedDeleted')
      invariant keys == AllKeys(indexes[..i], hasFakeDelete, bind, current, old', ComesOrGoes(hasFakeDelete, bind, addedDeleted'))
    {
      assert indexes[..i + 1][..i] == indexes[..i];
      if !addedDeleted && hasFakeDelete {
        addedDeleted := FAKE_DELETE in bind;
      }
      var one := OneIndex(indexes[i], hasFakeDelete, bind, current, old', addedDeleted);
      keys := keys + one;
    }
    assert indexes[..|indexes|] == indexes;
  }

  method OneIndex(index: Index, hasFakeDelete: bool, bind: Row, current: Row, old': bool, addedDeleted: bool)
    returns (keys: seq<Key>)
    ensures keys == IndexKeys(index, hasFakeDelete, bind, current, old', addedDeleted)
  {
    hide TrackedFields, KeyFields, Attributes;
    keys := [];
    var tracked := TrackedFields(index.query, hasFakeDelete);
    if addedDeleted && |tracked| == 0 {
      keys := keys + [Key(index.name, [])];
    }
    for i := 0 to |tracked|
      invariant forall j :: 0 <= j < i ==> !(tracked[j] in bind || addedDeleted)
      invariant keys == if addedDeleted && |tracked| == 0 then [Key(index.name, [])] else []
    {
      if tracked[i] in bind || addedDeleted {
        assert tracked[i] in TrackedFields(index.query, hasFakeDelete);
        var attributes := GetAttributes(index.query, hasFakeDelete, bind, current, old');
        keys := keys + [Key(index.name, attributes)];
        return;
      }
    }
  }

  // ---------------------------------------------------------------- what a query finds

  type Table = map<Id, Row>

  function Column(id: Id, r: Row, f: string): Value {
    if f == ID then DirtyValues.UIntC(id) else Lookup(r, f)
  }

  function Columns(id: Id, r: Row, fs: seq<string>): seq<Value> {
    seq(|fs|, i requires 0 <= i < |fs| => Column(id, r, fs[i]))
  }

  /** NULL equals nothing. */
  predicate Matches(q: Query, hasFakeDelete: bool, id: Id, r: Row, arguments: seq<Value>) {
    && (hasFakeDelete ==> Lookup(r, FAKE_DELETE) == DirtyValues.UIntC(0))
    && Columns(id, r, q.conjuncts) == arguments && NIL !in arguments
  }

  /** The matching rows, each with what it is ordered by: all that a list of ids depends on. */
  function Found(t: Table, q: Query, hasFakeDelete: bool, arguments: seq<Value>): map<Id, seq<Value>> {
    map id | id in t && Matches(q, hasFakeDelete, id, t[id], arguments) :: Columns(id, t[id], q.orders)
  }

  /** A list has the rows that are not fake-deleted and whose columns equal the arguments, none of which is NULL. */
  lemma FoundExact(t: Table, q: Query, hasFakeDelete: bool, arguments: seq<Value>, id: Id)
    requires |arguments| == |q.conjuncts|
    ensures id in Found(t, q, hasFakeDelete, arguments) <==>
      && id in t && (hasFakeDelete ==> FAKE_DELETE in t[id] && t[id][FAKE_DELETE] == DirtyValues.UIntC(0))
      && forall i :: 0 <= i < |arguments| ==>
           && arguments[i] != NIL
           && if q.conjuncts[i] == "ID" then arguments[i] == DirtyValues.UIntC(id)
              else q.conjuncts[i] in t[id] && arguments[i] == t[id][q.conjuncts[i]]
  {
    if id in t {
      var columns := Columns(id, t[id], q.conjuncts);
      assert columns == arguments <==> forall i :: 0 <= i < |arguments| ==> arguments[i] == columns[i];
      assert NIL in arguments <==> exists i :: 0 <= i < |arguments| && arguments[i] == NIL;
    }
  }

  /**
   * A change of one row as MySQL holds it before and after, None when it is not there, and what the comparison of the
   * entity with its record has given the flush.
   */
  datatype Change = Change(id: Id, before: Option<Row>, after: Option<Row>, bind: Row, current: Row)

  function Apply(t: Table, c: Change): Table {
    match c.after
    case Some(r) => t[c.id := r]
    case None => t - {c.id}
  }

  predicate On(q: Query, hasFakeDelete: bool, id: Id, r: Option<Row>, arguments: seq<Value>) {
    r.Some? && Matches(q, hasFakeDelete, id, r.value, arguments)
  }

  /** The row joins the list, or leaves it, or moves on it. */
  predicate ListChanges(q: Query, hasFakeDelete: bool, c: Change, arguments: seq<Value>) {
    || On(q, hasFakeDelete, c.id, c.before, arguments) != On(q, hasFakeDelete, c.id, c.after, arguments)
    || (On(q, hasFakeDelete, c.id, c.before, arguments)
        && Columns(c.id, c.before.value, q.orders) != Columns(c.id, c.after.value, q.orders))
  }

  lemma FoundChanges(t: Table, c: Change, q: Query, hasFakeDelete: bool, arguments: seq<Value>)
    requires c.before == if c.id in t then Some(t[c.id]) else None
    ensures Found(Apply(t, c), q, hasFakeDelete, arguments) != Found(t, q, hasFakeDelete, arguments)
       <==> ListChanges(q, hasFakeDelete, c, arguments)
  {
    hide Matches, Columns;
    var was, now := Found(t, q, hasFakeDelete, arguments), Found(Apply(t, c), q, hasFakeDelete, arguments);
    assert c.id in was <==> On(q, hasFakeDelete, c.id, c.before, arguments);
    assert c.id in now <==> On(q, hasFakeDelete, c.id, c.after, arguments);
    if !ListChanges(q, hasFakeDelete, c, arguments) {
      assert was == now;
    }
  }

  // ---------------------------------------------------------------- the keys a change removes

  /** What is removed for one index. */
  function RemovedFor(index: Index, hasFakeDelete: bool, c: Change): seq<Key> {
    match (c.before, c.after)
    case (None, Some(_)) => IndexKeys(index, hasFakeDelete, c.bind, map[], false, true)
    case (Some(_), None) => IndexKeys(index, hasFakeDelete, c.bind, c.current, true, true)
    case (Some(_), Some(_)) =>
      var gone := ComesOrGoes(hasFakeDelete, c.bind, false);
      IndexKeys(index, hasFakeDelete, c.bind, c.current, true, gone) + IndexKeys(index, hasFakeDelete, c.bind, c.current, false, gone)
    case (None, None) => []
  }

  /** The keys removed from the caches for a change. */
  function Removed(indexes: seq<Index>, hasFakeDelete: bool, c: Change): seq<Key> {
    match (c.before, c.after)
    case (None, Some(_)) => AllKeys(indexes, hasFakeDelete, c.bind, map[], false, true)
    case (Some(_), None) => AllKeys(indexes, hasFakeDelete, c.bind, c.current, true, true)
    case (Some(_), Some(_)) =>
      var gone := ComesOrGoes(hasFakeDelete, c.bind, false);
      AllKeys(indexes, hasFakeDelete, c.bind, c.current, true, gone) + AllKeys(indexes, hasFakeDelete, c.bind, c.current, false, gone)
    case (None, None) => []
  }

  ghost predicate DistinctNames(indexes: seq<Index>) {
    forall i, j :: 0 <= i < j < |indexes| ==> indexes[i].name != indexes[j].name
  }

  lemma {:induction false} KeyListed(indexes: seq<Index>, i: nat, hasFakeDelete: bool, bind: Row, current: Row, old': bool, gone: bool, k: Key)
    requires DistinctNames(indexes) && i < |indexes| && k.index == indexes[i].name
    ensures k in AllKeys(indexes, hasFakeDelete, bind, current, old', gone)
       <==> k in IndexKeys(indexes[i], hasFakeDelete, bind, current, old', gone)
  {
    hide Touches, TrackedFields, KeyFields, Attributes;
    var n := |indexes| - 1;
    if i < n {
      KeyListed(indexes[..n], i, hasFakeDelete, bind, current, old', gone, k);
    } else {
      OtherKeys(indexes[..n], hasFakeDelete, bind, current, old', gone, k);
    }
  }

  lemma {:induction false} OtherKeys(indexes: seq<Index>, hasFakeDelete: bool, bind: Row, current: Row, old': bool, gone: bool, k: Key)
    requires forall j :: 0 <= j < |indexes| ==> k.index != indexes[j].name
    ensures k !in AllKeys(indexes, hasFakeDelete, bind, current, old', gone)
  {
    hide Touches, TrackedFields, KeyFields, Attributes;
    if indexes != [] {
      OtherKeys(indexes[..|indexes| - 1], hasFakeDelete, bind, current, old', gone, k);
    }
  }

  /** Each index answers for its own keys. */
  lemma RemovedByIndex(indexes: seq<Index>, i: nat, hasFakeDelete: bool, c: Change, arguments: seq<Value>)
    requires DistinctNames(indexes) && i < |indexes|
    ensures Key(indexes[i].name, arguments) in Removed(indexes, hasFakeDelete, c)
       <==> Key(indexes[i].name, arguments) in RemovedFor(indexes[i], hasFakeDelete, c)
  {
    hide AllKeys, IndexKeys, ComesOrGoes;
    var k := Key(indexes[i].name, arguments);
    KeyListed(indexes, i, hasFakeDelete, c.bind, map[], false, true, k);
    KeyListed(indexes, i, hasFakeDelete, c.bind, c.current, true, true, k);
    var gone := ComesOrGoes(hasFakeDelete, c.bind, false);
    KeyListed(indexes, i, hasFakeDelete, c.bind, c.current, true, gone, k);
    KeyListed(indexes, i, hasFakeDelete, c.bind, c.current, false, gone, k);
  }

  /** The arguments of the list the row was on, and of that it is on, as the flush makes them out. */
  function OldKey(q: Query, hasFakeDelete: bool, c: Change): seq<Value> {
    Attributes(KeyFields(q, hasFakeDelete), c.bind, c.current, true)
  }

  function NewKey(q: Query, hasFakeDelete: bool, c: Change): seq<Value> {
    Attributes(KeyFields(q, hasFakeDelete), c.bind, if c.before.None? then map[] else c.current, false)
  }

  /** What is not in bind is not written. */
  ghost predicate Written(c: Change) {
    c.before.Some? && c.after.Some? ==>
      c.before.value.Keys == c.after.value.Keys
      && forall f :: f in c.after.value && f !in c.bind ==> c.after.value[f] == c.before.value[f]
  }

  /** The index is one that the keys are right for: well named, and not asking for the ID, which is never in a key. */
  ghost predicate Usable(q: Query, hasFakeDelete: bool) {
    Sound(q, hasFakeDelete) && WellNamed(q) && ID !in q.conjuncts
  }

  /** A row has every column its queries name, and the table's FakeDelete; the ID is not kept with it. */
  ghost predicate Complete(r: Row, q: Query, hasFakeDelete: bool) {
    && (forall f :: f in q.conjuncts + q.orders && f != ID ==> f in r)
    && (hasFakeDelete ==> FAKE_DELETE in r) && ID !in r
  }

  ghost predicate Fitting(c: Change, q: Query, hasFakeDelete: bool) {
    && Written(c)
    && (c.before.Some? ==> Complete(c.before.value, q, hasFakeDelete))
    && (c.after.Some? ==> Complete(c.after.value, q, hasFakeDelete))
  }

  lemma TrackedAre(q: Query, hasFakeDelete: bool)
    ensures forall f :: f in q.conjuncts + q.orders && f != ID ==> f in TrackedFields(q, hasFakeDelete)
    ensures hasFakeDelete && q.conjuncts + q.orders != [] ==> FAKE_DELETE in TrackedFields(q, hasFakeDelete)
    ensures forall f :: f in TrackedFields(q, hasFakeDelete) ==> f in q.conjuncts + q.orders || f == FAKE_DELETE
  {
    KeepMembers(Fields(q, hasFakeDelete), NotId());
  }

  /** For a row that comes or goes exactly one key is removed. */
  lemma GoneKey(index: Index, hasFakeDelete: bool, bind: Row, current: Row, old': bool, arguments: seq<Value>)
    requires Usable(index.query, hasFakeDelete)
    ensures Key(index.name, arguments) in IndexKeys(index, hasFakeDelete, bind, current, old', true)
       <==> arguments == Attributes(KeyFields(index.query, hasFakeDelete), bind, current, old')
  {
    hide QueryFields, Fields, KeyFields, TrackedFields;
    var q := index.query;
    WellNamedKeys(q, hasFakeDelete);
    TrackedAre(q, hasFakeDelete);
    var tracked := TrackedFields(q, hasFakeDelete);
    if q.conjuncts == [] {
      assert Attributes([], bind, current, old') == [];
    } else {
      assert q.conjuncts[0] in tracked;
    }
    if |tracked| > 0 {
      assert tracked[0] in tracked;
    }
  }

  /** A written row whose tracked fields stay what they were leaves every list as it was. */
  lemma Untouched(c: Change, q: Query, hasFakeDelete: bool, arguments: seq<Value>)
    requires c.before.Some? && c.after.Some? && Sound(q, hasFakeDelete) && Fitting(c, q, hasFakeDelete)
    requires !ComesOrGoes(hasFakeDelete, c.bind, false) && !Touches(q, hasFakeDelete, c.bind, false)
    ensures !ListChanges(q, hasFakeDelete, c, arguments)
  {
    hide TrackedFields, Columns;
    var r, after := c.before.value, c.after.value;
    TrackedAre(q, hasFakeDelete);
    forall f | f in q.conjuncts + q.orders && f != ID ensures Lookup(after, f) == Lookup(r, f) {
      assert f !in c.bind;
    }
    SameColumns(c.id, r, after, q.conjuncts);
    SameColumns(c.id, r, after, q.orders);
  }

  lemma SameColumns(id: Id, r: Row, after: Row, fs: seq<string>)
    requires forall f :: f in fs && f != ID ==> Lookup(after, f) == Lookup(r, f)
    ensures Columns(id, r, fs) == Columns(id, after, fs)
  {
  }

  /** For a written row the two keys are removed, if a tracked field is written. */
  lemma UpdateKeys(index: Index, hasFakeDelete: bool, c: Change, arguments: seq<Value>)
    requires Usable(index.query, hasFakeDelete) && c.before.Some? && c.after.Some?
    requires ComesOrGoes(hasFakeDelete, c.bind, false) || Touches(index.query, hasFakeDelete, c.bind, false)
    ensures Key(index.name, arguments) in RemovedFor(index, hasFakeDelete, c)
       <==> arguments in [OldKey(index.query, hasFakeDelete, c), NewKey(index.query, hasFakeDelete, c)]
  {
    hide Touches, KeyFields, Attributes, TrackedFields;
    if ComesOrGoes(hasFakeDelete, c.bind, false) {
      hide IndexKeys;
      GoneKey(index, hasFakeDelete, c.bind, c.current, true, arguments);
      GoneKey(index, hasFakeDelete, c.bind, c.current, false, arguments);
    }
  }

  /** Every list that the change alters loses its key. */
  ghost predicate Covered(index: Index, hasFakeDelete: bool, c: Change) {
    forall arguments :: ListChanges(index.query, hasFakeDelete, c, arguments) ==> Key(index.name, arguments) in RemovedFor(index, hasFakeDelete, c)
  }

  /** The lists the row leaves, joins or moves on are among those the flush makes out. */
  predicate KeysRight(q: Query, hasFakeDelete: bool, c: Change) {
    match (c.before, c.after)
    case (None, Some(r)) => var now := Columns(c.id, r, q.conjuncts); ListChanges(q, hasFakeDelete, c, now) ==> NewKey(q, hasFakeDelete, c) == now
    case (Some(r), None) => var was := Columns(c.id, r, q.conjuncts); ListChanges(q, hasFakeDelete, c, was) ==> OldKey(q, hasFakeDelete, c) == was
    case (Some(r), Some(after)) =>
      var was, now := Columns(c.id, r, q.conjuncts), Columns(c.id, after, q.conjuncts);
      && (ListChanges(q, hasFakeDelete, c, was) ==> was in [OldKey(q, hasFakeDelete, c), NewKey(q, hasFakeDelete, c)])
      && (ListChanges(q, hasFakeDelete, c, now) ==> now in [OldKey(q, hasFakeDelete, c), NewKey(q, hasFakeDelete, c)])
    case (None, None) => true
  }

  /** Exactly then, after any insert, update, fake delete or delete. */
  lemma CoveredExact(index: Index, hasFakeDelete: bool, c: Change)
    requires Usable(index.query, hasFakeDelete) && Fitting(c, index.query, hasFakeDelete)
    ensures Covered(index, hasFakeDelete, c) <==> KeysRight(index.query, hasFakeDelete, c)
  {
    hide Columns, KeyFields, Attributes, Touches, TrackedFields, IndexKeys, ComesOrGoes, Usable, Fitting;
    var q := index.query;
    forall arguments | ListChanges(q, hasFakeDelete, c, arguments)
      ensures arguments in [if c.before.Some? then Columns(c.id, c.before.value, q.conjuncts) else Columns(c.id, c.after.value, q.conjuncts),
                            if c.after.Some? then Columns(c.id, c.after.value, q.conjuncts) else Columns(c.id, c.before.value, q.conjuncts)]
    {
    }
    forall arguments
      ensures c.before.None? && c.after.Some? ==>
        (Key(index.name, arguments) in RemovedFor(index, hasFakeDelete, c) <==> arguments == NewKey(q, hasFakeDelete, c))
      ensures c.before.Some? && c.after.None? ==>
        (Key(index.name, arguments) in RemovedFor(index, hasFakeDelete, c) <==> arguments == OldKey(q, hasFakeDelete, c))
      ensures c.before.Some? && c.after.Some? && ListChanges(q, hasFakeDelete, c, arguments) ==>
        (Key(index.name, arguments) in RemovedFor(index, hasFakeDelete, c)
         <==> arguments in [OldKey(q, hasFakeDelete, c), NewKey(q, hasFakeDelete, c)])
    {
      OneList(index, hasFakeDelete, c, arguments);
    }
  }

  lemma OneList(index: Index, hasFakeDelete: bool, c: Change, arguments: seq<Value>)
    requires Usable(index.query, hasFakeDelete) && Fitting(c, index.query, hasFakeDelete)
    ensures c.before.None? && c.after.Some? ==>
      (Key(index.name, arguments) in RemovedFor(index, hasFakeDelete, c) <==> arguments == NewKey(index.query, hasFakeDelete, c))
    ensures c.before.Some? && c.after.None? ==>
      (Key(index.name, arguments) in RemovedFor(index, hasFakeDelete, c) <==> arguments == OldKey(index.query, hasFakeDelete, c))
    ensures c.before.Some? && c.after.Some? && ListChanges(index.query, hasFakeDelete, c, arguments) ==>
      (Key(index.name, arguments) in RemovedFor(index, hasFakeDelete, c)
       <==> arguments in [OldKey(index.query, hasFakeDelete, c), NewKey(index.query, hasFakeDelete, c)])
  {
    hide Columns, KeyFields, Attributes, Touches, TrackedFields, IndexKeys, ComesOrGoes, Fitting, ListChanges;
    var q := index.query;
    GoneKey(index, hasFakeDelete, c.bind, map[], false, arguments);
    GoneKey(index, hasFakeDelete, c.bind, c.current, true, arguments);
    if c.before.Some? && c.after.Some? && ListChanges(q, hasFakeDelete, c, arguments) {
      if !ComesOrGoes(hasFakeDelete, c.bind, false) && !Touches(q, hasFakeDelete, c.bind, false) {
        Untouched(c, q, hasFakeDelete, arguments);
      } else {
        UpdateKeys(index, hasFakeDelete, c, arguments);
      }
    }
  }

  /** After such a change the keys removed include every index and arguments whose list has changed. */
  lemma ChangedListsRemoved(indexes: seq<Index>, i: nat, hasFakeDelete: bool, t: Table, c: Change, arguments: seq<Value>)
    requires DistinctNames(indexes) && i < |indexes| && Usable(indexes[i].query, hasFakeDelete)
    requires c.before == if c.id in t then Some(t[c.id]) else None
    requires Fitting(c, indexes[i].query, hasFakeDelete) && KeysRight(indexes[i].query, hasFakeDelete, c)
    requires Found(Apply(t, c), indexes[i].query, hasFakeDelete, arguments) != Found(t, indexes[i].query, hasFakeDelete, arguments)
    ensures Key(indexes[i].name, arguments) in Removed(indexes, hasFakeDelete, c)
  {
    hide Found, Removed, RemovedFor, KeysRight, ListChanges;
    FoundChanges(t, c, indexes[i].query, hasFakeDelete, arguments);
    CoveredExact(indexes[i], hasFakeDelete, c);
    RemovedByIndex(indexes, i, hasFakeDelete, c, arguments);
  }

  // ---------------------------------------------------------------- which indexes can be kept right

  /** The comparison has told the flush exactly what was in the row and what is. */
  ghost predicate Exact(c: Change) {
    && (c.before.Some? ==> c.current == c.before.value)
    && (c.before.None? && c.after.Some? ==> c.bind == c.after.value)
    && (c.before.Some? && c.after.Some? ==> c.bind == map f | f in c.after.value && Lookup(c.before.value, f) != c.after.value[f] :: c.after.value[f])
  }

  /** Any insert, delete and update can be told exactly: an update by the columns that differ. */
  lemma ExactChanges(id: Id, was: Row, now: Row)
    requires was.Keys == now.Keys
    ensures
      var differing := map f | f in now && now[f] != was[f] :: now[f];
      var update := Change(id, Some(was), Some(now), differing, was);
      && Exact(update) && Written(update)
      && Exact(Change(id, None, Some(now), now, map[])) && Exact(Change(id, Some(was), None, map[], was))
  {
    assert forall f :: f in now ==> Lookup(was, f) == was[f];
  }

  /** Every exact change removes every list it alters. */
  ghost predicate AlwaysCovered(index: Index, hasFakeDelete: bool) {
    forall c :: Exact(c) && Fitting(c, index.query, hasFakeDelete) ==> Covered(index, hasFakeDelete, c)
  }

  lemma ExactKeys(q: Query, hasFakeDelete: bool, c: Change)
    requires Usable(q, hasFakeDelete) && Exact(c) && Fitting(c, q, hasFakeDelete)
    ensures c.before.Some? ==> OldKey(q, hasFakeDelete, c) == Columns(c.id, c.before.value, q.conjuncts)
    ensures c.after.Some? ==> NewKey(q, hasFakeDelete, c) == Columns(c.id, c.after.value, q.conjuncts)
  {
    hide KeyFields;
    WellNamedKeys(q, hasFakeDelete);
    forall f | f in q.conjuncts ensures f in q.conjuncts + q.orders {}
  }

  const ONE: Value := DirtyValues.UIntC(1)
  const TWO: Value := DirtyValues.UIntC(2)

  function Named(q: Query, hasFakeDelete: bool): set<string> {
    (set x <- q.conjuncts + q.orders | x != ID) + (if hasFakeDelete then {FAKE_DELETE} else {})
  }

  /** A row with 1 in one field and 2 in all others. */
  function Witness(q: Query, hasFakeDelete: bool, special: string): Row {
    map f | f in Named(q, hasFakeDelete) ::
      if hasFakeDelete && f == FAKE_DELETE then DirtyValues.UIntC(0) else if f == special then ONE else TWO
  }

  function Deleted(id: Id, r: Row): Change {
    Change(id, Some(r), None, map[], r)
  }

  /** The deleted row's list is altered, but its arguments are not those of the key. */
  lemma Uncovered(index: Index, hasFakeDelete: bool, c: Change)
    requires c.before.Some? && c.after.None? && c.bind == map[] && Exact(c) && Fitting(c, index.query, hasFakeDelete)
    requires On(index.query, hasFakeDelete, c.id, c.before, Columns(c.id, c.before.value, index.query.conjuncts))
    requires index.query.conjuncts != []
    requires OldKey(index.query, hasFakeDelete, c) != Columns(c.id, c.before.value, index.query.conjuncts)
    ensures !AlwaysCovered(index, hasFakeDelete)
  {
    hide Columns, KeyFields, Attributes, TrackedFields, Touches;
    var arguments := Columns(c.id, c.before.value, index.query.conjuncts);
    assert ListChanges(index.query, hasFakeDelete, c, arguments);
    assert arguments != [] by {
      SomeColumns(c.id, c.before.value, index.query.conjuncts);
    }
    assert Key(index.name, arguments) !in RemovedFor(index, hasFakeDelete, c);
    assert !Covered(index, hasFakeDelete, c);
  }

  lemma SomeColumns(id: Id, r: Row, fs: seq<string>)
    ensures |Columns(id, r, fs)| == |fs|
  {
  }

  lemma WitnessOn(q: Query, hasFakeDelete: bool, special: string)
    requires Sound(q, hasFakeDelete)
    ensures
      var c := Deleted(1, Witness(q, hasFakeDelete, special));
      && Exact(c) && Fitting(c, q, hasFakeDelete)
      && On(q, hasFakeDelete, 1, c.before, Columns(1, c.before.value, q.conjuncts))
  {
    var r := Witness(q, hasFakeDelete, special);
    forall i | 0 <= i < |q.conjuncts| ensures Column(1, r, q.conjuncts[i]) != NIL {
      assert q.conjuncts[i] in q.conjuncts + q.orders;
    }
  }

  /** A place where key and conjuncts name different fields. */
  lemma Different(fs: seq<string>, gs: seq<string>) returns (i: nat)
    requires fs != gs && |fs| == |gs|
    ensures i < |fs| && fs[i] != gs[i]
  {
    i :| 0 <= i < |fs| && fs[i] != gs[i];
  }

  lemma WitnessMissed(q: Query, hasFakeDelete: bool) returns (special: string)
    requires Sound(q, hasFakeDelete) && !Usable(q, hasFakeDelete)
    ensures q.conjuncts != []
    ensures
      var r := Witness(q, hasFakeDelete, special);
      OldKey(q, hasFakeDelete, Deleted(1, r)) != Columns(1, r, q.conjuncts)
  {
    hide QueryFields, Fields, KeyFields;
    KeyFieldsExact(q, hasFakeDelete);
    var fs := KeyFields(q, hasFakeDelete);
    special := "";
    if ID in q.conjuncts {
      special := ID;
      var r := Witness(q, hasFakeDelete, ID);
      var i :| 0 <= i < |q.conjuncts| && q.conjuncts[i] == ID;
      assert Columns(1, r, q.conjuncts)[i] == ONE;
      if |fs| == |q.conjuncts| {
        assert OldKey(q, hasFakeDelete, Deleted(1, r))[i] == Lookup(r, fs[i]);
        assert Lookup(r, fs[i]) != ONE;
      } else {
        assert |OldKey(q, hasFakeDelete, Deleted(1, r))| == |fs| && |Columns(1, r, q.conjuncts)| == |q.conjuncts|;
      }
    } else if |fs| == |q.conjuncts| {
      var i := Different(fs, q.conjuncts);
      special := q.conjuncts[i];
      var r := Witness(q, hasFakeDelete, special);
      assert special in q.conjuncts + q.orders;
      assert Columns(1, r, q.conjuncts)[i] == ONE;
      assert OldKey(q, hasFakeDelete, Deleted(1, r))[i] == Lookup(r, fs[i]);
    } else {
      var r := Witness(q, hasFakeDelete, special);
      assert |OldKey(q, hasFakeDelete, Deleted(1, r))| == |fs| && |Columns(1, r, q.conjuncts)| == |q.conjuncts|;
    }
  }

  /** The lists of an index are always removed when they change exactly when the index is usable. */
  lemma UsableExact(index: Index, hasFakeDelete: bool)
    requires Sound(index.query, hasFakeDelete)
    ensures AlwaysCovered(index, hasFakeDelete) <==> Usable(index.query, hasFakeDelete)
  {
    hide Exact, Fitting, Covered, KeyFields, Columns, OldKey, Witness, On;
    if Usable(index.query, hasFakeDelete) {
      forall c | Exact(c) && Fitting(c, index.query, hasFakeDelete) ensures Covered(index, hasFakeDelete, c) {
        ExactKeys(index.query, hasFakeDelete, c);
        CoveredExact(index, hasFakeDelete, c);
      }
    } else {
      var special := WitnessMissed(index.query, hasFakeDelete);
      WitnessOn(index.query, hasFakeDelete, special);
      Uncovered(index, hasFakeDelete, Deleted(1, Witness(index.query, hasFakeDelete, special)));
    }
  }

  // ---------------------------------------------------------------- runs

  /** The table, and what is cached for each key. */
  datatype State = State(table: Table, lists: map<Key, map<Id, seq<Value>>>)

  datatype Action = Search(i: nat, arguments: seq<Value>) | Save(c: Change) | Forget(key: Key)

  /** The indexes of one table: different names, and each usable. */
  ghost predicate GoodIndexes(indexes: seq<Index>, hasFakeDelete: bool) {
    DistinctNames(indexes) && forall i :: 0 <= i < |indexes| ==> Usable(indexes[i].query, hasFakeDelete)
  }

  ghost predicate Enabled(indexes: seq<Index>, hasFakeDelete: bool, s: State, a: Action) {
    match a
    case Search(i, _) => i < |indexes|
    case Save(c) =>
      && c.before == (if c.id in s.table then Some(s.table[c.id]) else None)
      && (forall i :: 0 <= i < |indexes| ==> Fitting(c, indexes[i].query, hasFakeDelete))
    case Forget(_) => true
  }

  /** The change's keys are right for every index. */
  predicate Told(indexes: seq<Index>, hasFakeDelete: bool, a: Action) {
    a.Save? ==> forall i :: 0 <= i < |indexes| ==> KeysRight(indexes[i].query, hasFakeDelete, a.c)
  }

  ghost function Next(indexes: seq<Index>, hasFakeDelete: bool, s: State, a: Action): State
    requires Enabled(indexes, hasFakeDelete, s, a)
  {
    match a
    case Search(i, arguments) =>
      var key := Key(indexes[i].name, arguments);
      if key in s.lists then s else s.(lists := s.lists[key := Found(s.table, indexes[i].query, hasFakeDelete, arguments)])
    case Save(c) =>
      State(Apply(s.table, c), s.lists - (set k <- Removed(indexes, hasFakeDelete, c)))
    case Forget(key) => s.(lists := s.lists - {key})
  }

  /** Every cached list is what running its query again would give. */
  ghost predicate ListsRight(indexes: seq<Index>, hasFakeDelete: bool, s: State) {
    forall i, arguments :: 0 <= i < |indexes| && Key(indexes[i].name, arguments) in s.lists ==>
      s.lists[Key(indexes[i].name, arguments)] == Found(s.table, indexes[i].query, hasFakeDelete, arguments)
  }

  lemma StepKeepsLists(indexes: seq<Index>, hasFakeDelete: bool, s: State, a: Action)
    requires GoodIndexes(indexes, hasFakeDelete) && ListsRight(indexes, hasFakeDelete, s) && Enabled(indexes, hasFakeDelete, s, a)
    requires Told(indexes, hasFakeDelete, a)
    ensures ListsRight(indexes, hasFakeDelete, Next(indexes, hasFakeDelete, s, a))
  {
    hide Found, Removed, KeysRight, Fitting, Usable;
    if a.Save? {
      var t := Next(indexes, hasFakeDelete, s, a);
      forall i, arguments | 0 <= i < |indexes| && Key(indexes[i].name, arguments) in t.lists
        ensures t.lists[Key(indexes[i].name, arguments)] == Found(t.table, indexes[i].query, hasFakeDelete, arguments)
      {
        if Found(t.table, indexes[i].query, hasFakeDelete, arguments) != Found(s.table, indexes[i].query, hasFakeDelete, arguments) {
          ChangedListsRemoved(indexes, i, hasFakeDelete, s.table, a.c, arguments);
        }
      }
    }
  }

  ghost predicate Run(indexes: seq<Index>, hasFakeDelete: bool, ss: seq<State>, acts: seq<Action>) {
    && |ss| == |acts| + 1 && ss[0].lists == map[]
    && forall j :: 0 <= j < |acts| ==>
         Enabled(indexes, hasFakeDelete, ss[j], acts[j]) && ss[j + 1] == Next(indexes, hasFakeDelete, ss[j], acts[j])
  }

  /** In every run of searches and changes whose keys are right no cached list is ever out of date. */
  lemma {:induction false} RunKeepsLists(indexes: seq<Index>, hasFakeDelete: bool, ss: seq<State>, acts: seq<Action>, j: nat)
    requires GoodIndexes(indexes, hasFakeDelete) && Run(indexes, hasFakeDelete, ss, acts) && j < |ss|
    requires forall n :: 0 <= n < |acts| ==> Told(indexes, hasFakeDelete, acts[n])
    ensures ListsRight(indexes, hasFakeDelete, ss[j])
  {
    hide Next, Enabled, GoodIndexes, Told;
    if j > 0 {
      RunKeepsLists(indexes, hasFakeDelete, ss, acts, j - 1);
      StepKeepsLists(indexes, hasFakeDelete, ss[j - 1], acts[j - 1]);
      assert ss[j - 1 + 1] == Next(indexes, hasFakeDelete, ss[j - 1], acts[j - 1]);
    }
  }

  /** A change that does not remove every list it alters leaves one of them out of date, if that was searched for before. */
  lemma MissedRun(index: Index, hasFakeDelete: bool, t: Table, c: Change) returns (ss: seq<State>, acts: seq<Action>)
    requires c.before == (if c.id in t then Some(t[c.id]) else None) && Fitting(c, index.query, hasFakeDelete)
    requires !Covered(index, hasFakeDelete, c)
    ensures Run([index], hasFakeDelete, ss, acts) && |acts| == 2 && acts[0].Search? && acts[1] == Save(c)
    ensures ss[0].table == t && !ListsRight([index], hasFakeDelete, ss[2])
  {
    hide Found, Removed, RemovedFor, Fitting, ListChanges;
    var arguments :| ListChanges(index.query, hasFakeDelete, c, arguments) && Key(index.name, arguments) !in RemovedFor(index, hasFakeDelete, c);
    var indexes, key := [index], Key(index.name, arguments);
    acts := [Search(0, arguments), Save(c)];
    var s0 := State(t, map[]);
    var s1 := Next(indexes, hasFakeDelete, s0, acts[0]);
    var s2 := Next(indexes, hasFakeDelete, s1, acts[1]);
    ss := [s0, s1, s2];
    FoundChanges(t, c, index.query, hasFakeDelete, arguments);
    RemovedByIndex(indexes, 0, hasFakeDelete, c, arguments);
    assert key in s2.lists && Key(indexes[0].name, arguments) == key;
  }
}
