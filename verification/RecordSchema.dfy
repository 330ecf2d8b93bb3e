/** The field tree of an entity and the traversals of it that only look at the tree: column names and scan pointers. */
module RecordSchema {
  import opened Wrappers
  import opened SerializerBuffer

  datatype Kind =
    | Ref | UInt | Int | Bool | Float | Time | Date | FakeDelete | Str | UIntNull | IntNull | Enum | Bytes | Set
    | BoolNull | FloatNull | TimeNull | DateNull | Json | RefsMany

  /** One field of a struct: its index there, its name, and what its tags say. A DECIMAL column has a number of decimals. */
  datatype Field = Field(
    index: nat, name: string, precision: nat, members: seq<Text>, defaultMember: Text, required: bool, decimals: Option<nat>)

  datatype Embedded = Embedded(index: nat, name: string, anonymous: bool, fields: TableFields)

  /** The indexes of a struct's fields, grouped by kind, and its nested structs. */
  datatype TableFields = TableFields(kinds: map<Kind, seq<Field>>, structs: seq<Embedded>) {
    function Of(k: Kind): seq<Field> {
      if k in kinds then kinds[k] else []
    }
  }

  /** A column: where its value is in the entity, its name, and its kind. */
  datatype Leaf = Leaf(path: seq<nat>, column: string, kind: Kind, field: Field)

  /** The order in which the kinds of one struct are visited. */
  const ORDER: seq<Kind> := [
    Ref, UInt, Int, Bool, Float, Time, Date, FakeDelete, Str, UIntNull, IntNull, Enum, Bytes, Set,
    BoolNull, FloatNull, TimeNull, DateNull, Json, RefsMany]

  function LeafOf(k: Kind, f: Field, path: seq<nat>, prefix: string): Leaf {
    Leaf(path + [f.index], prefix + f.name, k, f)
  }

  function KindLeaves(k: Kind, fs: seq<Field>, path: seq<nat>, prefix: string): seq<Leaf> {
    seq(|fs|, i requires 0 <= i < |fs| => LeafOf(k, fs[i], path, prefix))
  }

  function OrderLeaves(fields: TableFields, order: seq<Kind>, path: seq<nat>, prefix: string): seq<Leaf> {
    if order == [] then []
    else
      var n := |order| - 1;
      OrderLeaves(fields, order[..n], path, prefix) + KindLeaves(order[n], fields.Of(order[n]), path, prefix)
  }

  function SubPrefix(prefix: string, e: Embedded): string {
    if e.anonymous then prefix else prefix + e.name
  }

  function StructLeaves(fields: TableFields, n: nat, path: seq<nat>, prefix: string): seq<Leaf>
    requires n <= |fields.structs|
    decreases fields, n
  {
    if n == 0 then []
    else
      var e := fields.structs[n - 1];
      StructLeaves(fields, n - 1, path, prefix) + Leaves(e.fields, path + [e.index], SubPrefix(prefix, e))
  }

  /** All columns: the fields of the struct by kind, then those of each nested struct. */
  function Leaves(fields: TableFields, path: seq<nat>, prefix: string): seq<Leaf>
    decreases fields, |fields.structs| + 1
  {
    OrderLeaves(fields, ORDER, path, prefix) + StructLeaves(fields, |fields.structs|, path, prefix)
  }

  lemma OrderStep(fields: TableFields, order: seq<Kind>, i: nat, path: seq<nat>, prefix: string)
    requires i < |order|
    ensures OrderLeaves(fields, order[..i + 1], path, prefix)
         == OrderLeaves(fields, order[..i], path, prefix) + KindLeaves(order[i], fields.Of(order[i]), path, prefix)
  {
    assert order[..i + 1][..i] == order[..i];
  }

  // ---------------------------------------------------------------- column names

  function Names(leaves: seq<Leaf>): seq<string> {
    seq(|leaves|, i requires 0 <= i < |leaves| => leaves[i].column)
  }

  /** Time columns are selected as seconds. */
  predicate InSeconds(k: Kind) {
    k in {Time, Date, TimeNull, DateNull}
  }

  /** A selected column: its name, and whether it is wrapped in TO_SECONDS. */
  datatype Selection = Selection(name: string, toSeconds: bool)

  function Selected(leaves: seq<Leaf>): seq<Selection> {
    seq(|leaves|, i requires 0 <= i < |leaves| => Selection(leaves[i].column, InSeconds(leaves[i].kind)))
  }

  lemma SelectedConcat(p: seq<Leaf>, q: seq<Leaf>)
    ensures Selected(p + q) == Selected(p) + Selected(q)
    ensures Names(p + q) == Names(p) + Names(q)
  {
  }

  lemma {:induction false} OrderConcat(fields: TableFields, a: seq<Kind>, b: seq<Kind>, path: seq<nat>, prefix: string)
    ensures OrderLeaves(fields, a + b, path, prefix)
         == OrderLeaves(fields, a, path, prefix) + OrderLeaves(fields, b, path, prefix)
  {
    if b == [] {
      assert a + b == a;
    } else {
      var n := |b| - 1;
      OrderConcat(fields, a, b[..n], path, prefix);
      assert (a + b)[..|a + b| - 1] == a + b[..n];
    }
  }

  lemma {:induction false} OrderKinds(fields: TableFields, order: seq<Kind>, path: seq<nat>, prefix: string)
    ensures forall l :: l in OrderLeaves(fields, order, path, prefix) ==> l.kind in order
  {
    if order != [] {
      OrderKinds(fields, order[..|order| - 1], path, prefix);
    }
  }

  /** These fields, in order, are the ones the leaves are about. */
  ghost predicate Collected(ids: seq<Field>, leaves: seq<Leaf>) {
    |ids| == |leaves| && forall j :: 0 <= j < |ids| ==> ids[j] == leaves[j].field
  }

  ghost predicate Named(leaves: seq<Leaf>, prefix: string) {
    forall j :: 0 <= j < |leaves| ==> leaves[j].column == prefix + leaves[j].field.name
  }

  lemma {:induction false} OrderNamed(fields: TableFields, order: seq<Kind>, path: seq<nat>, prefix: string)
    ensures Named(OrderLeaves(fields, order, path, prefix), prefix)
  {
    if order != [] {
      OrderNamed(fields, order[..|order| - 1], path, prefix);
    }
  }

  lemma OrderExtend(fields: TableFields, before: seq<Kind>, order: seq<Kind>, i: nat, path: seq<nat>, prefix: string)
    requires i < |order|
    ensures OrderLeaves(fields, before + order[..i + 1], path, prefix)
         == OrderLeaves(fields, before + order[..i], path, prefix) + KindLeaves(order[i], fields.Of(order[i]), path, prefix)
  {
    var all := before + order[..i + 1];
    assert all[..|all| - 1] == before + order[..i];
  }

  lemma CollectedConcat(ids: seq<Field>, leaves: seq<Leaf>, k: Kind, fs: seq<Field>, path: seq<nat>, prefix: string)
    requires Collected(ids, leaves)
    ensures Collected(ids + fs, leaves + KindLeaves(k, fs, path, prefix))
  {
  }

  /** Appends the fields of these kinds. */
  method CollectKinds(fields: TableFields, ids: seq<Field>, order: seq<Kind>,
                      ghost before: seq<Kind>, ghost path: seq<nat>, ghost prefix: string)
    returns (all: seq<Field>)
    requires Collected(ids, OrderLeaves(fields, before, path, prefix))
    ensures Collected(all, OrderLeaves(fields, before + order, path, prefix))
  {
    all := ids;
    ghost var soFar := OrderLeaves(fields, before, path, prefix);
    assert before + order[..0] == before;
    for i := 0 to |order|
      invariant soFar == OrderLeaves(fields, before + order[..i], path, prefix)
      invariant Collected(all, soFar)
    {
      OrderExtend(fields, before, order, i, path, prefix);
      CollectedConcat(all, soFar, order[i], fields.Of(order[i]), path, prefix);
      all := all + fields.Of(order[i]);
      soFar := soFar + KindLeaves(order[i], fields.Of(order[i]), path, prefix);
    }
    assert order[..|order|] == order;
  }

  /** The times among these leaves are exactly those in the two ranges. */
  ghost predicate TimesAt(leaves: seq<Leaf>, timesStart: nat, timesEnd: nat, nullableStart: nat, nullableEnd: nat) {
    forall j :: 0 <= j < |leaves| ==>
      (InSeconds(leaves[j].kind) <==> timesStart <= j < timesEnd || nullableStart <= j < nullableEnd)
  }

  /** The columns of a stretch of fields. */
  method AddColumns(ids: seq<Field>, prefix: string, timesStart: nat, timesEnd: nat, nullableStart: nat, nullableEnd: nat,
                    ghost own: seq<Leaf>)
    returns (columns: seq<string>, query: seq<Selection>)
    requires Collected(ids, own) && Named(own, prefix)
    requires TimesAt(own, timesStart, timesEnd, nullableStart, nullableEnd)
    ensures columns == Names(own) && query == Selected(own)
  {
    columns, query := [], [];
    for k := 0 to |ids|
      invariant columns == Names(own[..k]) && query == Selected(own[..k])
    {
      var name := prefix + ids[k].name;
      columns := columns + [name];
      if (k >= timesStart && k < timesEnd) || (k >= nullableStart && k < nullableEnd) {
        query := query + [Selection(name, true)];
      } else {
        query := query + [Selection(name, false)];
      }
    }
    assert own[..|ids|] == own;
  }

  ghost predicate AllTimes(order: seq<Kind>, times: bool) {
    forall i :: 0 <= i < |order| ==> InSeconds(order[i]) == times
  }

  ghost predicate LeavesInSeconds(leaves: seq<Leaf>, times: bool) {
    forall j :: 0 <= j < |leaves| ==> InSeconds(leaves[j].kind) == times
  }

  lemma OrderTimes(fields: TableFields, order: seq<Kind>, times: bool, path: seq<nat>, prefix: string)
    requires AllTimes(order, times)
    ensures LeavesInSeconds(OrderLeaves(fields, order, path, prefix), times)
  {
    OrderKinds(fields, order, path, prefix);
    forall j | 0 <= j < |OrderLeaves(fields, order, path, prefix)|
      ensures InSeconds(OrderLeaves(fields, order, path, prefix)[j].kind) == times
    {
      assert OrderLeaves(fields, order, path, prefix)[j].kind in order;
    }
  }

  lemma FiveStretches(a: seq<Leaf>, b: seq<Leaf>, c: seq<Leaf>, d: seq<Leaf>, e: seq<Leaf>)
    requires LeavesInSeconds(a, false) && LeavesInSeconds(b, true) && LeavesInSeconds(c, false)
    requires LeavesInSeconds(d, true) && LeavesInSeconds(e, false)
    ensures TimesAt(a + b + c + d + e, |a|, |a + b|, |a + b + c|, |a + b + c + d|)
  {
  }

  /** Where the times of one struct are, when its kinds fall into five stretches of which the second and fourth are times. */
  lemma Stretches(fields: TableFields, a: seq<Kind>, b: seq<Kind>, c: seq<Kind>, d: seq<Kind>, e: seq<Kind>,
                  path: seq<nat>, prefix: string)
    requires AllTimes(a, false) && AllTimes(b, true) && AllTimes(c, false) && AllTimes(d, true) && AllTimes(e, false)
    ensures TimesAt(OrderLeaves(fields, a + b + c + d + e, path, prefix),
      |OrderLeaves(fields, a, path, prefix)|, |OrderLeaves(fields, a + b, path, prefix)|,
      |OrderLeaves(fields, a + b + c, path, prefix)|, |OrderLeaves(fields, a + b + c + d, path, prefix)|)
  {
    OrderConcat(fields, a, b, path, prefix);
    OrderConcat(fields, a + b, c, path, prefix);
    OrderConcat(fields, a + b + c, d, path, prefix);
    OrderConcat(fields, a + b + c + d, e, path, prefix);
    OrderTimes(fields, a, false, path, prefix);
    OrderTimes(fields, b, true, path, prefix);
    OrderTimes(fields, c, false, path, prefix);
    OrderTimes(fields, d, true, path, prefix);
    OrderTimes(fields, e, false, path, prefix);
    FiveStretches(OrderLeaves(fields, a, path, prefix), OrderLeaves(fields, b, path, prefix),
      OrderLeaves(fields, c, path, prefix), OrderLeaves(fields, d, path, prefix), OrderLeaves(fields, e, path, prefix));
  }

  /** The fields of one struct, in the order of its columns, and the two ranges of them that hold times. */
  method CollectFields(fields: TableFields, ghost path: seq<nat>, ghost prefix: string)
    returns (ids: seq<Field>, timesStart: nat, timesEnd: nat, nullableStart: nat, nullableEnd: nat)
    ensures Collected(ids, OrderLeaves(fields, ORDER, path, prefix))
    ensures TimesAt(OrderLeaves(fields, ORDER, path, prefix), timesStart, timesEnd, nullableStart, nullableEnd)
  {
    var a := [Ref, UInt, Int, Bool, Float];
    var b := [Time, Date];
    var c := [FakeDelete, Str, UIntNull, IntNull, Enum, Bytes, Set, BoolNull, FloatNull];
    var d := [TimeNull, DateNull];
    var e := [Json, RefsMany];
    assert AllTimes(a, false) && AllTimes(b, true) && AllTimes(c, false) && AllTimes(d, true) && AllTimes(e, false);
    assert a + b + c + d + e == ORDER;
    ids, timesStart, timesEnd, nullableStart, nullableEnd := CollectStretches(fields, a, b, c, d, e, path, prefix);
  }

  method CollectStretches(fields: TableFields, a: seq<Kind>, b: seq<Kind>, c: seq<Kind>, d: seq<Kind>, e: seq<Kind>,
                          ghost path: seq<nat>, ghost prefix: string)
    returns (ids: seq<Field>, timesStart: nat, timesEnd: nat, nullableStart: nat, nullableEnd: nat)
    requires AllTimes(a, false) && AllTimes(b, true) && AllTimes(c, false) && AllTimes(d, true) && AllTimes(e, false)
    ensures
      var own := OrderLeaves(fields, a + b + c + d + e, path, prefix);
      Collected(ids, own) && TimesAt(own, timesStart, timesEnd, nullableStart, nullableEnd)
  {
    ids := CollectKinds(fields, [], a, [], path, prefix);
    assert [] + a == a;
    timesStart := |ids|;
    ids := CollectKinds(fields, ids, b, a, path, prefix);
    timesEnd := |ids|;
    ids := CollectKinds(fields, ids, c, a + b, path, prefix);
    nullableStart := |ids|;
    ids := CollectKinds(fields, ids, d, a + b + c, path, prefix);
    nullableEnd := |ids|;
    ids := CollectKinds(fields, ids, e, a + b + c + d, path, prefix);
    Stretches(fields, a, b, c, d, e, path, prefix);
  }

  /** The columns of one struct's own fields. */
  method OwnColumns(fields: TableFields, prefix: string, ghost path: seq<nat>)
    returns (columns: seq<string>, query: seq<Selection>)
    ensures columns == Names(OrderLeaves(fields, ORDER, path, prefix))
    ensures query == Selected(OrderLeaves(fields, ORDER, path, prefix))
  {
    var ids, timesStart, timesEnd, nullableStart, nullableEnd := CollectFields(fields, path, prefix);
    ghost var own := OrderLeaves(fields, ORDER, path, prefix);
    OrderNamed(fields, ORDER, path, prefix);
    columns, query := AddColumns(ids, prefix, timesStart, timesEnd, nullableStart, nullableEnd, own);
  }

  /** The column list of a struct and of everything nested in it. */
  method BuildColumnNames(fields: TableFields, subFieldPrefix: string, ghost path: seq<nat>)
    returns (columns: seq<string>, query: seq<Selection>)
    ensures columns == Names(Leaves(fields, path, subFieldPrefix))
    ensures query == Selected(Leaves(fields, path, subFieldPrefix))
    decreases fields
  {
    hide OrderLeaves, Names, Selected;
    columns, query := OwnColumns(fields, subFieldPrefix, path);
    ghost var own := OrderLeaves(fields, ORDER, path, subFieldPrefix);
    ghost var soFar := own;
    for i := 0 to |fields.structs|
      invariant soFar == own + StructLeaves(fields, i, path, subFieldPrefix)
      invariant columns == Names(soFar) && query == Selected(soFar)
    {
      var e := fields.structs[i];
      var prefixName := subFieldPrefix;
      if !e.anonymous {
        prefixName := prefixName + e.name;
      }
      var subColumns, subQuery := BuildColumnNames(e.fields, prefixName, path + [e.index]);
      ghost var sub := Leaves(e.fields, path + [e.index], prefixName);
      SelectedConcat(soFar, sub);
      soFar := soFar + sub;
      columns := columns + subColumns;
      query := query + subQuery;
    }
  }

  // ---------------------------------------------------------------- scan pointers

  datatype Pointer =
    | UIntPointer | IntPointer | BoolPointer | FloatPointer
    | NullIntPointer | NullStringPointer | NullBoolPointer | NullFloatPointer

  /** The type a column of each kind is scanned into. */
  function PointerOf(k: Kind): Pointer {
    match k
    case Ref => NullIntPointer
    case UInt => UIntPointer
    case Int => IntPointer
    case Bool => BoolPointer
    case Float => FloatPointer
    case Time => IntPointer
    case Date => IntPointer
    case FakeDelete => UIntPointer
    case Str => NullStringPointer
    case UIntNull => NullIntPointer
    case IntNull => NullIntPointer
    case Enum => NullStringPointer
    case Bytes => NullStringPointer
    case Set => NullStringPointer
    case BoolNull => NullBoolPointer
    case FloatNull => NullFloatPointer
    case TimeNull => NullIntPointer
    case DateNull => NullIntPointer
    case Json => NullStringPointer
    case RefsMany => NullStringPointer
  }

  /** Positions [from, from + |leaves|) hold the pointers of these columns. */
  ghost predicate Prepared(pointers: seq<Pointer>, from: nat, leaves: seq<Leaf>) {
    from + |leaves| <= |pointers| && forall j :: 0 <= j < |leaves| ==> pointers[from + j] == PointerOf(leaves[j].kind)
  }

  lemma PreparedConcat(pointers: seq<Pointer>, from: nat, p: seq<Leaf>, q: seq<Leaf>)
    requires Prepared(pointers, from, p) && Prepared(pointers, from + |p|, q)
    ensures Prepared(pointers, from, p + q)
  {
    forall j | 0 <= j < |p + q| ensures pointers[from + j] == PointerOf((p + q)[j].kind) {
      if j >= |p| {
        assert pointers[from + |p| + (j - |p|)] == PointerOf(q[j - |p|].kind);
      }
    }
  }

  /** Nothing outside [from, to) differs. */
  ghost predicate SameOutside(p: seq<Pointer>, q: seq<Pointer>, from: nat, to: nat) {
    |p| == |q| && forall j :: 0 <= j < |p| && !(from <= j < to) ==> p[j] == q[j]
  }

  method PrepareKind(k: Kind, fs: seq<Field>, start: nat, pointers: array<Pointer>, ghost path: seq<nat>, ghost prefix: string)
    returns (end: nat)
    requires start + |fs| <= pointers.Length
    modifies pointers
    ensures end == start + |fs|
    ensures Prepared(pointers[..], start, KindLeaves(k, fs, path, prefix))
    ensures SameOutside(pointers[..], old(pointers[..]), start, end)
  {
    end := start;
    for j := 0 to |fs|
      invariant end == start + j
      invariant forall i :: start <= i < end ==> pointers[i] == PointerOf(k)
      invariant SameOutside(pointers[..], old(pointers[..]), start, end)
    {
      pointers[end] := PointerOf(k);
      end := end + 1;
    }
  }

  method PrepareOwn(fields: TableFields, order: seq<Kind>, start: nat, pointers: array<Pointer>,
                    ghost path: seq<nat>, ghost prefix: string)
    returns (end: nat)
    requires start + |OrderLeaves(fields, order, path, prefix)| <= pointers.Length
    modifies pointers
    ensures end == start + |OrderLeaves(fields, order, path, prefix)|
    ensures Prepared(pointers[..], start, OrderLeaves(fields, order, path, prefix))
    ensures SameOutside(pointers[..], old(pointers[..]), start, end)
  {
    end := start;
    for i := 0 to |order|
      invariant end == start + |OrderLeaves(fields, order[..i], path, prefix)|
      invariant Prepared(pointers[..], start, OrderLeaves(fields, order[..i], path, prefix))
      invariant SameOutside(pointers[..], old(pointers[..]), start, end)
    {
      OrderStep(fields, order, i, path, prefix);
      OrderPrefix(fields, order, i + 1, path, prefix);
      ghost var before := OrderLeaves(fields, order[..i], path, prefix);
      end := PrepareKind(order[i], fields.Of(order[i]), end, pointers, path, prefix);
      PreparedConcat(pointers[..], start, before, KindLeaves(order[i], fields.Of(order[i]), path, prefix));
    }
    assert order[..|order|] == order;
  }

  method PrepareFields(fields: TableFields, start: nat, pointers: array<Pointer>, ghost path: seq<nat>, ghost prefix: string)
    returns (end: nat)
    requires start + |OrderLeaves(fields, ORDER, path, prefix)| <= pointers.Length
    modifies pointers
    ensures end == start + |OrderLeaves(fields, ORDER, path, prefix)|
    ensures Prepared(pointers[..], start, OrderLeaves(fields, ORDER, path, prefix))
    ensures SameOutside(pointers[..], old(pointers[..]), start, end)
  {
    var order := [
      Ref, UInt, Int, Bool, Float, Time, Date, FakeDelete, Str, UIntNull, IntNull, Enum, Bytes, Set,
      BoolNull, FloatNull, TimeNull, DateNull, Json, RefsMany];
    assert order == ORDER;
    end := PrepareOwn(fields, order, start, pointers, path, prefix);
  }

  method PrepareScanForFields(fields: TableFields, start: nat, pointers: array<Pointer>,
                              ghost path: seq<nat>, ghost prefix: string)
    returns (end: nat)
    requires start + |Leaves(fields, path, prefix)| <= pointers.Length
    modifies pointers
    ensures end == start + |Leaves(fields, path, prefix)|
    ensures Prepared(pointers[..], start, Leaves(fields, path, prefix))
    ensures SameOutside(pointers[..], old(pointers[..]), start, end)
    decreases fields
  {
    end := PrepareFields(fields, start, pointers, path, prefix);
    assert Before(fields, 0, path, prefix) == OrderLeaves(fields, ORDER, path, prefix);
    for i := 0 to |fields.structs|
      invariant end == start + |Before(fields, i, path, prefix)|
      invariant Prepared(pointers[..], start, Before(fields, i, path, prefix))
      invariant SameOutside(pointers[..], old(pointers[..]), start, end)
    {
      var e := fields.structs[i];
      LeavesStep(fields, i, path, prefix);
      StructFits(fields, i, path, prefix);
      ghost var was, from := pointers[..], end;
      end := PrepareScanForFields(e.fields, end, pointers, path + [e.index], SubPrefix(prefix, e));
      PreparedStep(old(pointers[..]), was, pointers[..], start, Before(fields, i, path, prefix),
        Leaves(e.fields, path + [e.index], SubPrefix(prefix, e)));
    }
  }

  lemma PreparedStep(first: seq<Pointer>, was: seq<Pointer>, now: seq<Pointer>, start: nat, p: seq<Leaf>, q: seq<Leaf>)
    requires Prepared(was, start, p) && SameOutside(was, first, start, start + |p|)
    requires Prepared(now, start + |p|, q) && SameOutside(now, was, start + |p|, start + |p| + |q|)
    ensures Prepared(now, start, p + q) && SameOutside(now, first, start, start + |p| + |q|)
  {
    PreparedConcat(now, start, p, q);
  }

  lemma {:induction false} OrderPrefix(fields: TableFields, order: seq<Kind>, n: nat, path: seq<nat>, prefix: string)
    requires n <= |order|
    ensures OrderLeaves(fields, order[..n], path, prefix) <= OrderLeaves(fields, order, path, prefix)
    decreases |order| - n
  {
    if n == |order| {
      assert order[..n] == order;
    } else {
      OrderStep(fields, order, n, path, prefix);
      OrderPrefix(fields, order, n + 1, path, prefix);
    }
  }

  /** The columns up to nested struct n, then those of the struct itself. */
  function Before(fields: TableFields, n: nat, path: seq<nat>, prefix: string): seq<Leaf>
    requires n <= |fields.structs|
  {
    OrderLeaves(fields, ORDER, path, prefix) + StructLeaves(fields, n, path, prefix)
  }

  lemma BeforeEnds(fields: TableFields, path: seq<nat>, prefix: string)
    ensures Before(fields, 0, path, prefix) == OrderLeaves(fields, ORDER, path, prefix)
    ensures Before(fields, |fields.structs|, path, prefix) == Leaves(fields, path, prefix)
  {
  }

  lemma LeavesStep(fields: TableFields, i: nat, path: seq<nat>, prefix: string)
    requires i < |fields.structs|
    ensures
      var e := fields.structs[i];
      var sub := Leaves(e.fields, path + [e.index], SubPrefix(prefix, e));
      Before(fields, i + 1, path, prefix) == Before(fields, i, path, prefix) + sub
  {
    var e := fields.structs[i];
    Regroup(OrderLeaves(fields, ORDER, path, prefix), StructLeaves(fields, i, path, prefix),
      Leaves(e.fields, path + [e.index], SubPrefix(prefix, e)));
  }

  lemma {:induction false} BeforePrefix(fields: TableFields, n: nat, path: seq<nat>, prefix: string)
    requires n <= |fields.structs|
    ensures Before(fields, n, path, prefix) <= Leaves(fields, path, prefix)
    decreases |fields.structs| - n
  {
    if n < |fields.structs| {
      BeforePrefix(fields, n + 1, path, prefix);
      LeavesStep(fields, n, path, prefix);
    }
  }

  lemma StructFits(fields: TableFields, i: nat, path: seq<nat>, prefix: string)
    requires i < |fields.structs|
    ensures
      var e := fields.structs[i];
      |Before(fields, i, path, prefix)| + |Leaves(e.fields, path + [e.index], SubPrefix(prefix, e))|
        <= |Leaves(fields, path, prefix)|
  {
    LeavesStep(fields, i, path, prefix);
    BeforePrefix(fields, i + 1, path, prefix);
  }

  // ---------------------------------------------------------------- every column has its own place

  function OrderFields(fields: TableFields, order: seq<Kind>): seq<Field> {
    if order == [] then []
    else
      var n := |order| - 1;
      OrderFields(fields, order[..n]) + fields.Of(order[n])
  }

  function OwnIndexes(fields: TableFields): set<nat> {
    set f <- OrderFields(fields, ORDER) :: f.index
  }

  function StructIndexes(fields: TableFields, n: nat): set<nat>
    requires n <= |fields.structs|
  {
    set i: nat | 0 <= i < n :: fields.structs[i].index
  }

  /** No two fields or nested structs of one struct have the same index. */
  ghost predicate WellFormed(fields: TableFields) {
    var own := OrderFields(fields, ORDER);
    && (forall i, j :: 0 <= i < j < |own| ==> own[i].index != own[j].index)
    && (forall i, j :: 0 <= i < j < |fields.structs| ==> fields.structs[i].index != fields.structs[j].index)
    && OwnIndexes(fields) !! StructIndexes(fields, |fields.structs|)
    && forall e <- fields.structs :: WellFormed(e.fields)
  }

  ghost predicate DistinctPaths(leaves: seq<Leaf>) {
    forall i, j :: 0 <= i < j < |leaves| ==> leaves[i].path != leaves[j].path
  }

  /** These paths go through path, and then through one of heads. */
  ghost predicate Through(leaves: seq<Leaf>, path: seq<nat>, heads: set<nat>) {
    forall j :: 0 <= j < |leaves| ==> path < leaves[j].path && leaves[j].path[|path|] in heads
  }

  lemma DistinctConcat(p: seq<Leaf>, q: seq<Leaf>, path: seq<nat>, a: set<nat>, b: set<nat>)
    requires DistinctPaths(p) && DistinctPaths(q) && Through(p, path, a) && Through(q, path, b) && a !! b
    ensures DistinctPaths(p + q) && Through(p + q, path, a + b)
  {
    forall i, j | 0 <= i < j < |p + q| ensures (p + q)[i].path != (p + q)[j].path {
      if i < |p| <= j {
        assert p[i].path[|path|] in a && q[j - |p|].path[|path|] in b;
      }
    }
  }

  lemma {:induction false} OrderPlaces(fields: TableFields, order: seq<Kind>, path: seq<nat>, prefix: string)
    ensures
      var leaves := OrderLeaves(fields, order, path, prefix);
      && Collected(OrderFields(fields, order), leaves)
      && forall j :: 0 <= j < |leaves| ==> leaves[j].path == path + [leaves[j].field.index]
  {
    if order != [] {
      OrderPlaces(fields, order[..|order| - 1], path, prefix);
    }
  }

  lemma OwnPlaces(fields: TableFields, path: seq<nat>, prefix: string)
    requires WellFormed(fields)
    ensures
      var leaves := OrderLeaves(fields, ORDER, path, prefix);
      DistinctPaths(leaves) && Through(leaves, path, OwnIndexes(fields))
  {
    var own, leaves := OrderFields(fields, ORDER), OrderLeaves(fields, ORDER, path, prefix);
    OrderPlaces(fields, ORDER, path, prefix);
    forall i, j | 0 <= i < j < |leaves| ensures leaves[i].path != leaves[j].path {
      assert leaves[i].path[|path|] == own[i].index && leaves[j].path[|path|] == own[j].index;
    }
    forall j | 0 <= j < |leaves| ensures path < leaves[j].path && leaves[j].path[|path|] in OwnIndexes(fields) {
      assert own[j] in own;
    }
  }

  lemma {:induction false} StructPlaces(fields: TableFields, n: nat, path: seq<nat>, prefix: string)
    requires n <= |fields.structs| && WellFormed(fields)
    ensures DistinctPaths(StructLeaves(fields, n, path, prefix))
    ensures Through(StructLeaves(fields, n, path, prefix), path, StructIndexes(fields, n))
    decreases fields, n
  {
    if n > 0 {
      var e := fields.structs[n - 1];
      StructPlaces(fields, n - 1, path, prefix);
      PathsDistinct(e.fields, path + [e.index], SubPrefix(prefix, e));
      var sub := Leaves(e.fields, path + [e.index], SubPrefix(prefix, e));
      assert Through(sub, path, {e.index}) by {
        forall j | 0 <= j < |sub| ensures path < sub[j].path && sub[j].path[|path|] in {e.index} {
          assert path + [e.index] < sub[j].path;
        }
      }
      DistinctConcat(StructLeaves(fields, n - 1, path, prefix), sub, path, StructIndexes(fields, n - 1), {e.index});
      assert StructIndexes(fields, n) == StructIndexes(fields, n - 1) + {e.index};
    }
  }

  /** In a well-formed tree every column is in a place of its own. */
  lemma {:induction false} PathsDistinct(fields: TableFields, path: seq<nat>, prefix: string)
    requires WellFormed(fields)
    ensures DistinctPaths(Leaves(fields, path, prefix))
    ensures exists heads :: Through(Leaves(fields, path, prefix), path, heads)
    decreases fields, |fields.structs| + 1
  {
    OwnPlaces(fields, path, prefix);
    StructPlaces(fields, |fields.structs|, path, prefix);
    DistinctConcat(OrderLeaves(fields, ORDER, path, prefix), StructLeaves(fields, |fields.structs|, path, prefix), path,
      OwnIndexes(fields), StructIndexes(fields, |fields.structs|));
  }

  // ---------------------------------------------------------------- the way down to a column

  /** The first nested struct with this index. */
  function StructAt(structs: seq<Embedded>, index: nat): (r: Option<Embedded>)
    ensures r.Some? ==> r.value in structs
  {
    if structs == [] then None else if structs[0].index == index then Some(structs[0]) else StructAt(structs[1..], index)
  }

  /** The struct that the last index of a path is one of. */
  function Inside(fields: TableFields, path: seq<nat>): Option<TableFields>
    decreases |path|
  {
    if |path| <= 1 then Some(fields)
    else
      match StructAt(fields.structs, path[0])
      case None => None
      case Some(e) => Inside(e.fields, path[1..])
  }

  /** The names of the structs on the way there, but for those of anonymous ones. */
  function Way(fields: TableFields, path: seq<nat>): seq<string>
    decreases |path|
  {
    if |path| <= 1 then []
    else
      match StructAt(fields.structs, path[0])
      case None => []
      case Some(e) => (if e.anonymous then [] else [e.name]) + Way(e.fields, path[1..])
  }

  function Flat(names: seq<string>): string {
    if names == [] then "" else names[0] + Flat(names[1..])
  }

  /** The path ends at this field of the tree. */
  ghost predicate EndsAt(fields: TableFields, path: seq<nat>, k: Kind, f: Field) {
    path != [] && path[|path| - 1] == f.index && Inside(fields, path).Some? && f in Inside(fields, path).value.Of(k)
  }

  lemma {:induction false} StructFound(structs: seq<Embedded>, i: nat)
    requires i < |structs| && forall m, n :: 0 <= m < n < |structs| ==> structs[m].index != structs[n].index
    ensures StructAt(structs, structs[i].index) == Some(structs[i])
  {
    if i > 0 {
      assert structs[i] == structs[1..][i - 1] && structs[0].index != structs[i].index;
      StructFound(structs[1..], i - 1);
    }
  }

  /** What the way down says of a column below path. */
  ghost predicate Placed(fields: TableFields, path: seq<nat>, prefix: string, l: Leaf) {
    && path <= l.path && EndsAt(fields, l.path[|path|..], l.kind, l.field)
    && l.column == prefix + Flat(Way(fields, l.path[|path|..])) + l.field.name
  }

  lemma {:induction false} OwnPlaced(fields: TableFields, order: seq<Kind>, path: seq<nat>, prefix: string)
    ensures forall l :: l in OrderLeaves(fields, order, path, prefix) ==> Placed(fields, path, prefix, l)
  {
    if order != [] {
      var n := |order| - 1;
      OwnPlaced(fields, order[..n], path, prefix);
      var fs := fields.Of(order[n]);
      forall l | l in KindLeaves(order[n], fs, path, prefix) ensures Placed(fields, path, prefix, l) {
        assert l.path[|path|..] == [l.field.index];
        assert prefix + Flat([]) == prefix;
      }
    }
  }

  lemma FlatConcat(a: string, name: string, rest: seq<string>, b: string)
    ensures (a + name) + Flat(rest) + b == a + Flat([name] + rest) + b
  {
    assert ([name] + rest)[1..] == rest;
  }

  lemma EndsStep(fields: TableFields, way: seq<nat>, e: Embedded, k: Kind, f: Field)
    requires |way| > 1 && StructAt(fields.structs, way[0]) == Some(e)
    ensures EndsAt(fields, way, k, f) <==> EndsAt(e.fields, way[1..], k, f)
    ensures Way(fields, way) == (if e.anonymous then [] else [e.name]) + Way(e.fields, way[1..])
  {
    hide TableFields.Of;
  }

  lemma StructIs(fields: TableFields, i: nat)
    requires i < |fields.structs| && WellFormed(fields)
    ensures StructAt(fields.structs, fields.structs[i].index) == Some(fields.structs[i]) && WellFormed(fields.structs[i].fields)
  {
    hide OrderFields, OwnIndexes, StructIndexes;
    StructFound(fields.structs, i);
  }

  lemma PlacedBelow(fields: TableFields, i: nat, path: seq<nat>, prefix: string, l: Leaf)
    requires i < |fields.structs| && WellFormed(fields)
    requires
      var e := fields.structs[i];
      Placed(e.fields, path + [e.index], SubPrefix(prefix, e), l)
    ensures Placed(fields, path, prefix, l)
  {
    hide WellFormed, EndsAt, Way, Flat;
    var e := fields.structs[i];
    var below := l.path[|path| + 1..];
    StructIs(fields, i);
    EndsNonEmpty(e.fields, below, l.kind, l.field);
    assert l.path[|path|..] == [e.index] + below;
    assert l.path[|path|..][1..] == below;
    EndsStep(fields, [e.index] + below, e, l.kind, l.field);
    if e.anonymous {
      assert [] + Way(e.fields, below) == Way(e.fields, below);
    } else {
      FlatConcat(prefix, e.name, Way(e.fields, below), l.field.name);
    }
  }

  lemma EndsNonEmpty(fields: TableFields, way: seq<nat>, k: Kind, f: Field)
    requires EndsAt(fields, way, k, f)
    ensures way != []
  {
  }

  lemma {:induction false} StructsPlaced(fields: TableFields, n: nat, path: seq<nat>, prefix: string)
    requires n <= |fields.structs| && WellFormed(fields)
    ensures forall l :: l in StructLeaves(fields, n, path, prefix) ==> Placed(fields, path, prefix, l)
    decreases fields, n
  {
    if n > 0 {
      var e := fields.structs[n - 1];
      StructsPlaced(fields, n - 1, path, prefix);
      AllPlaced(e.fields, path + [e.index], SubPrefix(prefix, e));
      forall l | l in Leaves(e.fields, path + [e.index], SubPrefix(prefix, e)) ensures Placed(fields, path, prefix, l) {
        PlacedBelow(fields, n - 1, path, prefix, l);
      }
    }
  }

  lemma {:induction false} AllPlaced(fields: TableFields, path: seq<nat>, prefix: string)
    requires WellFormed(fields)
    ensures forall l :: l in Leaves(fields, path, prefix) ==> Placed(fields, path, prefix, l)
    decreases fields, |fields.structs| + 1
  {
    OwnPlaced(fields, ORDER, path, prefix);
    StructsPlaced(fields, |fields.structs|, path, prefix);
  }

  /** Some column below path is the field at the end of way. */
  ghost predicate HasLeaf(leaves: seq<Leaf>, path: seq<nat>, way: seq<nat>, k: Kind, f: Field) {
    exists l :: l in leaves && l.path == path + way && l.kind == k && l.field == f
  }

  lemma {:induction false} OwnLeaf(fields: TableFields, order: seq<Kind>, path: seq<nat>, prefix: string, k: Kind, f: Field)
    requires k in order && f in fields.Of(k)
    ensures HasLeaf(OrderLeaves(fields, order, path, prefix), path, [f.index], k, f)
  {
    var n := |order| - 1;
    if k == order[n] {
      var j :| 0 <= j < |fields.Of(k)| && fields.Of(k)[j] == f;
      assert KindLeaves(k, fields.Of(k), path, prefix)[j] == LeafOf(k, f, path, prefix);
    } else {
      OwnLeaf(fields, order[..n], path, prefix, k, f);
      var l :| l in OrderLeaves(fields, order[..n], path, prefix) && l.path == path + [f.index] && l.kind == k && l.field == f;
      assert l in OrderLeaves(fields, order, path, prefix);
    }
  }

  lemma EveryKind(k: Kind)
    ensures k in ORDER
  {
    match k
    case Ref => assert ORDER[0] == k;
    case UInt => assert ORDER[1] == k;
    case Int => assert ORDER[2] == k;
    case Bool => assert ORDER[3] == k;
    case Float => assert ORDER[4] == k;
    case Time => assert ORDER[5] == k;
    case Date => assert ORDER[6] == k;
    case FakeDelete => assert ORDER[7] == k;
    case Str => assert ORDER[8] == k;
    case UIntNull => assert ORDER[9] == k;
    case IntNull => assert ORDER[10] == k;
    case Enum => assert ORDER[11] == k;
    case Bytes => assert ORDER[12] == k;
    case Set => assert ORDER[13] == k;
    case BoolNull => assert ORDER[14] == k;
    case FloatNull => assert ORDER[15] == k;
    case TimeNull => assert ORDER[16] == k;
    case DateNull => assert ORDER[17] == k;
    case Json => assert ORDER[18] == k;
    case RefsMany => assert ORDER[19] == k;
  }

  /** Every field of the tree has a column. */
  lemma {:induction false} FieldHasColumn(fields: TableFields, path: seq<nat>, prefix: string, way: seq<nat>, k: Kind, f: Field)
    requires EndsAt(fields, way, k, f)
    ensures HasLeaf(Leaves(fields, path, prefix), path, way, k, f)
    decreases |way|
  {
    hide TableFields.Of;
    if |way| == 1 {
      OwnHasColumn(fields, path, prefix, way, k, f);
    } else {
      var e := StructAt(fields.structs, way[0]).value;
      EndsStep(fields, way, e, k, f);
      StructIndex(fields.structs, way[0]);
      FieldHasColumn(e.fields, path + [e.index], SubPrefix(prefix, e), way[1..], k, f);
      var i :| 0 <= i < |fields.structs| && fields.structs[i] == e;
      BelowHasColumn(fields, path, prefix, way, i, k, f);
    }
  }

  lemma OwnHasColumn(fields: TableFields, path: seq<nat>, prefix: string, way: seq<nat>, k: Kind, f: Field)
    requires |way| == 1 && EndsAt(fields, way, k, f)
    ensures HasLeaf(Leaves(fields, path, prefix), path, way, k, f)
  {
    hide OrderLeaves, StructLeaves;
    EveryKind(k);
    OwnLeaf(fields, ORDER, path, prefix, k, f);
    assert way == [f.index];
  }

  lemma BelowHasColumn(fields: TableFields, path: seq<nat>, prefix: string, way: seq<nat>, i: nat, k: Kind, f: Field)
    requires |way| > 1 && i < |fields.structs| && fields.structs[i].index == way[0]
    requires
      var e := fields.structs[i];
      HasLeaf(Leaves(e.fields, path + [e.index], SubPrefix(prefix, e)), path + [e.index], way[1..], k, f)
    ensures HasLeaf(Leaves(fields, path, prefix), path, way, k, f)
  {
    hide Leaves, Before;
    var e := fields.structs[i];
    var l :| l in Leaves(e.fields, path + [e.index], SubPrefix(prefix, e))
      && l.path == path + [e.index] + way[1..] && l.kind == k && l.field == f;
    LeavesStep(fields, i, path, prefix);
    BeforePrefix(fields, i + 1, path, prefix);
    assert l in Before(fields, i + 1, path, prefix);
    assert l.path == path + way;
  }

  lemma {:induction false} StructIndex(structs: seq<Embedded>, index: nat)
    requires StructAt(structs, index).Some?
    ensures StructAt(structs, index).value.index == index
  {
    if structs[0].index != index {
      StructIndex(structs[1..], index);
    }
  }

  /**
   * The columns of an entity are exactly the fields of its tree: each is named after the structs on the way to its
   * field, but for the anonymous ones, and then after the field itself.
   */
  lemma ColumnNames(fields: TableFields)
    requires WellFormed(fields)
    ensures forall l :: l in Leaves(fields, [], "") ==>
      EndsAt(fields, l.path, l.kind, l.field) && l.column == Flat(Way(fields, l.path)) + l.field.name
    ensures forall way, k, f :: EndsAt(fields, way, k, f) ==> HasLeaf(Leaves(fields, [], ""), [], way, k, f)
  {
    hide EndsAt, Leaves, Way, HasLeaf;
    AllPlaced(fields, [], "");
    forall l | l in Leaves(fields, [], "")
      ensures EndsAt(fields, l.path, l.kind, l.field) && l.column == Flat(Way(fields, l.path)) + l.field.name
    {
      assert Placed(fields, [], "", l);
      assert l.path[0..] == l.path;
    }
    forall way, k, f | EndsAt(fields, way, k, f) ensures HasLeaf(Leaves(fields, [], ""), [], way, k, f) {
      FieldHasColumn(fields, [], "", way, k, f);
    }
  }
}
