/** The garbage collector's own loops: the minimum of the groups' bounds, the drain script and its repetition. */
module StreamGc {
  import opened StreamIds
  import opened StreamProtocol
  import opened StreamSafety
  import opened Wrappers

  /** The minimum over a map read in any order; a zero blocks it, and nothing at all leaves -1. */
  method MinID(ids: map<string, ID>) returns (ms: int, counter: int)
    ensures Blocked(ids) ==> ms == 0 && counter == 0
    ensures ids == map[] ==> ms == -1
    ensures ids != map[] && !Blocked(ids) ==> ms > 0 && counter >= 0 && ID(ms, counter) == Least(ids.Values)
  {
    ms, counter := -1, 0;
    var left := ids.Keys;
    while left != {}
      invariant left <= ids.Keys
      invariant (exists g :: g in ids.Keys - left && ids[g].ms == 0) ==> ms == 0 && counter == 0
      invariant left == ids.Keys ==> ms == -1 && counter == 0
      invariant left != ids.Keys && !(exists g :: g in ids.Keys - left && ids[g].ms == 0) ==>
        && ms > 0 && counter >= 0
        && (exists g :: g in ids.Keys - left && ids[g] == ID(ms, counter))
        && forall g :: g in ids.Keys - left ==> Le(ID(ms, counter), ids[g])
      decreases left
    {
      var name :| name in left;
      var id := ids[name];
      if id.ms == 0 {
        ms, counter := 0, 0;
      } else if ms == -1 || id.ms < ms || (id.ms == ms && id.counter < counter) {
        ms, counter := id.ms, id.counter;
      }
      left := left - {name};
    }
    if ids != map[] && !Blocked(ids) {
      assert ids.Keys != {};
      assert exists g :: g in ids && ids[g] == ID(ms, counter);
      assert ID(ms, counter) in ids.Values;
      assert Le(Least(ids.Values), ID(ms, counter));
    }
  }

  /** The end of the range handed to the script, or nothing when the stream is skipped. */
  method RangeToDelete(ids: map<string, ID>, inPending: bool) returns (end: Option<RangeEnd>)
    requires ids != map[]
    ensures end == if Blocked(ids) then None else Some(RangeEndOf(Least(ids.Values), inPending))
  {
    var ms, counter := MinID(ids);
    if ms == 0 {
      return None;
    }
    if inPending {
      if counter > 0 {
        end := Some(Whole(ID(ms, counter - 1)));
      } else {
        end := Some(Millis(ms - 1));
      }
    } else {
      end := Some(Whole(ID(ms, counter)));
    }
  }

  const BATCH := 1000

  /** The entries of one Redis stream, and the commands the script runs on it. */
  class RedisStream {
    var entries: set<ID>

    constructor (ids: set<ID>)
      ensures entries == ids
    {
      entries := ids;
    }

    method XRange(end: RangeEnd, count: nat) returns (ids: seq<ID>)
      ensures ids == First(InRange(entries, end), count)
    {
      ids := FirstOf(InRange(entries, end), count);
    }

    method XDel(ids: seq<ID>)
      modifies this
      ensures entries == old(entries) - Elems(ids)
    {
      entries := entries - Elems(ids);
    }

    /** One call of the script: up to SCRIPT_LIMIT entries, and whether it got to the end of the range. */
    method Script(end: RangeEnd) returns (all: bool)
      modifies this
      ensures entries == old(entries) - ScriptDeletes(old(entries), end)
      ensures all <==> |InRange(old(entries), end)| < SCRIPT_LIMIT
    {
      hide InRange, First, Ascending, Elems;
      ghost var range := InRange(entries, end);
      ghost var order := Ascending(range);
      var count := 0;
      all := false;
      ScriptStarts(entries, order);
      while true
        invariant count % BATCH == 0 && count < SCRIPT_LIMIT && count <= |range| && !all
        invariant entries == old(entries) - Elems(order[..count])
        decreases SCRIPT_LIMIT - count
      {
        RestOfRange(old(entries), end, count);
        var ids := XRange(end, BATCH);
        NextBatch(old(entries), end, count, BATCH);
        count := count + |ids|;
        if |ids| > 0 {
          XDel(ids);
        }
        assert entries == old(entries) - Elems(order[..count]);
        if |ids| < BATCH {
          all := true;
          break;
        }
        if count >= SCRIPT_LIMIT {
          break;
        }
      }
      ScriptEnds(old(entries), end, count);
    }
  }

  /** The first n of a range are what one call deletes, when n is all of the range or the script's limit. */
  lemma ScriptEnds(s: set<ID>, end: RangeEnd, n: nat)
    requires n <= |InRange(s, end)| && (n == |InRange(s, end)| <= SCRIPT_LIMIT || n == SCRIPT_LIMIT)
    ensures ScriptDeletes(s, end) == Elems(Ascending(InRange(s, end))[..n])
  {
    hide InRange, Elems;
    var order := Ascending(InRange(s, end));
    assert order[..|order|] == order;
  }

  lemma ScriptStarts(s: set<ID>, order: seq<ID>)
    ensures s == s - Elems(order[..0])
  {
  }

  /** After the first n of a range are gone, what is left of it is the tail of its listing. */
  lemma RestOfRange(s: set<ID>, end: RangeEnd, n: nat)
    requires n <= |InRange(s, end)|
    ensures
      var range := InRange(s, end);
      var rest := InRange(s - Elems(Ascending(range)[..n]), end);
      Ascending(rest) == Ascending(range)[n..] && |rest| == |range| - n
  {
    var range := InRange(s, end);
    var gone := Elems(Ascending(range)[..n]);
    assert InRange(s - gone, end) == range - gone;
    AscendingAfterFirst(range, n);
  }

  lemma NextBatch(s: set<ID>, end: RangeEnd, n: nat, batch: nat)
    requires n <= |InRange(s, end)|
    ensures
      var order := Ascending(InRange(s, end));
      var left := s - Elems(order[..n]);
      var ids := First(InRange(left, end), batch);
      && n + |ids| <= |order|
      && |ids| == (if |order| - n <= batch then |order| - n else batch)
      && left - Elems(ids) == s - Elems(order[..n + |ids|])
  {
    RestOfRange(s, end, n);
    var order := Ascending(InRange(s, end));
    var left := s - Elems(order[..n]);
    var ids := First(InRange(left, end), batch);
    assert ids == order[n..n + |ids|];
    assert order[..n + |ids|] == order[..n] + ids;
    assert Elems(order[..n + |ids|]) == Elems(order[..n]) + Elems(ids);
  }

  lemma ScriptEffect(s: set<ID>, end: RangeEnd)
    ensures
      var rest := s - ScriptDeletes(s, end);
      && InRange(rest, end) <= InRange(s, end)
      && |InRange(rest, end)| == (if |InRange(s, end)| <= SCRIPT_LIMIT then 0 else |InRange(s, end)| - SCRIPT_LIMIT)
      && rest - InRange(rest, end) == s - InRange(s, end)
  {
    var range := InRange(s, end);
    var n := if |range| <= SCRIPT_LIMIT then |range| else SCRIPT_LIMIT;
    var order := Ascending(range);
    assert order[..|range|] == order;
    assert First(range, SCRIPT_LIMIT) == order[..n];
    RestOfRange(s, end, n);
    assert ScriptDeletes(s, end) <= range;
  }

  function Union(arrivals: seq<set<ID>>): set<ID> {
    if arrivals == [] then {} else Union(arrivals[..|arrivals| - 1]) + arrivals[|arrivals| - 1]
  }

  /** arrivals[k] is what publishers append while the k-th call of the script has returned and the next has not run. */
  predicate Publishable(arrivals: seq<set<ID>>, end: RangeEnd) {
    forall k, x :: 0 <= k < |arrivals| && x in arrivals[k] ==> !Within(x, end)
  }

  /** What has been published by the time of the n-th call. */
  function Seen(arrivals: seq<set<ID>>, n: nat): set<ID> {
    Union(if n <= |arrivals| then arrivals[..n] else arrivals)
  }

  /** The script is called until it reports that nothing is left, however much is published meanwhile. */
  method Drain(stream: RedisStream, end: RangeEnd, arrivals: seq<set<ID>>) returns (calls: nat)
    requires Publishable(arrivals, end)
    modifies stream
    ensures InRange(stream.entries, end) == {}
    ensures calls == |InRange(old(stream.entries), end)| / SCRIPT_LIMIT + 1
    ensures stream.entries == old(stream.entries) - InRange(old(stream.entries), end) + Seen(arrivals, calls - 1)
  {
    hide InRange, Seen, ScriptDeletes, Publishable;
    ghost var total := |InRange(stream.entries, end)|;
    calls := 0;
    NoneSeen(old(stream.entries) - InRange(stream.entries, end), arrivals);
    while true
      invariant |InRange(stream.entries, end)| == total - calls * SCRIPT_LIMIT
      invariant stream.entries - InRange(stream.entries, end)
             == old(stream.entries) - InRange(old(stream.entries), end) + Seen(arrivals, calls)
      decreases |InRange(stream.entries, end)|
    {
      ScriptEffect(stream.entries, end);
      ghost var left := |InRange(stream.entries, end)|;
      var res := stream.Script(end);
      if res {
        assert InRange(stream.entries, end) == {};
        calls := calls + 1;
        break;
      }
      assert |InRange(stream.entries, end)| == left - SCRIPT_LIMIT;
      Arrive(stream.entries, arrivals, calls, end);
      if calls < |arrivals| {
        stream.entries := stream.entries + arrivals[calls];
      }
      calls := calls + 1;
    }
  }

  lemma NoneSeen(s: set<ID>, arrivals: seq<set<ID>>)
    ensures s + Seen(arrivals, 0) == s
  {
    assert Union([]) == {};
  }

  lemma Arrive(s: set<ID>, arrivals: seq<set<ID>>, k: nat, end: RangeEnd)
    requires Publishable(arrivals, end)
    ensures k >= |arrivals| ==> Seen(arrivals, k + 1) == Seen(arrivals, k)
    ensures k < |arrivals| ==>
      && InRange(s + arrivals[k], end) == InRange(s, end)
      && Seen(arrivals, k + 1) == Seen(arrivals, k) + arrivals[k]
      && s + arrivals[k] - InRange(s, end) == s - InRange(s, end) + arrivals[k]
  {
    if k < |arrivals| {
      assert arrivals[..k + 1][..k] == arrivals[..k];
    } else {
      assert arrivals[..|arrivals|] == arrivals;
    }
  }

  // ---------------------------------------------------------------- how much is deleted

  /** The range reaches exactly as far as every group's bound allows. */
  lemma RangeExact(ids: map<string, ID>, inPending: bool, x: ID)
    requires ids != map[] && !Blocked(ids)
    ensures ids.Values != {}
    ensures Within(x, RangeEndOf(Least(ids.Values), inPending)) <==> forall g :: g in ids ==> Below(x, ids[g], inPending)
  {
    var g :| g in ids;
    assert ids[g] in ids.Values;
    var min := Least(ids.Values);
    var h :| h in ids && ids[h] == min;
    forall g | g in ids ensures Le(min, ids[g]) { assert ids[g] in ids.Values; }
    if Within(x, RangeEndOf(min, inPending)) {
      assert Below(x, min, inPending);
    }
  }

  /** A stream on which every registered group has read something and nothing is pending: the collector deletes
      exactly the entries settled for every registered group. */
  lemma CollectsAllSettled(reg: Registry, st: State, stream: string, e: Entry)
    requires Shape(reg, st) && stream in reg && reg[stream] != {}
    requires forall g :: g in reg[stream] ==>
      && Group(stream, g) in st.last && st.last[Group(stream, g)].ms > 0
      && Parse(st.last[Group(stream, g)]) == st.last[Group(stream, g)]
      && PendingIds(st, Group(stream, g)) == {}
    requires e in st.live && e.stream == stream
    ensures
      var ids := map g | g in reg[stream] :: Parse(st.last[Group(stream, g)]);
      && !Blocked(ids) && ids.Values != {}
      && (Within(e.id, RangeEndOf(Least(ids.Values), false)) <==>
            forall g :: g in reg[stream] ==> Settled(st, Slot(e, g)))
  {
    var ids := map g | g in reg[stream] :: Parse(st.last[Group(stream, g)]);
    assert ids.Keys == reg[stream];
    RangeExact(ids, false, e.id);
    forall g | g in reg[stream] ensures Below(e.id, ids[g], false) <==> Settled(st, Slot(e, g)) {
      assert Slot(Entry(stream, e.id), g) !in st.pel;
    }
  }
}
