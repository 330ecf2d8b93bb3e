/** One garbage collector at work: the groups it asks about, the range it decides on, the script it calls, as protocol steps. */
module StreamCollector {
  import opened Wrappers
  import opened StreamIds
  import opened StreamProtocol
  import opened StreamSafety
  import opened StreamGc
  import opened StreamConsumer

  function Pending(st: State, stream: string, g: string): set<ID> {
    PendingIds(st, Group(stream, g))
  }

  /** How far a group lets the stream be deleted. */
  function Limit(st: State, stream: string, g: string): ID {
    if Group(stream, g) !in st.last then ZERO
    else if Pending(st, stream, g) != {} then Parse(Least(Pending(st, stream, g)))
    else Parse(st.last[Group(stream, g)])
  }

  predicate AnyPending(reg: Registry, st: State, stream: string)
    requires stream in reg
  {
    exists g :: g in reg[stream] && Group(stream, g) in st.last && Pending(st, stream, g) != {}
  }

  /** Every registered group has got past its first millisecond, and the entry is below all of their limits. */
  ghost predicate Collectable(reg: Registry, st: State, e: Entry)
    requires e.stream in reg
  {
    forall g :: g in reg[e.stream] ==>
      Limit(st, e.stream, g).ms > 0 && Below(e.id, Limit(st, e.stream, g), AnyPending(reg, st, e.stream))
  }

  ghost predicate AllLimits(reg: Registry, st: State, stream: string, ids: map<string, ID>, inPending: bool)
    requires stream in reg
  {
    ids.Keys == reg[stream] && (forall g :: g in ids ==> ids[g] == Limit(st, stream, g)) && inPending == AnyPending(reg, st, stream)
  }

  /** The limits of the groups in done are known. */
  ghost predicate Known(reg: Registry, st: State, stream: string, gc: Collector, done: set<string>)
    requires stream in reg
  {
    && gc.Reading? && gc.stream == stream && gc.ids.Keys == reg[stream]
    && gc.info == (map g | g in reg[stream] && Group(stream, g) in st.last :: st.last[Group(stream, g)])
    && gc.todo == gc.info.Keys - done
    && (forall g :: g in gc.ids ==> gc.ids[g] == if g in done then Limit(st, stream, g) else ZERO)
    && (gc.inPending <==> exists g :: g in gc.info && g in done && Pending(st, stream, g) != {})
  }

  lemma KnownStarts(reg: Registry, st: State, gid: nat, stream: string)
    requires stream in reg && reg[stream] != {} && gid !in st.collectors
    ensures
      var gc := InfoOf(reg, st, stream);
      Known(reg, st, stream, gc, {}) && Next(reg, st, GcInfo(gid, stream), st.(collectors := st.collectors[gid := gc]))
  {
  }

  /** One group more: a step of the protocol, or nothing for a group that is not registered. */
  lemma KnownMore(reg: Registry, st: State, gid: nat, stream: string, done: set<string>, g: string)
    requires stream in reg && gid in st.collectors && Known(reg, st, stream, st.collectors[gid], done)
    requires Group(stream, g) in st.last && g in reg[stream] && g !in done
    ensures
      var gc := AfterPending(st, st.collectors[gid], g);
      && Next(reg, st, GcPending(gid, g), st.(collectors := st.collectors[gid := gc]))
      && Known(reg, st, stream, gc, done + {g})
  {
    var gc := AfterPending(st, st.collectors[gid], g);
    assert BoundOf(st, st.collectors[gid], g) == Limit(st, stream, g);
    forall x ensures x in gc.todo <==> x in gc.info.Keys - (done + {g}) {}
  }

  lemma KnownSame(reg: Registry, st: State, st': State, stream: string, gc: Collector, done: set<string>)
    requires stream in reg && Known(reg, st, stream, gc, done) && st'.last == st.last && st'.pel == st.pel
    ensures Known(reg, st', stream, gc, done)
  {
    forall g ensures Pending(st', stream, g) == Pending(st, stream, g) {}
    forall g ensures Limit(st', stream, g) == Limit(st, stream, g) {}
  }

  lemma KnownFacts(reg: Registry, st: State, stream: string, gc: Collector, done: set<string>)
    requires stream in reg && Known(reg, st, stream, gc, done)
    ensures gc.Reading? && gc.stream == stream
    ensures forall g :: g in reg[stream] && Group(stream, g) in st.last ==> g in gc.info && gc.info[g] == st.last[Group(stream, g)]
  {
  }

  /** Once every group has been asked about, what is known is every group's limit. */
  lemma KnownAll(reg: Registry, st: State, stream: string, gc: Collector, done: set<string>)
    requires stream in reg && Known(reg, st, stream, gc, done)
    requires forall g :: g in reg[stream] && Group(stream, g) in st.last ==> g in done
    ensures AllLimits(reg, st, stream, gc.ids, gc.inPending) && gc.todo == {}
  {
  }

  class GarbageCollector {
    const reg: Registry
    const gid: nat
    var st: State

    /** XINFO GROUPS: every group of the stream and its last delivered id, in some order. */
    method XInfoGroups(stream: string) returns (info: seq<(string, ID)>)
      ensures forall i, j :: 0 <= i < j < |info| ==> info[i].0 != info[j].0
      ensures forall i :: 0 <= i < |info| ==> Group(stream, info[i].0) in st.last && info[i].1 == st.last[Group(stream, info[i].0)]
      ensures forall g :: Group(stream, g) in st.last ==> exists i :: 0 <= i < |info| && info[i].0 == g
    {
      info := [];
      var keys := set k <- st.last | k.stream == stream;
      ghost var all := keys;
      while keys != {}
        invariant keys <= all
        invariant forall i, j :: 0 <= i < j < |info| ==> info[i].0 != info[j].0
        invariant forall i :: 0 <= i < |info| ==>
          && Group(stream, info[i].0) in all - keys && Group(stream, info[i].0) in st.last
          && info[i].1 == st.last[Group(stream, info[i].0)]
        invariant forall g :: Group(stream, g) in all - keys ==> exists i :: 0 <= i < |info| && info[i].0 == g
        decreases |keys|
      {
        var k :| k in keys;
        ghost var before := info;
        info := info + [(k.name, st.last[k])];
        keys := keys - {k};
        forall g | Group(stream, g) in all - keys ensures exists i :: 0 <= i < |info| && info[i].0 == g {
          if g == k.name {
            assert info[|before|].0 == g;
          } else {
            var i :| 0 <= i < |before| && before[i].0 == g;
            assert info[i].0 == g;
          }
        }
      }
      forall g | Group(stream, g) in st.last ensures exists i :: 0 <= i < |info| && info[i].0 == g {
        assert Group(stream, g) in all - keys;
      }
    }

    /** XPENDING: the lowest pending id of a group. */
    method XPending(stream: string, g: string) returns (lower: Option<ID>)
      ensures lower == if Pending(st, stream, g) != {} then Some(Least(Pending(st, stream, g))) else None
    {
      var pending := Pending(st, stream, g);
      lower := if pending != {} then Some(Least(pending)) else None;
    }

    /** The id kept for every registered group, and whether any of them has something pending. */
    method ReadLimits(stream: string) returns (ids: map<string, ID>, inPending: bool, ghost acts: seq<Action>)
      requires stream in reg && reg[stream] != {} && gid !in st.collectors
      modifies this
      ensures AllLimits(reg, st, stream, ids, inPending) && Leads(reg, old(st), acts, st)
      ensures gid in st.collectors && st == old(st).(collectors := old(st).collectors[gid := st.collectors[gid]])
      ensures st.collectors[gid].Reading? && st.collectors[gid].stream == stream && st.collectors[gid].todo == {}
      ensures st.collectors[gid].ids == ids && st.collectors[gid].inPending == inPending
    {
      hide Asking, AllLimits, Known, Leads, InfoOf, Next;
      ghost var was := st;
      var info := XInfoGroups(stream);
      acts := [GcInfo(gid, stream)];
      KnownStarts(reg, st, gid, stream);
      st := st.(collectors := st.collectors[gid := InfoOf(reg, st, stream)]);
      AskingStarts(was, stream);
      ghost var done: set<string> := {};
      for i := 0 to |info|
        invariant Asking(was, stream, acts, done) && st.last == was.last
        invariant forall g :: g in done <==> g in reg[stream] && exists j :: 0 <= j < i && info[j].0 == g
      {
        var name := info[i].0;
        if name in reg[stream] {
          acts := Ask(stream, name, info[i].1, was, acts, done);
          done := done + {name};
        }
      }
      AskingEnds(was, stream, acts, done);
      var gc := st.collectors[gid];
      ids, inPending := gc.ids, gc.inPending;
    }

    /** What one group's reply adds. */
    method Ask(stream: string, name: string, last: ID, ghost was: State, ghost acts: seq<Action>, ghost done: set<string>)
      returns (ghost acts': seq<Action>)
      requires Asking(was, stream, acts, done) && name in reg[stream] && name !in done
      requires Group(stream, name) in st.last && st.last[Group(stream, name)] == last
      modifies this
      ensures Asking(was, stream, acts', done + {name}) && st.last == old(st).last
    {
      hide Next, Leads, Known, Limit, Pending, AfterPending, BoundOf;
      var gc := st.collectors[gid];
      KnownFacts(reg, st, stream, gc, done);
      KnownMore(reg, st, gid, stream, done, name);
      var lower := XPending(stream, name);
      var lastDelivered, inPending := last, gc.inPending;
      if lower.Some? {
        lastDelivered := lower.value;
        inPending := true;
      }
      ghost var mid := st;
      var next := gc.(todo := gc.todo - {name}, ids := gc.ids[name := Parse(lastDelivered)], inPending := inPending);
      AskedIs(mid, gc, stream, name, lower);
      st := st.(collectors := st.collectors[gid := next]);
      LeadsNext(reg, was, acts, mid, GcPending(gid, name), st);
      acts' := acts + [GcPending(gid, name)];
      KnownSame(reg, mid, st, stream, next, done + {name});
    }

    lemma AskedIs(st: State, gc: Collector, stream: string, name: string, lower: Option<ID>)
      requires gc.Reading? && gc.stream == stream && name in gc.info
      requires lower == if Pending(st, stream, name) != {} then Some(Least(Pending(st, stream, name))) else None
      ensures AfterPending(st, gc, name)
           == gc.(todo := gc.todo - {name}, ids := gc.ids[name := Parse(if lower.Some? then lower.value else gc.info[name])],
                  inPending := gc.inPending || lower.Some?)
    {
    }

    /** The collector is at the groups of this stream and has asked about these. */
    ghost predicate Asking(was: State, stream: string, acts: seq<Action>, done: set<string>)
      reads this
    {
      && Leads(reg, was, acts, st) && gid in st.collectors && stream in reg
      && st == was.(collectors := was.collectors[gid := st.collectors[gid]])
      && Known(reg, st, stream, st.collectors[gid], done)
    }

    lemma AskingStarts(was: State, stream: string)
      requires stream in reg && gid in st.collectors && Next(reg, was, GcInfo(gid, stream), st)
      requires st == was.(collectors := was.collectors[gid := InfoOf(reg, was, stream)])
      requires Known(reg, was, stream, InfoOf(reg, was, stream), {})
      ensures Asking(was, stream, [GcInfo(gid, stream)], {})
    {
      hide Next, Known, InfoOf, Leads;
      LeadsNowhere(reg, was);
      LeadsNext(reg, was, [], was, GcInfo(gid, stream), st);
      assert [] + [GcInfo(gid, stream)] == [GcInfo(gid, stream)];
      KnownSame(reg, was, st, stream, InfoOf(reg, was, stream), {});
    }

    lemma AskingEnds(was: State, stream: string, acts: seq<Action>, done: set<string>)
      requires Asking(was, stream, acts, done)
      requires forall g :: g in reg[stream] && Group(stream, g) in st.last ==> g in done
      ensures gid in st.collectors && st == was.(collectors := was.collectors[gid := st.collectors[gid]])
      ensures
        var gc := st.collectors[gid];
        && Leads(reg, was, acts, st) && gc.Reading? && gc.stream == stream && gc.todo == {}
        && AllLimits(reg, st, stream, gc.ids, gc.inPending)
    {
      hide Leads, Known, AllLimits;
      KnownFacts(reg, st, stream, st.collectors[gid], done);
      KnownAll(reg, st, stream, st.collectors[gid], done);
    }

    /** EVALSHA: one call of the drain script. */
    method EvalSha(stream: string, end: RangeEnd) returns (all: bool)
      modifies this
      ensures st == Scripted(old(st), stream, end)
      ensures all <==> |InRange(LiveIds(old(st), stream), end)| < SCRIPT_LIMIT
    {
      hide ScriptDeletes, InRange;
      var s := new RedisStream(LiveIds(st, stream));
      all := s.Script(end);
      var left := s.entries;
      ghost var was := st;
      st := st.(live := set e <- st.live | e.stream != stream || e.id in left);
      LeftIs(was, stream, end, left, st.live);
    }

    lemma LeftIs(st: State, stream: string, end: RangeEnd, left: set<ID>, live: set<Entry>)
      requires left == LiveIds(st, stream) - ScriptDeletes(LiveIds(st, stream), end)
      requires live == set e <- st.live | e.stream != stream || e.id in left
      ensures live == Scripted(st, stream, end).live
    {
      hide ScriptDeletes;
      forall e ensures e in live <==> e in Scripted(st, stream, end).live {
        if e.stream == stream { assert e == Entry(stream, e.id); }
      }
    }

    /** Deletes what every registered group of the stream has done with. */
    method CollectStream(stream: string) returns (ghost acts: seq<Action>)
      requires stream in reg && reg[stream] != {} && gid !in st.collectors
      modifies this
      ensures Leads(reg, old(st), acts, st) && st == old(st).(live := st.live)
      ensures forall e :: e in st.live <==> e in old(st).live && !(e.stream == stream && Collectable(reg, old(st), e))
    {
      hide Next, Leads, AllLimits, Collectable, Blocked, RangeEndOf, Least, Scripted, InRange, Limit, AnyPending, Within;
      ghost var was := st;
      var ids, inPending;
      ids, inPending, acts := ReadLimits(stream);
      ghost var mid := st;
      LimitsSame(reg, mid, was, stream, ids, inPending);
      CollectableIs(reg, was, stream, ids, inPending);
      DecideIsStep(reg, mid, gid);
      var end := RangeToDelete(ids, inPending);
      if end.None? {
        st := st.(collectors := st.collectors - {gid});
        LeadsNext(reg, was, acts, mid, GcDecide(gid), st);
        acts := acts + [GcDecide(gid)];
        Forgotten(was.collectors, gid, mid.collectors[gid]);
        return;
      }
      st := st.(collectors := st.collectors[gid := Draining(stream, end.value)]);
      LeadsNext(reg, was, acts, mid, GcDecide(gid), st);
      acts := acts + [GcDecide(gid)];
      ghost var more := DrainStream(stream, end.value);
      LeadsOn(reg, was, acts, mid.(collectors := mid.collectors[gid := Draining(stream, end.value)]), more, st);
      acts := acts + more;
      Forgotten(was.collectors, gid, Draining(stream, end.value));
    }

    /** The calls of the script until it reports the end, and the end of the collection of this stream. */
    method DrainStream(stream: string, end: RangeEnd) returns (ghost acts: seq<Action>)
      requires gid in st.collectors && st.collectors[gid] == Draining(stream, end)
      modifies this
      ensures Leads(reg, old(st), acts, st) && st == old(st).(live := st.live, collectors := old(st).collectors - {gid})
      ensures forall e :: e in st.live <==> e in old(st).live && !(e.stream == stream && Within(e.id, end))
    {
      hide Next, Leads, Scripted, InRange, Within;
      ghost var was := st;
      acts := [];
      LeadsNowhere(reg, st);
      while true
        invariant Leads(reg, was, acts, st) && st == was.(live := st.live)
        invariant st.live <= was.live && forall e :: e in was.live && e !in st.live ==> e.stream == stream && Within(e.id, end)
        decreases |InRange(LiveIds(st, stream), end)|
      {
        ghost var mid := st;
        DrainIsStep(reg, mid, gid, stream, end);
        var all := EvalSha(stream, end);
        LeadsNext(reg, was, acts, mid, GcDrain(gid), st);
        acts := acts + [GcDrain(gid)];
        if all {
          break;
        }
      }
      ghost var drained := st;
      st := st.(collectors := st.collectors - {gid});
      StopsHere(reg, drained, gid);
      LeadsNext(reg, was, acts, drained, GcStop(gid), st);
      acts := acts + [GcStop(gid)];
    }

    /** The event of one group: all its streams. */
    method HandleEvent(group: string) returns (ghost acts: seq<Action>)
      requires gid !in st.collectors
      modifies this
      ensures Leads(reg, old(st), acts, st) && st == old(st).(live := st.live)
      ensures forall e :: e in st.live <==>
        e in old(st).live && !(e.stream in StreamsOf(reg, group) && Collectable(reg, old(st), e))
    {
      hide Leads, Collectable;
      ghost var was := st;
      acts := [];
      LeadsNowhere(reg, st);
      var streams := StreamsOf(reg, group);
      while streams != {}
        invariant streams <= StreamsOf(reg, group) && Leads(reg, was, acts, st) && st == was.(live := st.live)
        invariant forall e :: e in st.live <==>
          e in was.live && !(e.stream in StreamsOf(reg, group) - streams && Collectable(reg, was, e))
        decreases |streams|
      {
        var stream :| stream in streams;
        ghost var mid := st;
        ghost var more := CollectStream(stream);
        LeadsOn(reg, was, acts, mid, more, st);
        acts := acts + more;
        forall e: Entry | e.stream in reg { CollectableSame(reg, mid, was, e); }
        streams := streams - {stream};
      }
    }
  }

  ghost function Scripted(st: State, stream: string, end: RangeEnd): State {
    st.(live := st.live - (set x | x in ScriptDeletes(LiveIds(st, stream), end) :: Entry(stream, x)))
  }

  lemma LimitsSame(reg: Registry, st: State, was: State, stream: string, ids: map<string, ID>, inPending: bool)
    requires stream in reg && AllLimits(reg, st, stream, ids, inPending) && st.last == was.last && st.pel == was.pel
    ensures AllLimits(reg, was, stream, ids, inPending)
  {
    forall g ensures Pending(was, stream, g) == Pending(st, stream, g) {}
    forall g ensures Limit(was, stream, g) == Limit(st, stream, g) {}
  }

  lemma CollectableSame(reg: Registry, st: State, was: State, e: Entry)
    requires e.stream in reg && st.last == was.last && st.pel == was.pel
    ensures Collectable(reg, st, e) == Collectable(reg, was, e)
  {
    forall g ensures Pending(was, e.stream, g) == Pending(st, e.stream, g) {}
    forall g ensures Limit(was, e.stream, g) == Limit(st, e.stream, g) {}
    assert AnyPending(reg, st, e.stream) == AnyPending(reg, was, e.stream);
  }

  /** The range decided on holds exactly the collectable entries; when there is none, nothing is collectable. */
  lemma CollectableIs(reg: Registry, st: State, stream: string, ids: map<string, ID>, inPending: bool)
    requires stream in reg && reg[stream] != {} && AllLimits(reg, st, stream, ids, inPending)
    ensures ids != map[] && ids.Values != {}
    ensures forall e: Entry :: e.stream == stream ==>
      (Collectable(reg, st, e) <==> !Blocked(ids) && Within(e.id, RangeEndOf(Least(ids.Values), inPending)))
  {
    hide Limit, AnyPending, Below, RangeEndOf, Within;
    var g :| g in reg[stream];
    assert ids[g] in ids.Values;
    forall e: Entry | e.stream == stream
      ensures Collectable(reg, st, e) <==> !Blocked(ids) && Within(e.id, RangeEndOf(Least(ids.Values), inPending))
    {
      if !Blocked(ids) {
        RangeExact(ids, inPending, e.id);
        forall g | g in ids ensures Limit(st, stream, g).ms > 0 { assert ids[g].ms != 0; }
      }
    }
  }

  lemma DecideIsStep(reg: Registry, st: State, gid: nat)
    requires gid in st.collectors && st.collectors[gid].Reading? && st.collectors[gid].todo == {} && st.collectors[gid].ids.Values != {}
    ensures
      var gc := st.collectors[gid];
      Next(reg, st, GcDecide(gid),
        st.(collectors := if Blocked(gc.ids) then st.collectors - {gid}
                          else st.collectors[gid := Draining(gc.stream, RangeEndOf(Least(gc.ids.Values), gc.inPending))]))
  {
    hide RangeEndOf, Blocked, Least;
  }

  /** One call of the script: a step that deletes nothing outside the range, and something of it or all of it. */
  lemma DrainIsStep(reg: Registry, st: State, gid: nat, stream: string, end: RangeEnd)
    requires gid in st.collectors && st.collectors[gid] == Draining(stream, end)
    ensures
      var st' := Scripted(st, stream, end);
      && Next(reg, st, GcDrain(gid), st') && st' == st.(live := st'.live) && st'.live <= st.live
      && (forall e :: e in st.live && e !in st'.live ==> e.stream == stream && Within(e.id, end))
      && (if |InRange(LiveIds(st, stream), end)| < SCRIPT_LIMIT
          then forall e :: e in st'.live && e.stream == stream ==> !Within(e.id, end)
          else |InRange(LiveIds(st', stream), end)| < |InRange(LiveIds(st, stream), end)|)
  {
    hide ScriptDeletes, Within;
    var st', ids := Scripted(st, stream, end), LiveIds(st, stream);
    ScriptEffect(ids, end);
    assert LiveIds(st', stream) == ids - ScriptDeletes(ids, end);
    forall e | e in st.live && e !in st'.live ensures e.stream == stream && Within(e.id, end) {
      DrainDeletes(ids, end, e.id);
    }
    if |InRange(ids, end)| < SCRIPT_LIMIT {
      forall e | e in st'.live && e.stream == stream ensures !Within(e.id, end) {
        assert e.id in LiveIds(st', stream) && e.id !in InRange(LiveIds(st', stream), end);
      }
    }
  }

  lemma Forgotten(collectors: map<nat, Collector>, gid: nat, gc: Collector)
    requires gid !in collectors
    ensures collectors[gid := gc] - {gid} == collectors
  {
  }

  lemma StopsHere(reg: Registry, st: State, gid: nat)
    requires gid in st.collectors
    ensures Next(reg, st, GcStop(gid), st.(collectors := st.collectors - {gid}))
  {
  }
}
