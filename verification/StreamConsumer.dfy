/** One consumer at work: what it reads, hands to its handler and acknowledges, as steps of the stream protocol. */
module StreamConsumer {
  import opened StreamIds
  import opened StreamProtocol
  import opened StreamSafety
  import opened StreamBacklog

  // ---------------------------------------------------------------- steps

  ghost predicate Path(reg: Registry, states: seq<State>, acts: seq<Action>) {
    |states| == |acts| + 1 && forall i :: 0 <= i < |acts| ==> Next(reg, states[i], acts[i], states[i + 1])
  }

  /** These steps lead from one state to the other. */
  ghost predicate Leads(reg: Registry, st: State, acts: seq<Action>, st': State) {
    exists states :: Path(reg, states, acts) && states[0] == st && states[|acts|] == st'
  }

  lemma LeadsNowhere(reg: Registry, st: State)
    ensures Leads(reg, st, [], st)
  {
    assert Path(reg, [st], []);
  }

  lemma LeadsNext(reg: Registry, st: State, acts: seq<Action>, mid: State, a: Action, st': State)
    requires Leads(reg, st, acts, mid) && Next(reg, mid, a, st')
    ensures Leads(reg, st, acts + [a], st')
  {
    hide Next;
    var states :| Path(reg, states, acts) && states[0] == st && states[|acts|] == mid;
    assert Path(reg, states + [st'], acts + [a]);
  }

  lemma LeadsOn(reg: Registry, st: State, acts: seq<Action>, mid: State, more: seq<Action>, st': State)
    requires Leads(reg, st, acts, mid) && Leads(reg, mid, more, st')
    ensures Leads(reg, st, acts + more, st')
  {
    hide Next;
    var p :| Path(reg, p, acts) && p[0] == st && p[|acts|] == mid;
    var q :| Path(reg, q, more) && q[0] == mid && q[|more|] == st';
    var states := p + q[1..];
    forall i | 0 <= i < |acts + more| ensures Next(reg, states[i], (acts + more)[i], states[i + 1]) {
      if i >= |acts| {
        assert states[i] == q[i - |acts|] && states[i + 1] == q[i + 1 - |acts|];
      }
    }
    assert Path(reg, states, acts + more);
  }

  lemma {:induction false} PathInv(reg: Registry, states: seq<State>, acts: seq<Action>, n: nat)
    requires Path(reg, states, acts) && Inv(reg, states[0]) && n <= |acts|
    ensures Inv(reg, states[n])
  {
    hide Next, Inv;
    if n > 0 {
      PathInv(reg, states, acts, n - 1);
      InvStays(reg, states[n - 1], acts[n - 1], states[n]);
    }
  }

  /** Whatever such steps are, they keep what every step of the protocol keeps. */
  lemma LeadsInv(reg: Registry, st: State, acts: seq<Action>, st': State)
    requires Inv(reg, st) && Leads(reg, st, acts, st')
    ensures Inv(reg, st')
  {
    hide Next, Inv;
    var states :| Path(reg, states, acts) && states[0] == st && states[|acts|] == st';
    PathInv(reg, states, acts, |acts|);
  }

  // ---------------------------------------------------------------- rows and events

  /** One stream of a reply. */
  datatype Row = Row(stream: string, ids: seq<ID>)

  ghost function Reads(st: State, sess: Session): map<string, seq<ID>> {
    if sess.pending then BacklogIds(st, sess) else NewIds(st, sess)
  }

  /** The reply, in the order the streams were asked for. Without new entries a stream is left out. */
  function RowsOf(ids: map<string, seq<ID>>, streams: seq<string>, all: bool): seq<Row> {
    if streams == [] then []
    else
      var s := streams[|streams| - 1];
      RowsOf(ids, streams[..|streams| - 1], all) + if all || Logged(ids, s) != [] then [Row(s, Logged(ids, s))] else []
  }

  function Messages(row: Row): (es: seq<Entry>)
    ensures |es| == |row.ids| && forall k :: 0 <= k < |es| ==> es[k] == Entry(row.stream, row.ids[k])
  {
    seq(|row.ids|, k requires 0 <= k < |row.ids| => Entry(row.stream, row.ids[k]))
  }

  function EventsOf(rows: seq<Row>): seq<Entry> {
    if rows == [] then [] else EventsOf(rows[..|rows| - 1]) + Messages(rows[|rows| - 1])
  }

  lemma MessagesMember(row: Row, e: Entry)
    ensures e in Messages(row) <==> e.stream == row.stream && e.id in row.ids
  {
    if e.stream == row.stream && e.id in row.ids {
      var k :| 0 <= k < |row.ids| && row.ids[k] == e.id;
      assert Messages(row)[k] == e;
    }
  }

  lemma {:induction false} EventsMember(ids: map<string, seq<ID>>, streams: seq<string>, all: bool, e: Entry)
    ensures e in EventsOf(RowsOf(ids, streams, all)) <==> e.stream in streams && e.id in Logged(ids, e.stream)
  {
    if streams != [] {
      var n := |streams| - 1;
      var s, less := streams[n], RowsOf(ids, streams[..n], all);
      EventsMember(ids, streams[..n], all, e);
      assert streams == streams[..n] + [s];
      if all || Logged(ids, s) != [] {
        assert (less + [Row(s, Logged(ids, s))])[..|less|] == less;
        MessagesMember(Row(s, Logged(ids, s)), e);
      } else {
        assert less + [] == less;
      }
    }
  }

  predicate Distinct<T(==)>(q: seq<T>) {
    forall i, j :: 0 <= i < j < |q| ==> q[i] != q[j]
  }

  /** No entry is handed over twice in one reply. */
  lemma {:induction false} EventsDistinct(ids: map<string, seq<ID>>, streams: seq<string>, all: bool)
    requires Distinct(streams) && forall s :: s in streams ==> Sorted(Logged(ids, s))
    ensures Distinct(EventsOf(RowsOf(ids, streams, all)))
  {
    if streams != [] {
      var n := |streams| - 1;
      var s, less := streams[n], RowsOf(ids, streams[..n], all);
      EventsDistinct(ids, streams[..n], all);
      if all || Logged(ids, s) != [] {
        var before, after := EventsOf(less), Messages(Row(s, Logged(ids, s)));
        assert (less + [Row(s, Logged(ids, s))])[..|less|] == less;
        forall i, j | 0 <= i < |before| && 0 <= j < |after| ensures before[i] != after[j] {
          EventsMember(ids, streams[..n], all, before[i]);
        }
        forall i, j | 0 <= i < j < |after| ensures after[i] != after[j] { assert Lt(Logged(ids, s)[i], Logged(ids, s)[j]); }
      } else {
        assert less + [] == less;
      }
    }
  }

  /** LastIDs after going through these rows. */
  function AdvanceRows(lastIDs: map<string, ID>, rows: seq<Row>): map<string, ID> {
    if rows == [] then lastIDs
    else
      var row := rows[|rows| - 1];
      var before := AdvanceRows(lastIDs, rows[..|rows| - 1]);
      if row.ids == [] then before else before[row.stream := row.ids[|row.ids| - 1]]
  }

  lemma AdvanceRowsStep(lastIDs: map<string, ID>, rows: seq<Row>, row: Row)
    ensures
      var before := AdvanceRows(lastIDs, rows);
      AdvanceRows(lastIDs, rows + [row]) == if row.ids == [] then before else before[row.stream := row.ids[|row.ids| - 1]]
  {
    assert (rows + [row])[..|rows|] == rows;
  }

  lemma {:induction false} AdvanceRowsAt(lastIDs: map<string, ID>, ids: map<string, seq<ID>>, streams: seq<string>, s: string)
    requires forall x :: x in streams ==> x in lastIDs
    ensures
      var last, log := AdvanceRows(lastIDs, RowsOf(ids, streams, true)), Logged(ids, s);
      && (s in last <==> s in lastIDs)
      && (s in last ==> last[s] == if s in streams && log != [] then log[|log| - 1] else lastIDs[s])
  {
    hide Logged, AdvanceRows;
    if streams == [] {
      AdvanceNone(lastIDs);
    } else {
      var n := |streams| - 1;
      var x := streams[n];
      AdvanceRowsAt(lastIDs, ids, streams[..n], s);
      AdvanceRowsStep(lastIDs, RowsOf(ids, streams[..n], true), Row(x, Logged(ids, x)));
      assert streams == streams[..n] + [x];
    }
  }

  lemma AdvanceNone(lastIDs: map<string, ID>)
    ensures AdvanceRows(lastIDs, []) == lastIDs
  {
  }

  /** Going through a whole backlog reply leaves LastIDs where the protocol says. */
  lemma AdvanceRowsAre(lastIDs: map<string, ID>, ids: map<string, seq<ID>>, streams: seq<string>)
    requires forall x :: x in streams <==> x in lastIDs
    ensures AdvanceRows(lastIDs, RowsOf(ids, streams, true)) == Advance(lastIDs, ids)
  {
    hide AdvanceRows, RowsOf;
    var last := AdvanceRows(lastIDs, RowsOf(ids, streams, true));
    forall s ensures s in last <==> s in lastIDs { AdvanceRowsAt(lastIDs, ids, streams, s); }
    forall s | s in lastIDs ensures last[s] == Advance(lastIDs, ids)[s] { AdvanceRowsAt(lastIDs, ids, streams, s); }
  }

  // ---------------------------------------------------------------- the consumer

  /** What a handler does with a batch: the events it acknowledges itself, by place and in order, and whether it then panics. */
  datatype Reaction = Reaction(acks: seq<nat>, panics: bool)

  ghost predicate Proper(handler: seq<Entry> -> Reaction) {
    forall es, k :: k in handler(es).acks ==> k < |es|
  }

  datatype Outcome = Working | Finished | Panicked

  function Entries(events: seq<Entry>): (r: set<Entry>)
    ensures forall e :: e in r <==> e in events
  {
    set e <- events
  }

  /** The state once Redis has replied to a read. */
  ghost function Replied(st: State, sess: Session): State {
    if sess.pending then st
    else
      var ids := NewIds(st, sess);
      st.(last := AdvanceGroups(st.last, sess.group, ids),
          pel := st.pel + (map slot | slot in Slots(Batch(ids), sess.group) :: sess.name))
  }

  /** The session once it has taken note of a reply. */
  ghost function Noted(st: State, sess: Session): Session {
    var ids := Reads(st, sess);
    if Emptied(ids) then sess.(pending := false)
    else if sess.pending then
      sess.(lastIDs := Advance(sess.lastIDs, ids), work := Handling(Batch(ids), {}), backlog := Append(sess.backlog, ids))
    else sess.(work := Handling(Batch(ids), {}), news := Append(sess.news, ids))
  }

  lemma NothingNew(st: State, sess: Session)
    requires !sess.pending && Emptied(NewIds(st, sess))
    ensures Replied(st, sess) == st
  {
    var ids := NewIds(st, sess);
    assert Batch(ids) == {};
    assert Slots(Batch(ids), sess.group) == {};
    assert AdvanceGroups(st.last, sess.group, ids) == st.last;
  }

  /** Reading and taking note of the reply is one step of the protocol. */
  lemma ReadIsStep(reg: Registry, st: State, sid: nat)
    requires sid in st.sessions && st.sessions[sid].work.Idle?
    ensures
      var sess := st.sessions[sid];
      var st' := Replied(st, sess);
      Next(reg, st, if sess.pending then ReadBacklog(sid) else ReadNew(sid),
        st'.(sessions := st'.sessions[sid := Noted(st, sess)]))
  {
    var sess := st.sessions[sid];
    if !sess.pending && Emptied(NewIds(st, sess)) {
      NothingNew(st, sess);
      assert st.sessions[sid := sess] == st.sessions;
    }
  }

  /** What a read of one stream asks for: the ids it may return. */
  function Asked(st: State, sess: Session, stream: string): set<ID>
    requires stream in sess.lastIDs && Group(stream, sess.group) in st.last
  {
    if sess.pending then After(OwnedIds(st, Group(stream, sess.group), sess.name), sess.lastIDs[stream])
    else After(LiveIds(st, stream), st.last[Group(stream, sess.group)])
  }

  // ---------------------------------------------------------------- acknowledging

  /** The state once the handler of session sid has acknowledged one of its events. */
  function HandlerAcks(st: State, sid: nat, e: Entry): State
    requires sid in st.sessions && st.sessions[sid].work.Handling?
  {
    var sess := st.sessions[sid];
    var after := Ack(st, sid, {e});
    after.(handled := st.handled + {Slot(e, sess.group)},
           sessions := after.sessions[sid := sess.(work := sess.work.(acked := sess.work.acked + {e}))])
  }

  /** The state once the handler has returned. */
  function HandlerReturns(st: State, sid: nat): State
    requires sid in st.sessions && st.sessions[sid].work.Handling?
  {
    var sess := st.sessions[sid];
    st.(handled := st.handled + Slots(sess.work.batch, sess.group),
        sessions := st.sessions[sid := sess.(work := Acking(sess.work.batch - sess.work.acked))])
  }

  /** The state once these ids of one stream have been acknowledged after the handler. */
  function StreamAcks(st: State, sid: nat, stream: string, ids: seq<ID>): State
    requires sid in st.sessions && st.sessions[sid].work.Acking?
  {
    var sess := st.sessions[sid];
    var es := set x <- ids :: Entry(stream, x);
    var after := Ack(st, sid, es);
    after.(sessions := after.sessions[sid := sess.(work := Acking(sess.work.unacked - es))])
  }

  /** What acknowledging these entries for a group changes in Redis: they are no longer pending. */
  ghost predicate Released(was: State, st: State, group: string, gone: set<Entry>) {
    && st.pel == was.pel - Slots(gone, group)
    && st.published == was.published && st.live == was.live && st.top == was.top && st.last == was.last
    && was.handled <= st.handled
  }

  lemma ReleasedMore(was: State, mid: State, st: State, group: string, gone: set<Entry>, more: set<Entry>)
    requires Released(was, mid, group, gone) && Released(mid, st, group, more)
    ensures Released(was, st, group, gone + more)
  {
    assert Slots(gone + more, group) == Slots(gone, group) + Slots(more, group);
  }

  lemma HandlerAckIsStep(reg: Registry, st: State, sid: nat, e: Entry)
    requires sid in st.sessions && st.sessions[sid].work.Handling? && e in st.sessions[sid].work.batch
    ensures
      var sess, st' := st.sessions[sid], HandlerAcks(st, sid, e);
      && Next(reg, st, HandlerAck(sid, e), st') && Released(st, st', sess.group, {e})
      && sid in st'.sessions && st'.sessions[sid] == sess.(work := sess.work.(acked := sess.work.acked + {e}))
  {
    hide Take;
  }

  lemma HandlerReturnIsStep(reg: Registry, st: State, sid: nat)
    requires sid in st.sessions && st.sessions[sid].work.Handling?
    ensures Next(reg, st, HandlerReturn(sid), HandlerReturns(st, sid))
    ensures Released(st, HandlerReturns(st, sid), st.sessions[sid].group, {})
  {
    assert Slots({}, st.sessions[sid].group) == {};
  }

  lemma StreamAckIsStep(reg: Registry, st: State, sid: nat, stream: string, ids: seq<ID>)
    requires sid in st.sessions && st.sessions[sid].work.Acking?
    requires forall x :: x in ids <==> Entry(stream, x) in st.sessions[sid].work.unacked
    ensures
      var sess, st' := st.sessions[sid], StreamAcks(st, sid, stream, ids);
      var es := set e | e in sess.work.unacked && e.stream == stream;
      && Next(reg, st, AckStream(sid, stream), st') && Released(st, st', sess.group, es)
      && sid in st'.sessions && st'.sessions[sid] == sess.(work := Acking(sess.work.unacked - es))
  {
    hide Take;
    var es := set e | e in st.sessions[sid].work.unacked && e.stream == stream;
    assert (set x <- ids :: Entry(stream, x)) == es by {
      forall e ensures e in (set x <- ids :: Entry(stream, x)) <==> e in es {
        if e in es { assert e == Entry(stream, e.id) && e.id in ids; }
      }
    }
  }

  /** The events a handler has acknowledged itself, and those of the first n that it has not. */
  function Chosen(events: seq<Entry>, ack: seq<bool>): set<Entry>
    requires |ack| == |events|
  {
    set k | 0 <= k < |ack| && ack[k] :: events[k]
  }

  function Left(events: seq<Entry>, ack: seq<bool>, n: nat): set<Entry>
    requires n <= |ack| == |events|
  {
    set k | 0 <= k < n && !ack[k] :: events[k]
  }

  lemma LeftAll(events: seq<Entry>, ack: seq<bool>)
    requires |ack| == |events| && Distinct(events)
    ensures Left(events, ack, |events|) == Entries(events) - Chosen(events, ack)
  {
    forall e | e in Left(events, ack, |events|) ensures e in Entries(events) && e !in Chosen(events, ack) {
      var k :| 0 <= k < |events| && !ack[k] && events[k] == e;
      forall i | 0 <= i < |ack| && ack[i] ensures events[i] != e { assert i < k || k < i; }
    }
    forall e | e in Entries(events) && e !in Chosen(events, ack) ensures e in Left(events, ack, |events|) {
      var k :| 0 <= k < |events| && events[k] == e;
      assert !ack[k];
    }
  }

  /** The ids to acknowledge, by stream. */
  ghost predicate Gathered(toAck: map<string, seq<ID>>, es: set<Entry>) {
    forall s, x :: x in Logged(toAck, s) <==> Entry(s, x) in es
  }

  lemma GatheredStep(toAck: map<string, seq<ID>>, events: seq<Entry>, ack: seq<bool>, i: nat)
    requires i < |ack| == |events| && Gathered(toAck, Left(events, ack, i))
    ensures
      var e := events[i];
      Gathered(if ack[i] then toAck else toAck[e.stream := Logged(toAck, e.stream) + [e.id]], Left(events, ack, i + 1))
  {
    var e := events[i];
    assert Left(events, ack, i + 1) == if ack[i] then Left(events, ack, i) else Left(events, ack, i) + {e};
  }

  // ---------------------------------------------------------------- reading

  lemma RowsStep(ids: map<string, seq<ID>>, streams: seq<string>, all: bool, i: nat)
    requires i < |streams|
    ensures
      var s, before := streams[i], RowsOf(ids, streams[..i], all);
      RowsOf(ids, streams[..i + 1], all) == if all || Logged(ids, s) != [] then before + [Row(s, Logged(ids, s))] else before
  {
    assert streams[..i + 1][..i] == streams[..i];
  }

  lemma EventsStep(rows: seq<Row>, i: nat)
    requires i < |rows|
    ensures EventsOf(rows[..i + 1]) == EventsOf(rows[..i]) + Messages(rows[i])
  {
    assert rows[..i + 1][..i] == rows[..i];
  }

  lemma AdvanceStep(lastIDs: map<string, ID>, rows: seq<Row>, i: nat)
    requires i < |rows|
    ensures AdvanceRows(lastIDs, rows[..i + 1])
         == if rows[i].ids == [] then AdvanceRows(lastIDs, rows[..i])
            else AdvanceRows(lastIDs, rows[..i])[rows[i].stream := rows[i].ids[|rows[i].ids| - 1]]
  {
    assert rows[..i + 1] == rows[..i] + [rows[i]];
    AdvanceRowsStep(lastIDs, rows[..i], rows[i]);
  }

  class EventsConsumer {
    const reg: Registry
    const sid: nat
    const streams: seq<string>
    /** What Redis holds, and where every session is. */
    var st: State
    /** Where this session is. */
    var attributes: Session

    /** The session is running and between two reads. */
    ghost predicate Valid()
      reads this
    {
      Inv(reg, st) && Running() && attributes.work.Idle?
    }

    ghost predicate Running()
      reads this
    {
      && sid in st.sessions && st.sessions[sid] == attributes && Distinct(streams)
      && (forall s :: s in streams <==> s in attributes.lastIDs)
      && (forall s :: s in streams ==> Group(s, attributes.group) in st.last)
    }

    /** XREADGROUP over all streams. */
    method XReadGroup() returns (rows: seq<Row>, ids: map<string, seq<ID>>)
      requires Running()
      modifies this`st
      ensures ids == Reads(old(st), attributes) && ids.Keys == attributes.lastIDs.Keys
      ensures rows == RowsOf(ids, streams, attributes.pending)
      ensures st == Replied(old(st), attributes)
    {
      hide NewIds, BacklogOf, NewOf, AdvanceGroups, Batch, Asked, Reads, RowsOf, Logged, Inv, Slots;
      var sess, now := attributes, st;
      ghost var all := Reads(now, sess);
      rows, ids := [], map[];
      NoRows(all, sess.pending);
      for i := 0 to |streams|
        invariant st == now
        invariant rows == RowsOf(all, streams[..i], sess.pending)
        invariant forall s :: s in ids <==> s in streams[..i]
        invariant forall s :: s in ids ==> ids[s] == Logged(all, s)
      {
        var s := streams[i];
        var q := FirstOf(Asked(now, sess, s), sess.count);
        ReadsAt(now, sess, s);
        RowsStep(all, streams, sess.pending, i);
        assert streams[..i + 1] == streams[..i] + [s];
        if sess.pending || |q| > 0 {
          rows := rows + [Row(s, q)];
        }
        ids := ids[s := q];
      }
      assert streams[..|streams|] == streams;
      ReadsAre(now, sess, ids);
      if !sess.pending {
        st := now.(last := AdvanceGroups(now.last, sess.group, ids),
                   pel := now.pel + (map slot | slot in Slots(Batch(ids), sess.group) :: sess.name));
      }
    }

    lemma ReadsAt(st: State, sess: Session, s: string)
      requires s in sess.lastIDs && Group(s, sess.group) in st.last
      ensures Logged(Reads(st, sess), s) == First(Asked(st, sess, s), sess.count)
    {
    }

    lemma ReadsAre(st: State, sess: Session, ids: map<string, seq<ID>>)
      requires forall s :: s in sess.lastIDs ==> Group(s, sess.group) in st.last
      requires ids.Keys == sess.lastIDs.Keys && forall s :: s in ids ==> ids[s] == Logged(Reads(st, sess), s)
      ensures ids == Reads(st, sess) && (!sess.pending ==> ids == NewIds(st, sess))
    {
    }

    lemma NoRows(all: map<string, seq<ID>>, pending: bool)
      ensures RowsOf(all, streams[..0], pending) == []
    {
    }

    /** Reads once and takes note of the reply; a read that returned nothing yields no events. */
    method Receive() returns (events: seq<Entry>)
      requires Running() && attributes.work.Idle?
      modifies this
      ensures Running() && attributes == Noted(old(st), old(attributes))
      ensures st == Replied(old(st), old(attributes)).(sessions := old(st).sessions[sid := attributes])
      ensures events == EventsOf(RowsOf(Reads(old(st), old(attributes)), streams, old(attributes.pending)))
      ensures Entries(events) == Batch(Reads(old(st), old(attributes)))
      ensures events == [] <==> Emptied(Reads(old(st), old(attributes)))
    {
      hide Inv, Replied, Reads, RowsOf, EventsOf, AdvanceRows, Advance, Append, Batch, Emptied, Noted;
      var sess := attributes;
      ghost var was := st;
      var rows, ids := XReadGroup();
      var totalMessages, lastIDs := 0, sess.lastIDs;
      NothingRead(lastIDs, rows);
      ghost var now := st;
      for i := 0 to |rows|
        invariant st == now && attributes == sess
        invariant totalMessages == |EventsOf(rows[..i])|
        invariant lastIDs == if sess.pending then AdvanceRows(sess.lastIDs, rows[..i]) else sess.lastIDs
      {
        var l := |rows[i].ids|;
        EventsStep(rows, i);
        AdvanceStep(sess.lastIDs, rows, i);
        if l > 0 {
          totalMessages := totalMessages + l;
          if sess.pending {
            lastIDs := lastIDs[rows[i].stream := rows[i].ids[l - 1]];
          }
        }
      }
      assert rows[..|rows|] == rows;
      events := [];
      for i := 0 to |rows|
        invariant st == now && attributes == sess && events == EventsOf(rows[..i])
      {
        EventsStep(rows, i);
        events := events + Messages(rows[i]);
      }
      Received(was, sess, streams, lastIDs, rows, events);
      NotedIs(was, sess);
      RepliedKeeps(was, sess);
      if totalMessages == 0 {
        attributes := sess.(pending := false);
      } else {
        attributes :=
          if sess.pending then
            sess.(lastIDs := lastIDs, work := Handling(Entries(events), {}), backlog := Append(sess.backlog, ids))
          else sess.(work := Handling(Entries(events), {}), news := Append(sess.news, ids));
      }
      st := st.(sessions := st.sessions[sid := attributes]);
    }

    /** event.Ack, called by the handler for one of its events. */
    method AckEvent(e: Entry, ghost was: State, ghost acts: seq<Action>) returns (ghost acts': seq<Action>)
      requires Running() && attributes.work.Handling? && e in attributes.work.batch && Leads(reg, was, acts, st)
      modifies this
      ensures Running() && attributes == old(attributes).(work := Handling(old(attributes.work.batch), old(attributes.work.acked) + {e}))
      ensures Released(old(st), st, attributes.group, {e}) && Leads(reg, was, acts', st)
    {
      hide Next, Leads, Inv;
      HandlerAckIsStep(reg, st, sid, e);
      LeadsNext(reg, was, acts, st, HandlerAck(sid, e), HandlerAcks(st, sid, e));
      acts' := acts + [HandlerAck(sid, e)];
      st := HandlerAcks(st, sid, e);
      attributes := st.sessions[sid];
    }

    /** The handler's call: its acknowledgements, in its order. */
    method RunHandler(events: seq<Entry>, reaction: Reaction) returns (ack: seq<bool>, ghost acts: seq<Action>)
      requires Running() && attributes.work == Handling(Entries(events), {}) && forall k :: k in reaction.acks ==> k < |events|
      modifies this
      ensures |ack| == |events| && forall k :: 0 <= k < |ack| ==> (ack[k] <==> k in reaction.acks)
      ensures Running() && attributes == old(attributes).(work := Handling(Entries(events), Chosen(events, ack)))
      ensures Released(old(st), st, attributes.group, Chosen(events, ack)) && Leads(reg, old(st), acts, st)
    {
      hide Next, Leads, Inv, Released, Chosen;
      ack, acts := seq(|events|, _ => false), [];
      LeadsNowhere(reg, st);
      NothingChosen(st, attributes.group, events);
      for i := 0 to |reaction.acks|
        invariant |ack| == |events| && forall k :: 0 <= k < |ack| ==> (ack[k] <==> k in reaction.acks[..i])
        invariant Running() && attributes == old(attributes).(work := Handling(Entries(events), Chosen(events, ack)))
        invariant Released(old(st), st, attributes.group, Chosen(events, ack)) && Leads(reg, old(st), acts, st)
      {
        var k := reaction.acks[i];
        assert reaction.acks[..i + 1] == reaction.acks[..i] + [k] && k in reaction.acks;
        ghost var mid := st;
        acts := AckEvent(events[k], old(st), acts);
        ReleasedMore(old(st), mid, st, attributes.group, Chosen(events, ack), {events[k]});
        ChosenMore(events, ack, k);
        ack := ack[k := true];
      }
      assert reaction.acks[..|reaction.acks|] == reaction.acks;
    }

    /** The ids the handler did not acknowledge, by stream. */
    method ToAck(events: seq<Entry>, ack: seq<bool>) returns (toAck: map<string, seq<ID>>)
      requires |ack| == |events| && Distinct(events)
      ensures Gathered(toAck, Entries(events) - Chosen(events, ack))
    {
      hide Gathered, Left, Chosen;
      toAck := map[];
      NothingLeft(events, ack);
      for i := 0 to |events|
        invariant Gathered(toAck, Left(events, ack, i))
      {
        var e := events[i];
        GatheredStep(toAck, events, ack, i);
        if !ack[i] {
          toAck := toAck[e.stream := Logged(toAck, e.stream) + [e.id]];
        }
      }
      LeftAll(events, ack);
    }

    /** XACK of ids of one stream. */
    method XAck(stream: string, ids: seq<ID>, ghost was: State, ghost acts: seq<Action>) returns (ghost acts': seq<Action>)
      requires Running() && attributes.work.Acking? && Leads(reg, was, acts, st)
      requires forall x :: x in ids <==> Entry(stream, x) in attributes.work.unacked
      modifies this
      ensures
        var unacked := old(attributes.work.unacked);
        && Running() && attributes == old(attributes).(work := Acking(unacked - OnStreams(unacked, {stream})))
        && Released(old(st), st, attributes.group, OnStreams(unacked, {stream})) && Leads(reg, was, acts', st)
    {
      hide Next, Leads, Inv, Released;
      StreamAckIsStep(reg, st, sid, stream, ids);
      LeadsNext(reg, was, acts, st, AckStream(sid, stream), StreamAcks(st, sid, stream, ids));
      acts' := acts + [AckStream(sid, stream)];
      assert OnStreams(attributes.work.unacked, {stream}) == set e | e in attributes.work.unacked && e.stream == stream;
      st := StreamAcks(st, sid, stream, ids);
      attributes := st.sessions[sid];
    }

    /** XACK of everything the handler did not acknowledge, stream by stream. */
    method AckRest(events: seq<Entry>, ack: seq<bool>) returns (ghost acts: seq<Action>)
      requires |ack| == |events| && Distinct(events)
      requires Running() && attributes.work == Acking(Entries(events) - Chosen(events, ack))
      modifies this
      ensures Running() && attributes == old(attributes).(work := Acking({}))
      ensures Released(old(st), st, attributes.group, Entries(events) - Chosen(events, ack)) && Leads(reg, old(st), acts, st)
    {
      hide Next, Leads, Inv, Released, Chosen, Gathered, OnStreams;
      ghost var was, all := st, attributes.work.unacked;
      var toAck := ToAck(events, ack);
      acts := [];
      LeadsNowhere(reg, st);
      NothingReleased(st, attributes.group, all, toAck);
      var keys := toAck.Keys;
      while keys != {}
        invariant keys <= toAck.Keys && Running() && Leads(reg, was, acts, st)
        invariant attributes == old(attributes).(work := Acking(OnStreams(all, keys)))
        invariant Released(was, st, attributes.group, all - OnStreams(all, keys))
        decreases |keys|
      {
        var stream :| stream in keys;
        GatheredOn(toAck, all, keys, stream);
        ghost var mid := st;
        acts := XAck(stream, toAck[stream], was, acts);
        ReleasedMore(was, mid, st, attributes.group, all - OnStreams(all, keys), OnStreams(OnStreams(all, keys), {stream}));
        FewerStreams(all, keys, stream);
        keys := keys - {stream};
      }
      NoStreams(all);
    }

    /** The handler's call and what follows it, for one batch. Nothing else is acknowledged when the handler panics. */
    method Work(events: seq<Entry>, reaction: Reaction) returns (ghost acts: seq<Action>)
      requires Running() && attributes.work == Handling(Entries(events), {}) && Distinct(events)
      requires forall k :: k in reaction.acks ==> k < |events|
      modifies this
      ensures Leads(reg, old(st), acts, st)
      ensures !reaction.panics ==>
        && Running() && attributes == old(attributes).(work := Idle)
        && Released(old(st), st, old(attributes.group), Entries(events))
        && forall e :: e in events ==> Slot(e, attributes.group) in st.handled
      ensures reaction.panics ==>
        sid !in st.sessions && Released(old(st), st, old(attributes.group), Acked(events, reaction.acks))
    {
      hide Next, Leads, Inv, Released, Chosen, Entries, Acked;
      var ack;
      ack, acts := RunHandler(events, reaction);
      ChosenAre(events, ack, reaction.acks);
      ghost var was, group := old(st), old(attributes.group);
      ghost var mid := st;
      NoEntries(mid, group, events, ack);
      if reaction.panics {
        StopIsStep(reg, st, sid, group);
        st := st.(sessions := st.sessions - {sid});
        LeadsNext(reg, was, acts, mid, Stop(sid), st);
        acts := acts + [Stop(sid)];
        ReleasedMore(was, mid, st, group, Chosen(events, ack), {});
        return;
      }
      HandlerReturnIsStep(reg, st, sid);
      st := HandlerReturns(st, sid);
      attributes := st.sessions[sid];
      LeadsNext(reg, was, acts, mid, HandlerReturn(sid), st);
      acts := acts + [HandlerReturn(sid)];
      ReleasedMore(was, mid, st, group, Chosen(events, ack), {});
      ghost var returned := st;
      ghost var more := AckRest(events, ack);
      LeadsOn(reg, was, acts, returned, more, st);
      acts := acts + more;
      ReleasedMore(was, returned, st, group, Chosen(events, ack), Entries(events) - Chosen(events, ack));
      AckDoneIsStep(reg, st, sid);
      ghost var acked := st;
      attributes := attributes.(work := Idle);
      st := st.(sessions := st.sessions[sid := attributes]);
      LeadsNext(reg, was, acts, acked, AckDone(sid), st);
      acts := acts + [AckDone(sid)];
      ReleasedMore(was, acked, st, group, Entries(events), {});
      assert Entries(events) + {} == Entries(events);
      HandledNow(returned, acked, st, group, events, ack);
    }

    /**
     * One round: a read, the handler, the acknowledgements. Everything the read returned has been handled and is no longer
     * pending, unless the handler panicked: then only what it had acknowledged itself is not.
     */
    method DigestKeys(handler: seq<Entry> -> Reaction) returns (r: Outcome, events: seq<Entry>, ghost acts: seq<Action>)
      requires Valid() && Proper(handler)
      modifies this
      ensures Leads(reg, old(st), acts, st)
      ensures events == EventsOf(RowsOf(Reads(old(st), old(attributes)), streams, old(attributes.pending)))
      ensures Entries(events) == Batch(Reads(old(st), old(attributes))) && Distinct(events)
      ensures events == [] <==> Emptied(Reads(old(st), old(attributes)))
      ensures r.Finished? <==> !old(attributes.pending) && events == []
      ensures r.Panicked? <==> events != [] && handler(events).panics
      ensures !r.Panicked? ==>
        && Valid() && attributes == Noted(old(st), old(attributes)).(work := Idle)
        && Released(Replied(old(st), old(attributes)), st, old(attributes.group), Entries(events))
        && forall e :: e in events ==> Slot(e, attributes.group) in st.handled
      ensures r.Panicked? ==>
        && sid !in st.sessions && (forall k :: k in handler(events).acks ==> k < |events|)
        && Released(Replied(old(st), old(attributes)), st, old(attributes.group), Acked(events, handler(events).acks))
    {
      hide Next, Leads, Inv, Released, Entries, Acked, Reads, Replied, Emptied, Noted, RowsOf, EventsOf, Distinct;
      var sess := attributes;
      ghost var was := st;
      EventsOnce(was, sess, streams);
      ReadIsStep(reg, was, sid);
      NotedIs(was, sess);
      events := Receive();
      ghost var read := if sess.pending then ReadBacklog(sid) else ReadNew(sid);
      ReceivedIsStep(reg, was, sess, sid, read, st, attributes);
      acts := [read];
      if events == [] {
        LeadsInv(reg, was, acts, st);
        NothingHandled(Replied(was, sess), st, sess.group);
        r := if sess.pending then Working else Finished;
        return;
      }
      var reaction := handler(events);
      ghost var mid := st;
      ghost var more := Work(events, reaction);
      LeadsOn(reg, was, acts, mid, more, st);
      acts := acts + more;
      ReleasedSince(Replied(was, sess), mid, st, sess.group, if reaction.panics then Acked(events, reaction.acks) else Entries(events));
      if reaction.panics {
        return Panicked, events, acts;
      }
      LeadsInv(reg, was, acts, st);
      return Working, events, acts;
    }

    /** XGROUP CREATE for every stream. */
    method CreateGroups(group: string) returns (ghost acts: seq<Action>)
      requires Inv(reg, st) && sid !in st.sessions && forall s :: s in streams <==> s in StreamsOf(reg, group)
      modifies this`st
      ensures Leads(reg, old(st), acts, st) && sid !in st.sessions
      ensures Since(old(st), st, group, "") && st.pel == old(st).pel
      ensures forall s :: s in streams ==> Group(s, group) in st.last
    {
      hide Next, Leads, Inv, Since;
      ghost var was := st;
      acts := [];
      LeadsNowhere(reg, st);
      SinceNow(st, group);
      for i := 0 to |streams|
        invariant Leads(reg, was, acts, st) && sid !in st.sessions && Since(was, st, group, "") && st.pel == was.pel
        invariant forall s :: s in streams[..i] ==> Group(s, group) in st.last
      {
        var key := Group(streams[i], group);
        assert streams[i] in StreamsOf(reg, group);
        CreateIsStep(reg, was, acts, st, key, group);
        assert streams[..i + 1] == streams[..i] + [streams[i]];
        if key !in st.last {
          st := st.(last := st.last[key := ZERO]);
        }
        acts := acts + [CreateGroup(key)];
      }
      assert streams[..|streams|] == streams;
    }

    /** The attributes a consumer starts with. */
    method Begin(group: string, name: string, count: nat, ghost was: State, ghost acts: seq<Action>) returns (ghost acts': seq<Action>)
      requires Inv(reg, was) && Leads(reg, was, acts, st) && sid !in st.sessions && count > 0 && Distinct(streams)
      requires Since(was, st, group, "") && st.pel == was.pel && forall s :: s in streams <==> s in StreamsOf(reg, group)
      requires forall s :: s in streams ==> Group(s, group) in st.last
      modifies this
      ensures Valid() && Leads(reg, was, acts', st) && Beyond(st, attributes) && Since(was, st, group, name)
      ensures attributes.group == group && attributes.name == name && attributes.count == count
    {
      hide Next, Leads, Inv, Since, Beyond;
      var owned := set slot | slot in st.pel && slot.group == group && st.pel[slot] == name
                              && slot.entry.stream in StreamsOf(reg, group) :: slot.entry;
      attributes := Session(group, name, count, true, (map s | s in StreamsOf(reg, group) :: ZERO), Idle, owned, {}, map[], map[]);
      StartIsStep(reg, was, acts, st, sid, attributes);
      acts' := acts + [Start(sid, group, name, count)];
      st := st.(sessions := st.sessions[sid := attributes]);
    }

    /**
     * Consumes without waiting for more: first what is pending for the name, then what is new, until a read of new entries
     * returns nothing. Then nothing is pending for the name, nothing is left to read, and all of it has been handled; a
     * handler's panic ends it with everything the handler had not acknowledged still pending for the name.
     */
    method Consume(group: string, name: string, count: nat, handler: seq<Entry> -> Reaction)
      returns (panicked: bool, batch: seq<Entry>, ghost acts: seq<Action>)
      requires Inv(reg, st) && sid !in st.sessions && count > 0 && Proper(handler)
      requires Distinct(streams) && forall s :: s in streams <==> s in StreamsOf(reg, group)
      modifies this
      ensures Leads(reg, old(st), acts, st)
      ensures !panicked ==> Drained(old(st), st, group, name, streams)
      ensures panicked ==>
        && sid !in st.sessions
        && forall k :: 0 <= k < |batch| && k !in handler(batch).acks ==>
             Slot(batch[k], group) in st.pel && st.pel[Slot(batch[k], group)] == name
    {
      hide Next, Leads, Inv, Drained, Beyond, Since, Noted, Replied, Released, Emptied;
      hide Entries, Batch, Reads, Acked, Distinct, Due, Undelivered, RowsOf, EventsOf;
      ghost var was := st;
      acts := CreateGroups(group);
      acts := Begin(group, name, count, was, acts);
      while true
        invariant Valid() && Leads(reg, was, acts, st)
        invariant attributes.group == group && attributes.name == name && attributes.count > 0
        invariant Beyond(st, attributes) && Since(was, st, group, name)
        decreases if attributes.pending then 1 else 0, if attributes.pending then st.pel.Keys else {},
          if attributes.pending then {} else Undelivered(st, attributes)
      {
        ghost var before, sess := st, attributes;
        var r;
        ghost var more;
        r, batch, more := DigestKeys(handler);
        LeadsOn(reg, was, acts, before, more, st);
        acts := acts + more;
        if r.Panicked? {
          BatchPends(before, sess, st, batch, handler(batch).acks);
          return true, batch, acts;
        }
        NotedIs(before, sess);
        RoundBeyond(before, sess, streams, st, batch);
        RoundSince(was, before, sess, st, batch);
        if r.Finished? {
          Finishes(reg, was, before, sess, streams, st, attributes, batch);
          return false, batch, acts;
        }
        RoundShrinks(before, sess, streams, st, batch);
      }
    }
  }

  // ---------------------------------------------------------------- a whole call

  /** What is still to be handed over for this name: what it has pending, and the live entries the group has not reached. */
  predicate Due(st: State, group: string, name: string, e: Entry) {
    var slot, k := Slot(e, group), Group(e.stream, group);
    || (slot in st.pel && st.pel[slot] == name)
    || (e in st.live && (k in st.last ==> Lt(st.last[k], e.id)))
  }

  /** Nothing is due any more, and everything that was has been handled. */
  ghost predicate Drained(was: State, st: State, group: string, name: string, streams: seq<string>) {
    && (forall e: Entry :: e.stream in streams ==> !Due(st, group, name, e))
    && (forall e: Entry :: e.stream in streams && Due(was, group, name, e) ==> Slot(e, group) in st.handled)
  }

  /** While the backlog is read, what is pending for the session comes after its cursors; afterwards nothing is. */
  ghost predicate Beyond(st: State, sess: Session) {
    forall slot :: slot in st.pel && slot.group == sess.group && st.pel[slot] == sess.name && slot.entry.stream in sess.lastIDs
      ==> sess.pending && Lt(sess.lastIDs[slot.entry.stream], slot.entry.id)
  }

  /** Only this name can have got new pending entries since. */
  ghost predicate Since(was: State, st: State, group: string, name: string) {
    && st.live == was.live && st.published == was.published
    && (forall k :: k in was.last ==> k in st.last && Le(was.last[k], st.last[k]))
    && (forall slot :: slot in st.pel ==>
          (slot in was.pel && st.pel[slot] == was.pel[slot]) || (slot.group == group && st.pel[slot] == name))
  }

  function Undelivered(st: State, sess: Session): set<Entry> {
    set e | e in st.live && e.stream in sess.lastIDs && Group(e.stream, sess.group) in st.last
            && Lt(st.last[Group(e.stream, sess.group)], e.id)
  }

  lemma SinceNow(st: State, group: string)
    ensures Since(st, st, group, "")
  {
  }

  lemma CreateIsStep(reg: Registry, was: State, acts: seq<Action>, st: State, key: Group, group: string)
    requires Inv(reg, was) && Leads(reg, was, acts, st) && key.stream in reg && Since(was, st, group, "")
    ensures
      var st' := if key in st.last then st else st.(last := st.last[key := ZERO]);
      Leads(reg, was, acts + [CreateGroup(key)], st') && Since(was, st', group, "")
  {
    hide Leads;
    LeadsInv(reg, was, acts, st);
    LeadsNext(reg, was, acts, st, CreateGroup(key), if key in st.last then st else st.(last := st.last[key := ZERO]));
  }

  lemma StartIsStep(reg: Registry, was: State, acts: seq<Action>, st: State, sid: nat, sess: Session)
    requires Inv(reg, was) && Leads(reg, was, acts, st) && sid !in st.sessions && sess.count > 0
    requires forall s :: s in StreamsOf(reg, sess.group) ==> Group(s, sess.group) in st.last
    requires sess.start == set slot | slot in st.pel && slot.group == sess.group && st.pel[slot] == sess.name
                                      && slot.entry.stream in StreamsOf(reg, sess.group) :: slot.entry
    requires sess == Session(sess.group, sess.name, sess.count, true, (map s | s in StreamsOf(reg, sess.group) :: ZERO), Idle,
                             sess.start, {}, map[], map[])
    requires Since(was, st, sess.group, "") && st.pel == was.pel
    ensures
      var st' := st.(sessions := st.sessions[sid := sess]);
      && Leads(reg, was, acts + [Start(sid, sess.group, sess.name, sess.count)], st') && Inv(reg, st')
      && Beyond(st', sess) && Since(was, st', sess.group, sess.name)
  {
    hide Leads, Inv;
    LeadsInv(reg, was, acts, st);
    var st' := st.(sessions := st.sessions[sid := sess]);
    var a := Start(sid, sess.group, sess.name, sess.count);
    assert Next(reg, st, a, st');
    LeadsNext(reg, was, acts, st, a, st');
    InvStays(reg, st, a, st');
    PendingBeyondZero(reg, st', sess);
  }

  lemma PendingBeyondZero(reg: Registry, st: State, sess: Session)
    requires Inv(reg, st) && sess.pending && forall s :: s in sess.lastIDs ==> sess.lastIDs[s] == ZERO
    ensures Beyond(st, sess)
  {
  }

  ghost predicate Placed(st: State, sess: Session, streams: seq<string>) {
    && sess.count > 0 && (forall s :: s in streams <==> s in sess.lastIDs)
    && (forall s :: s in streams ==> Group(s, sess.group) in st.last)
  }

  /** What is pending once everything a read returned has been acknowledged. */
  lemma RoundBeyondAt(st: State, sess: Session, streams: seq<string>, st': State, events: seq<Entry>, slot: Slot)
    requires Placed(st, sess, streams) && Beyond(st, sess) && Entries(events) == Batch(Reads(st, sess))
    requires Released(Replied(st, sess), st', sess.group, Entries(events))
    requires slot in st'.pel && slot.group == sess.group && st'.pel[slot] == sess.name && slot.entry.stream in sess.lastIDs
    ensures
      var sess' := Noted(st, sess);
      sess'.pending && slot.entry.stream in sess'.lastIDs && Lt(sess'.lastIDs[slot.entry.stream], slot.entry.id)
  {
    var e := slot.entry;
    assert slot !in Slots(Entries(events), sess.group);
    assert slot in st.pel && st.pel[slot] == sess.name;
    BacklogTakes(st, sess, e.stream, e.id);
    assert e !in Batch(BacklogIds(st, sess));
    assert BacklogIds(st, sess)[e.stream] != [];
  }

  lemma RoundBeyond(st: State, sess: Session, streams: seq<string>, st': State, events: seq<Entry>)
    requires Placed(st, sess, streams) && Beyond(st, sess) && Entries(events) == Batch(Reads(st, sess))
    requires Released(Replied(st, sess), st', sess.group, Entries(events))
    ensures Beyond(st', Noted(st, sess).(work := Idle))
  {
    hide Entries, Batch, Reads, Released, Replied;
    NotedIs(st, sess);
    AdvanceKeys(sess.lastIDs, Reads(st, sess));
    forall slot | slot in st'.pel && slot.group == sess.group && st'.pel[slot] == sess.name && slot.entry.stream in sess.lastIDs
      ensures
        var sess' := Noted(st, sess);
        sess'.pending && slot.entry.stream in sess'.lastIDs && Lt(sess'.lastIDs[slot.entry.stream], slot.entry.id)
    {
      RoundBeyondAt(st, sess, streams, st', events, slot);
    }
  }

  /** A read moves a group forward only, and makes nothing pending for anyone else. */
  lemma RepliedSince(st: State, sess: Session)
    ensures Since(st, Replied(st, sess), sess.group, sess.name)
  {
    hide NewOf;
    if !sess.pending {
      var ids := NewIds(st, sess);
      forall k | k in st.last ensures Le(st.last[k], AdvanceGroups(st.last, sess.group, ids)[k]) {
        if k.name == sess.group && k.stream in ids && ids[k.stream] != [] {
          NewSorted(st, sess, k.stream);
          assert ids[k.stream][|ids[k.stream]| - 1] in NewOf(st, sess, k.stream);
        }
      }
    }
  }

  lemma SinceOn(was: State, mid: State, st: State, group: string, name: string)
    requires Since(was, mid, group, name) && Since(mid, st, group, name)
    ensures Since(was, st, group, name)
  {
  }

  lemma ReleasedOn(was: State, st: State, group: string, name: string, gone: set<Entry>)
    requires Released(was, st, group, gone)
    ensures Since(was, st, group, name)
  {
  }

  lemma RoundSince(was: State, st: State, sess: Session, st': State, events: seq<Entry>)
    requires Since(was, st, sess.group, sess.name) && Released(Replied(st, sess), st', sess.group, Entries(events))
    ensures Since(was, st', sess.group, sess.name)
  {
    hide Since, Replied, Released;
    RepliedSince(st, sess);
    SinceOn(was, st, Replied(st, sess), sess.group, sess.name);
    ReleasedOn(Replied(st, sess), st', sess.group, sess.name, Entries(events));
    SinceOn(was, Replied(st, sess), st', sess.group, sess.name);
  }

  /** A round that handed something over leaves less to hand over. */
  lemma RoundShrinks(st: State, sess: Session, streams: seq<string>, st': State, events: seq<Entry>)
    requires Placed(st, sess, streams) && Entries(events) == Batch(Reads(st, sess))
    requires Released(Replied(st, sess), st', sess.group, Entries(events))
    ensures events != [] && sess.pending ==> st'.pel.Keys < st.pel.Keys
    ensures events != [] && !sess.pending ==> Undelivered(st', Noted(st, sess).(work := Idle)) < Undelivered(st, sess)
  {
    if events == [] {
      return;
    }
    var e := events[0];
    assert e in Batch(Reads(st, sess));
    if sess.pending {
      BacklogMember(st, sess, e.stream, e.id);
      assert Slot(e, sess.group) in Slots(Entries(events), sess.group);
    } else {
      NewShrinks(st, sess, st', e);
    }
  }

  lemma NewShrinks(st: State, sess: Session, st': State, e: Entry)
    requires !sess.pending && e in Batch(NewIds(st, sess))
    requires st'.live == st.live && st'.last == Replied(st, sess).last
    ensures Undelivered(st', Noted(st, sess).(work := Idle)) < Undelivered(st, sess)
  {
    hide NewOf;
    RepliedSince(st, sess);
    assert Noted(st, sess).lastIDs == sess.lastIDs && Noted(st, sess).group == sess.group;
    NewSlot(st, sess, Slot(e, sess.group));
    assert e in Undelivered(st, sess) && e !in Undelivered(st', Noted(st, sess).(work := Idle));
    forall x | x in Undelivered(st', Noted(st, sess).(work := Idle)) ensures x in Undelivered(st, sess) {
      var k := Group(x.stream, sess.group);
      assert k in st.last && Le(st.last[k], st'.last[k]);
    }
  }

  /** Once a read of new entries returns nothing, nothing is due. */
  lemma Finishes(reg: Registry, was: State, st: State, sess: Session, streams: seq<string>, st': State, sess': Session,
                 events: seq<Entry>)
    requires Inv(reg, was) && Inv(reg, st') && Placed(st, sess, streams) && !sess.pending && Emptied(Reads(st, sess))
    requires events == [] && Released(Replied(st, sess), st', sess.group, Entries(events)) && Since(was, st', sess.group, sess.name)
    requires Beyond(st', sess') && !sess'.pending && sess'.group == sess.group && sess'.name == sess.name && sess'.lastIDs == sess.lastIDs
    ensures Drained(was, st', sess.group, sess.name, streams)
  {
    hide Inv, NewIds, Since, Emptied, Beyond;
    NothingNew(st, sess);
    forall e: Entry | e.stream in streams ensures !Due(st', sess.group, sess.name, e) {
      NotDue(st, sess, st', sess', e);
    }
    forall e: Entry | e.stream in streams && Due(was, sess.group, sess.name, e) ensures Slot(e, sess.group) in st'.handled {
      NotDue(st, sess, st', sess', e);
      DueHandled(reg, was, st', sess.group, sess.name, e);
    }
  }

  lemma NotDue(st: State, sess: Session, st': State, sess': Session, e: Entry)
    requires !sess.pending && Emptied(Reads(st, sess)) && e.stream in sess.lastIDs && sess.count > 0
    requires Group(e.stream, sess.group) in st.last && st'.live == st.live && st'.last == st.last
    requires Beyond(st', sess') && !sess'.pending && sess'.group == sess.group && sess'.name == sess.name && sess'.lastIDs == sess.lastIDs
    ensures !Due(st', sess.group, sess.name, e)
  {
    if e in st.live {
      var s := After(LiveIds(st, e.stream), st.last[Group(e.stream, sess.group)]);
      assert NewIds(st, sess)[e.stream] == [];
      FirstSorted(s, sess.count);
      assert s == {};
      assert e.id !in s;
    }
  }

  lemma DueHandled(reg: Registry, was: State, st: State, group: string, name: string, e: Entry)
    requires Inv(reg, was) && Inv(reg, st) && Since(was, st, group, name)
    requires Due(was, group, name, e) && !Due(st, group, name, e)
    ensures Slot(e, group) in st.handled
  {
    hide Safe, SessionsOk, CollectorsOk;
    var slot := Slot(e, group);
    assert slot !in st.pel;
    assert Settled(st, slot);
  }

  /** What a panicking handler leaves pending. */
  lemma BatchPends(st: State, sess: Session, st': State, batch: seq<Entry>, acks: seq<nat>)
    requires (forall k :: k in acks ==> k < |batch|) && Entries(batch) == Batch(Reads(st, sess)) && Distinct(batch)
    requires Released(Replied(st, sess), st', sess.group, Acked(batch, acks))
    ensures forall k :: 0 <= k < |batch| && k !in acks ==>
      Slot(batch[k], sess.group) in st'.pel && st'.pel[Slot(batch[k], sess.group)] == sess.name
  {
    hide NewIds, BacklogIds;
    forall k | 0 <= k < |batch| && k !in acks
      ensures Slot(batch[k], sess.group) in st'.pel && st'.pel[Slot(batch[k], sess.group)] == sess.name
    {
      assert batch[k] in Entries(batch);
      ReadPends(st, sess, batch[k]);
      assert batch[k] !in Acked(batch, acks);
    }
  }

  lemma ReadPends(st: State, sess: Session, e: Entry)
    requires e in Batch(Reads(st, sess))
    ensures Slot(e, sess.group) in Replied(st, sess).pel && Replied(st, sess).pel[Slot(e, sess.group)] == sess.name
  {
    if sess.pending {
      BacklogMember(st, sess, e.stream, e.id);
    }
  }

  lemma ReceivedIsStep(reg: Registry, was: State, sess: Session, sid: nat, read: Action, st: State, attributes: Session)
    requires Next(reg, was, read, Replied(was, sess).(sessions := Replied(was, sess).sessions[sid := attributes]))
    requires st == Replied(was, sess).(sessions := was.sessions[sid := attributes])
    ensures Leads(reg, was, [read], st)
  {
    hide Next, Replied;
    RepliedKeeps(was, sess);
    LeadsNowhere(reg, was);
    LeadsNext(reg, was, [], was, read, st);
    assert [] + [read] == [read];
  }

  lemma NothingHandled(was: State, st: State, group: string)
    requires st == was.(sessions := st.sessions)
    ensures Released(was, st, group, Entries([]))
  {
    assert Entries([]) == {} && Slots({}, group) == {};
  }

  /** Where sessions stand does not matter here. */
  lemma ReleasedSince(was: State, mid: State, st: State, group: string, gone: set<Entry>)
    requires mid == was.(sessions := mid.sessions) && Released(mid, st, group, gone)
    ensures Released(was, st, group, gone)
  {
  }

  /** The entries at these places. */
  function Acked(events: seq<Entry>, acks: seq<nat>): set<Entry>
    requires forall k :: k in acks ==> k < |events|
  {
    set k <- acks :: events[k]
  }

  lemma ChosenAre(events: seq<Entry>, ack: seq<bool>, acks: seq<nat>)
    requires |ack| == |events| && (forall k :: k in acks ==> k < |events|) && forall k :: 0 <= k < |ack| ==> (ack[k] <==> k in acks)
    ensures Chosen(events, ack) == Acked(events, acks)
  {
    forall e ensures e in Chosen(events, ack) <==> e in Acked(events, acks) {
      if e in Acked(events, acks) {
        var k :| k in acks && events[k] == e;
        assert ack[k];
      }
    }
  }

  lemma HandledNow(returned: State, acked: State, st: State, group: string, events: seq<Entry>, ack: seq<bool>)
    requires |ack| == |events|
    requires forall e :: e in events ==> Slot(e, group) in returned.handled
    requires Released(returned, acked, group, Entries(events) - Chosen(events, ack)) && Released(acked, st, group, {})
    ensures forall e :: e in events ==> Slot(e, group) in st.handled
  {
  }

  lemma NoEntries(st: State, group: string, events: seq<Entry>, ack: seq<bool>)
    requires |ack| == |events|
    ensures Chosen(events, ack) + (Entries(events) - Chosen(events, ack)) == Entries(events)
    ensures Chosen(events, ack) + {} == Chosen(events, ack)
  {
  }

  /** The end of a batch, after everything has been acknowledged. */
  lemma AckDoneIsStep(reg: Registry, st: State, sid: nat)
    requires sid in st.sessions && st.sessions[sid].work == Acking({})
    ensures
      var st' := st.(sessions := st.sessions[sid := st.sessions[sid].(work := Idle)]);
      Next(reg, st, AckDone(sid), st') && Released(st, st', st.sessions[sid].group, {})
  {
    assert Slots({}, st.sessions[sid].group) == {};
  }

  lemma StopIsStep(reg: Registry, st: State, sid: nat, group: string)
    requires sid in st.sessions
    ensures Next(reg, st, Stop(sid), st.(sessions := st.sessions - {sid}))
    ensures Released(st, st.(sessions := st.sessions - {sid}), group, {})
  {
    assert Slots({}, group) == {};
  }

  /** What was handed over as one reply has no entry twice. */
  lemma EventsOnce(st: State, sess: Session, streams: seq<string>)
    requires Distinct(streams) && (forall s :: s in streams <==> s in sess.lastIDs)
    requires forall s :: s in streams ==> Group(s, sess.group) in st.last
    ensures Distinct(EventsOf(RowsOf(Reads(st, sess), streams, sess.pending)))
  {
    hide BacklogOf, NewOf, Distinct;
    forall s | s in streams ensures Sorted(Logged(Reads(st, sess), s)) {
      if sess.pending {
        BacklogSorted(st, sess, s);
      } else {
        NewSorted(st, sess, s);
      }
    }
    EventsDistinct(Reads(st, sess), streams, sess.pending);
  }

  lemma NothingChosen(st: State, group: string, events: seq<Entry>)
    ensures Chosen(events, seq(|events|, _ => false)) == {} && Released(st, st, group, {})
  {
    assert Slots({}, group) == {};
  }

  lemma ChosenMore(events: seq<Entry>, ack: seq<bool>, k: nat)
    requires k < |ack| == |events|
    ensures Chosen(events, ack[k := true]) == Chosen(events, ack) + {events[k]}
  {
  }

  lemma NothingLeft(events: seq<Entry>, ack: seq<bool>)
    requires |ack| == |events|
    ensures Gathered(map[], Left(events, ack, 0))
  {
  }

  /** Those of some entries that are on these streams. */
  ghost function OnStreams(es: set<Entry>, streams: set<string>): set<Entry> {
    set e | e in es && e.stream in streams
  }

  lemma NothingReleased(st: State, group: string, es: set<Entry>, toAck: map<string, seq<ID>>)
    requires Gathered(toAck, es)
    ensures OnStreams(es, toAck.Keys) == es && Released(st, st, group, es - OnStreams(es, toAck.Keys))
  {
    forall e | e in es ensures e.stream in toAck { assert e == Entry(e.stream, e.id) && e.id in Logged(toAck, e.stream); }
    assert es - OnStreams(es, toAck.Keys) == {} && Slots({}, group) == {};
  }

  lemma GatheredOn(toAck: map<string, seq<ID>>, es: set<Entry>, keys: set<string>, stream: string)
    requires Gathered(toAck, es) && stream in keys && keys <= toAck.Keys
    ensures forall x :: x in toAck[stream] <==> Entry(stream, x) in OnStreams(es, keys)
  {
    forall x ensures x in toAck[stream] <==> Entry(stream, x) in OnStreams(es, keys) {
      assert x in Logged(toAck, stream) <==> Entry(stream, x) in es;
    }
  }

  lemma FewerStreams(es: set<Entry>, keys: set<string>, stream: string)
    ensures
      var now := OnStreams(es, keys);
      && now - OnStreams(now, {stream}) == OnStreams(es, keys - {stream})
      && (stream in keys ==> es - now + OnStreams(now, {stream}) == es - OnStreams(es, keys - {stream}))
  {
  }

  lemma NoStreams(es: set<Entry>)
    ensures OnStreams(es, {}) == {} && es - {} == es
  {
  }

  /** What a reply that has been gone through amounts to. */
  lemma Received(st: State, sess: Session, streams: seq<string>, lastIDs: map<string, ID>, rows: seq<Row>, events: seq<Entry>)
    requires forall s :: s in streams <==> s in sess.lastIDs
    requires rows == RowsOf(Reads(st, sess), streams, sess.pending) && events == EventsOf(rows)
    requires Reads(st, sess).Keys == sess.lastIDs.Keys
    requires lastIDs == if sess.pending then AdvanceRows(sess.lastIDs, rows) else sess.lastIDs
    ensures events == [] <==> Emptied(Reads(st, sess))
    ensures Entries(events) == Batch(Reads(st, sess))
    ensures sess.pending ==> lastIDs == Advance(sess.lastIDs, Reads(st, sess))
    ensures lastIDs.Keys == sess.lastIDs.Keys
  {
    hide Reads, RowsOf, EventsOf, AdvanceRows, Advance;
    var ids := Reads(st, sess);
    forall e ensures e in events <==> e in Batch(ids) { EventsMember(ids, streams, sess.pending, e); }
    if events != [] {
      assert events[0] in Batch(ids);
    }
    if s :| s in ids && ids[s] != [] {
      assert Entry(s, ids[s][0]) in Batch(ids);
    }
    if sess.pending {
      AdvanceRowsAre(sess.lastIDs, ids, streams);
      AdvanceKeys(sess.lastIDs, ids);
    }
  }

  lemma RepliedKeeps(st: State, sess: Session)
    ensures
      var st' := Replied(st, sess);
      st'.last.Keys == st.last.Keys && st' == st.(last := st'.last, pel := st'.pel)
  {
    hide NewIds;
  }

  lemma AdvanceKeys(lastIDs: map<string, ID>, ids: map<string, seq<ID>>)
    ensures Advance(lastIDs, ids).Keys == lastIDs.Keys
  {
  }

  lemma NotedIs(st: State, sess: Session)
    ensures
      var ids, sess' := Reads(st, sess), Noted(st, sess);
      if Emptied(ids) then sess' == sess.(pending := false)
      else if sess.pending then
        sess' == sess.(lastIDs := Advance(sess.lastIDs, ids), work := Handling(Batch(ids), {}), backlog := Append(sess.backlog, ids))
      else sess' == sess.(work := Handling(Batch(ids), {}), news := Append(sess.news, ids))
  {
  }

  lemma NothingRead(lastIDs: map<string, ID>, rows: seq<Row>)
    ensures EventsOf(rows[..0]) == [] && AdvanceRows(lastIDs, rows[..0]) == lastIDs
  {
  }
}
