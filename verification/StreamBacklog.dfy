/** A consumer that starts, or starts again after a panic, is handed everything still pending for its name, in id
    order, before any new entry. */
module StreamBacklog {
  import opened StreamIds
  import opened StreamProtocol
  import opened StreamSafety

  predicate Handed(sess: Session, e: Entry) {
    e.id in Logged(sess.backlog, e.stream)
  }

  /** Still waiting to be handed over: pending for this name, after the cursor. */
  predicate Waiting(st: State, sess: Session, e: Entry) {
    var slot := Slot(e, sess.group);
    slot in st.pel && st.pel[slot] == sess.name && e.stream in sess.lastIDs && Lt(sess.lastIDs[e.stream], e.id)
  }

  ghost predicate Covered(st: State, sess: Session) {
    forall e :: e in sess.start && e !in sess.lost && !Handed(sess, e) ==> sess.pending && Waiting(st, sess, e)
  }

  ghost predicate InOrder(st: State, sess: Session, s: string) {
    && Sorted(Logged(sess.backlog, s)) && Sorted(Logged(sess.news, s))
    && (Logged(sess.backlog, s) != [] ==>
          s in sess.lastIDs && sess.lastIDs[s] == Logged(sess.backlog, s)[|Logged(sess.backlog, s)| - 1])
    && (forall x :: x in Logged(sess.news, s) ==> Delivered(st, Slot(Entry(s, x), sess.group)))
  }

  /** While the backlog is read, what the handler holds comes from the backlog. */
  predicate HoldsBacklog(sess: Session) {
    match sess.work
    case Idle => true
    case Handling(batch, _) => forall e :: e in batch ==> Handed(sess, e)
    case Acking(unacked) => forall e :: e in unacked ==> Handed(sess, e)
  }

  ghost predicate HistoryOk(st: State, sess: Session) {
    && sess.count > 0
    && (sess.pending ==> sess.news == map[] && HoldsBacklog(sess))
    && Covered(st, sess)
    && forall s :: InOrder(st, sess, s)
  }

  ghost predicate HistoriesOk(st: State) {
    forall i :: i in st.sessions ==> HistoryOk(st, st.sessions[i])
  }

  // ---------------------------------------------------------------- steps of other sessions

  lemma NotNew(st: State, sess: Session, slot: Slot)
    requires Delivered(st, slot)
    ensures slot !in Slots(Batch(NewIds(st, sess)), sess.group)
  {
    NewSlot(st, sess, slot);
  }

  lemma ReadNewKeepsOwner(reg: Registry, st: State, a: Action, st': State, slot: Slot)
    requires Delivered(st, slot) && a.ReadNew? && Next(reg, st, a, st') && slot in st.pel
    ensures slot in st'.pel && st'.pel[slot] == st.pel[slot]
  {
    NotNew(st, st.sessions[a.sid], slot);
  }

  /** A pending entry keeps its owner unless it is acknowledged or claimed. */
  lemma OwnerKept(reg: Registry, st: State, a: Action, st': State, slot: Slot)
    requires Shape(reg, st) && Next(reg, st, a, st') && slot in st.pel
    requires !a.HandlerAck? && !a.AckStream? && !a.Claim?
    ensures slot in st'.pel && st'.pel[slot] == st.pel[slot]
  {
    hide Next;
    if a.ReadNew? {
      ReadNewKeepsOwner(reg, st, a, st', slot);
    } else if a.Publish? || a.CreateGroup? {
      NewKeyGrows(reg, st, a, st');
    } else {
      OthersKeepOwner(reg, st, a, st');
    }
  }

  lemma OthersKeepOwner(reg: Registry, st: State, a: Action, st': State)
    requires Next(reg, st, a, st')
    requires !a.HandlerAck? && !a.AckStream? && !a.Claim? && !a.ReadNew? && !a.Publish? && !a.CreateGroup?
    ensures st'.pel == st.pel
  {
    hide NewIds, AdvanceGroups, ScriptDeletes, RangeEndOf, Blocked, Append, Advance, BacklogOf, Take, Batch, Slots, StreamsOf;
  }

  lemma BystanderWaits(reg: Registry, st: State, a: Action, st': State, i: nat, e: Entry)
    requires Shape(reg, st) && Next(reg, st, a, st') && i in st.sessions && !Acts(a, i) && i in st'.sessions
    requires e in st.sessions[i].start && e !in st'.sessions[i].lost && Waiting(st, st.sessions[i], e)
    ensures Waiting(st', st.sessions[i], e)
  {
    hide Next;
    if a.HandlerAck? || a.AckStream? || a.Claim? {
      NotTaken(reg, st, a, st', i, e);
    } else {
      OwnerKept(reg, st, a, st', Slot(e, st.sessions[i].group));
    }
  }

  lemma NotTaken(reg: Registry, st: State, a: Action, st': State, i: nat, e: Entry)
    requires Next(reg, st, a, st') && i in st.sessions && !Acts(a, i) && i in st'.sessions
    requires a.HandlerAck? || a.AckStream? || a.Claim?
    requires e in st.sessions[i].start && e !in st'.sessions[i].lost && Waiting(st, st.sessions[i], e)
    ensures Waiting(st', st.sessions[i], e)
  {
    hide NewIds, AdvanceGroups, ScriptDeletes, RangeEndOf, Blocked, Append, Advance, BacklogOf;
  }

  lemma LostGrows(reg: Registry, st: State, a: Action, st': State, i: nat)
    requires Next(reg, st, a, st') && i in st.sessions && !Acts(a, i) && i in st'.sessions
    ensures st.sessions[i].lost <= st'.sessions[i].lost
  {
    hide Next;
    if a.HandlerAck? || a.AckStream? || a.Claim? {
      TakingAddsLost(reg, st, a, st', i);
    } else {
      BystanderUntouched(reg, st, a, st', i);
    }
  }

  lemma TakingAddsLost(reg: Registry, st: State, a: Action, st': State, i: nat)
    requires Next(reg, st, a, st') && i in st.sessions && !Acts(a, i) && i in st'.sessions
    requires a.HandlerAck? || a.AckStream? || a.Claim?
    ensures st.sessions[i].lost <= st'.sessions[i].lost
  {
    hide NewIds, AdvanceGroups, ScriptDeletes, RangeEndOf, Blocked, Append, Advance, BacklogOf;
  }

  lemma DeliveredStays(st: State, st': State, slot: Slot)
    requires Advances(st, st') && Delivered(st, slot)
    ensures Delivered(st', slot)
  {
  }

  lemma OrderKept(st: State, st': State, sess: Session, s: string)
    requires Advances(st, st') && InOrder(st, sess, s)
    ensures InOrder(st', sess, s)
  {
    forall x | x in Logged(sess.news, s) ensures Delivered(st', Slot(Entry(s, x), sess.group)) {
      DeliveredStays(st, st', Slot(Entry(s, x), sess.group));
    }
  }

  lemma BystanderHistory(reg: Registry, st: State, a: Action, st': State, i: nat)
    requires Shape(reg, st) && Next(reg, st, a, st') && i in st.sessions && !Acts(a, i)
    requires HistoryOk(st, st.sessions[i])
    ensures i in st'.sessions && HistoryOk(st', st'.sessions[i])
  {
    BystanderFields(reg, st, a, st', i);
    LostGrows(reg, st, a, st', i);
    StepAdvances(reg, st, a, st');
    var sess := st.sessions[i];
    var sess' := st'.sessions[i];
    forall e | e in sess'.start && e !in sess'.lost && !Handed(sess', e) ensures sess'.pending && Waiting(st', sess', e) {
      BystanderWaits(reg, st, a, st', i, e);
    }
    forall s ensures InOrder(st', sess', s) {
      OrderKept(st, st', sess, s);
      assert InOrder(st', sess, s);
    }
  }

  // ---------------------------------------------------------------- the session's own steps

  ghost function BacklogIds(st: State, sess: Session): map<string, seq<ID>> {
    map s | s in sess.lastIDs :: BacklogOf(st, sess, s)
  }

  lemma BacklogTakes(st: State, sess: Session, stream: string, x: ID)
    requires stream in sess.lastIDs && sess.count > 0
    requires Waiting(st, sess, Entry(stream, x))
    ensures
      var q := BacklogOf(st, sess, stream);
      q != [] && (x in q || Lt(q[|q| - 1], x))
  {
    var s := After(OwnedIds(st, Group(stream, sess.group), sess.name), sess.lastIDs[stream]);
    assert x in s;
    FirstSorted(s, sess.count);
    FirstMember(s, sess.count, x);
  }

  lemma BacklogSorted(st: State, sess: Session, stream: string)
    requires stream in sess.lastIDs
    ensures Sorted(BacklogOf(st, sess, stream))
    ensures forall x :: x in BacklogOf(st, sess, stream) ==> Lt(sess.lastIDs[stream], x)
  {
    var s := After(OwnedIds(st, Group(stream, sess.group), sess.name), sess.lastIDs[stream]);
    FirstSorted(s, sess.count);
    forall x | x in BacklogOf(st, sess, stream) ensures Lt(sess.lastIDs[stream], x) {
      BacklogMember(st, sess, stream, x);
    }
  }

  lemma ExtendSorted(p: seq<ID>, q: seq<ID>, cursor: ID)
    requires Sorted(p) && Sorted(q) && (p != [] ==> p[|p| - 1] == cursor)
    requires forall y :: y in q ==> Lt(cursor, y)
    ensures Sorted(p + q)
    ensures p + q != [] ==> (p + q)[|p + q| - 1] == if q == [] then cursor else q[|q| - 1]
  {
    forall i, j | 0 <= i < j < |p + q| ensures Lt((p + q)[i], (p + q)[j]) {
      if i < |p| <= j { assert q[j - |p|] in q; }
    }
  }

  /** An empty backlog read: nothing that was pending at the start is still waiting. */
  lemma EmptyBacklog(st: State, sess: Session)
    requires HistoryOk(st, sess) && Emptied(BacklogIds(st, sess))
    ensures HistoryOk(st, sess.(pending := false))
  {
    var sess' := sess.(pending := false);
    forall e | e in sess.start && e !in sess.lost && !Handed(sess, e) ensures false {
      assert BacklogIds(st, sess)[e.stream] == [];
      BacklogTakes(st, sess, e.stream, e.id);
    }
    forall s ensures InOrder(st, sess', s) { assert InOrder(st, sess, s); }
  }

  ghost function AfterBacklog(st: State, sess: Session): Session {
    var ids := BacklogIds(st, sess);
    sess.(lastIDs := Advance(sess.lastIDs, ids), work := Handling(Batch(ids), {}), backlog := Append(sess.backlog, ids))
  }

  lemma BacklogLog(st: State, sess: Session, s: string)
    ensures Logged(AfterBacklog(st, sess).backlog, s) == Logged(sess.backlog, s) + Logged(BacklogIds(st, sess), s)
    ensures s !in sess.lastIDs ==> Logged(BacklogIds(st, sess), s) == []
    ensures s in sess.lastIDs ==> Logged(BacklogIds(st, sess), s) == BacklogOf(st, sess, s)
  {
  }

  lemma BacklogCursor(st: State, sess: Session, s: string)
    requires s in sess.lastIDs
    ensures
      var q := BacklogOf(st, sess, s);
      var lastIDs := AfterBacklog(st, sess).lastIDs;
      s in lastIDs && lastIDs[s] == if q == [] then sess.lastIDs[s] else q[|q| - 1]
  {
  }

  lemma BacklogOrder(st: State, sess: Session, s: string)
    requires InOrder(st, sess, s)
    ensures InOrder(st, AfterBacklog(st, sess), s)
  {
    var sess' := AfterBacklog(st, sess);
    assert sess'.news == sess.news && sess'.group == sess.group;
    BacklogLog(st, sess, s);
    if s in sess.lastIDs { BacklogExtends(st, sess, s); }
  }

  predicate AtLast(log: seq<ID>, cursor: ID) {
    log != [] ==> cursor == log[|log| - 1]
  }

  lemma BacklogExtends(st: State, sess: Session, s: string)
    requires s in sess.lastIDs && Sorted(Logged(sess.backlog, s)) && AtLast(Logged(sess.backlog, s), sess.lastIDs[s])
    ensures
      var sess' := AfterBacklog(st, sess);
      s in sess'.lastIDs && Sorted(Logged(sess'.backlog, s)) && AtLast(Logged(sess'.backlog, s), sess'.lastIDs[s])
  {
    var p, q := Logged(sess.backlog, s), BacklogOf(st, sess, s);
    BacklogSorted(st, sess, s);
    ExtendSorted(p, q, sess.lastIDs[s]);
    assert Sorted(p + q) && AtLast(p + q, if q == [] then sess.lastIDs[s] else q[|q| - 1]);
    BacklogLog(st, sess, s);
    BacklogCursor(st, sess, s);
  }

  lemma BacklogWaits(st: State, sess: Session, e: Entry)
    requires HistoryOk(st, sess) && sess.pending && e in sess.start && e !in sess.lost
    requires !Handed(AfterBacklog(st, sess), e)
    ensures Waiting(st, AfterBacklog(st, sess), e)
  {
    BacklogLog(st, sess, e.stream);
    BacklogTakes(st, sess, e.stream, e.id);
  }

  lemma SomeBacklog(st: State, sess: Session)
    requires HistoryOk(st, sess) && sess.pending
    ensures HistoryOk(st, AfterBacklog(st, sess))
  {
    var sess' := AfterBacklog(st, sess);
    forall s ensures InOrder(st, sess', s) {
      assert InOrder(st, sess, s);
      BacklogOrder(st, sess, s);
    }
    forall e | e in sess.start && e !in sess.lost && !Handed(sess', e) ensures Waiting(st, sess', e) {
      BacklogWaits(st, sess, e);
    }
    forall e | e in Batch(BacklogIds(st, sess)) ensures Handed(sess', e) { BacklogLog(st, sess, e.stream); }
  }

  lemma NewSorted(st: State, sess: Session, stream: string)
    requires Group(stream, sess.group) in st.last
    ensures Sorted(NewOf(st, sess, stream))
    ensures forall x :: x in NewOf(st, sess, stream) ==> Lt(st.last[Group(stream, sess.group)], x)
  {
    var s := After(LiveIds(st, stream), st.last[Group(stream, sess.group)]);
    FirstSorted(s, sess.count);
    forall x | x in NewOf(st, sess, stream) ensures Lt(st.last[Group(stream, sess.group)], x) {
      FirstMember(s, sess.count, x);
    }
  }

  lemma BeyondSorted(p: seq<ID>, q: seq<ID>, cursor: ID)
    requires Sorted(p) && Sorted(q) && forall x :: x in p ==> Le(x, cursor)
    requires forall y :: y in q ==> Lt(cursor, y)
    ensures Sorted(p + q)
  {
    forall i, j | 0 <= i < j < |p + q| ensures Lt((p + q)[i], (p + q)[j]) {
      if i < |p| <= j { assert p[i] in p && q[j - |p|] in q; }
    }
  }

  /** New entries continue a stream's log of new entries in id order. */
  lemma NewsOrder(reg: Registry, st: State, a: Action, st': State, s: string)
    requires Inv(reg, st) && Inv(reg, st') && a.ReadNew? && Next(reg, st, a, st')
    requires InOrder(st, st.sessions[a.sid], s)
    ensures InOrder(st', st'.sessions[a.sid], s)
  {
    var sess := st.sessions[a.sid];
    var ids := NewIds(st, sess);
    StepAdvances(reg, st, a, st');
    OrderKept(st, st', sess, s);
    if !Emptied(ids) {
      NewsLog(sess, ids, s);
      if s in ids {
        NewSorted(st, sess, s);
        BeyondSorted(Logged(sess.news, s), ids[s], st.last[Group(s, sess.group)]);
        forall x | x in ids[s] ensures Delivered(st', Slot(Entry(s, x), sess.group)) {
          assert SessionOk(reg, st', st'.sessions[a.sid]);
          assert Entry(s, x) in Batch(ids);
        }
      }
    }
  }

  lemma NewsLog(sess: Session, ids: map<string, seq<ID>>, s: string)
    ensures Logged(Append(sess.news, ids), s) == Logged(sess.news, s) + Logged(ids, s)
  {
  }

  lemma NewsHistory(reg: Registry, st: State, a: Action, st': State)
    requires Inv(reg, st) && Inv(reg, st') && a.ReadNew? && Next(reg, st, a, st')
    requires HistoryOk(st, st.sessions[a.sid])
    ensures HistoryOk(st', st'.sessions[a.sid])
  {
    var sess := st.sessions[a.sid];
    var sess' := st'.sessions[a.sid];
    forall s ensures InOrder(st', sess', s) {
      assert InOrder(st, sess, s);
      NewsOrder(reg, st, a, st', s);
    }
    forall e | e in sess'.start && e !in sess'.lost ensures Handed(sess', e) { assert Handed(sess, e); }
  }

  lemma StartHistory(reg: Registry, st: State, a: Action, st': State)
    requires Inv(reg, st) && a.Start? && Next(reg, st, a, st')
    ensures HistoryOk(st', st'.sessions[a.sid])
  {
    var sess := st'.sessions[a.sid];
    forall e | e in sess.start ensures Waiting(st', sess, e) {
      assert Slot(e, sess.group) in st.pel && st.pel[Slot(e, sess.group)] == sess.name;
    }
  }

  lemma ReadBacklogHistory(reg: Registry, st: State, a: Action, st': State)
    requires Inv(reg, st) && a.ReadBacklog? && Next(reg, st, a, st')
    requires HistoryOk(st, st.sessions[a.sid])
    ensures HistoryOk(st', st'.sessions[a.sid])
  {
    var sess := st.sessions[a.sid];
    var next: Session;
    if Emptied(BacklogIds(st, sess)) {
      EmptyBacklog(st, sess);
      next := sess.(pending := false);
    } else {
      SomeBacklog(st, sess);
      next := AfterBacklog(st, sess);
    }
    assert st'.sessions[a.sid] == next;
    SamePending(st, st', next);
  }

  lemma SamePending(st: State, st': State, sess: Session)
    requires HistoryOk(st, sess) && st'.pel == st.pel && st'.last == st.last && st'.published == st.published
    ensures HistoryOk(st', sess)
  {
    forall s ensures InOrder(st', sess, s) { assert InOrder(st, sess, s); }
    forall e | e in sess.start && e !in sess.lost && !Handed(sess, e) ensures sess.pending && Waiting(st', sess, e) {
      assert Waiting(st, sess, e);
    }
  }

  predicate Works(a: Action) {
    a.HandlerAck? || a.HandlerDelete? || a.HandlerReturn? || a.AckStream? || a.AckDone?
  }

  /** Acknowledging and returning only touch entries that were handed over. */
  lemma WorkWaits(reg: Registry, st: State, a: Action, st': State, slot: Slot)
    requires Works(a) && Next(reg, st, a, st') && slot in st.pel
    ensures
      var sess := st.sessions[a.sid];
      || (slot in st'.pel && st'.pel[slot] == st.pel[slot])
      || (sess.work.Handling? && slot.entry in sess.work.batch)
      || (sess.work.Acking? && slot.entry in sess.work.unacked)
  {
  }

  lemma WorkFields(reg: Registry, st: State, a: Action, st': State)
    requires Works(a) && Next(reg, st, a, st') && HoldsBacklog(st.sessions[a.sid])
    ensures
      var sess, sess' := st.sessions[a.sid], st'.sessions[a.sid];
      sess' == sess.(work := sess'.work) && HoldsBacklog(sess')
  {
  }

  lemma WorkKeepsFields(reg: Registry, st: State, a: Action, st': State)
    requires Works(a) && Next(reg, st, a, st')
    ensures st'.sessions[a.sid] == st.sessions[a.sid].(work := st'.sessions[a.sid].work)
  {
  }

  lemma WorkHistory(reg: Registry, st: State, a: Action, st': State)
    requires Works(a) && Inv(reg, st) && Next(reg, st, a, st') && HistoryOk(st, st.sessions[a.sid])
    ensures HistoryOk(st', st'.sessions[a.sid])
  {
    hide SessionsOk, CollectorsOk, Safe, Accounted;
    var sess := st.sessions[a.sid];
    var sess' := st'.sessions[a.sid];
    hide Next;
    StepAdvances(reg, st, a, st');
    WorkKeepsFields(reg, st, a, st');
    if sess.pending { WorkFields(reg, st, a, st'); }
    forall s ensures InOrder(st', sess', s) {
      assert InOrder(st, sess, s);
      OrderKept(st, st', sess, s);
      assert InOrder(st', sess, s);
    }
    forall e | e in sess'.start && e !in sess'.lost && !Handed(sess', e) ensures sess'.pending && Waiting(st', sess', e) {
      assert Waiting(st, sess, e);
      WorkWaits(reg, st, a, st', Slot(e, sess.group));
    }
  }

  lemma HistoriesStay(reg: Registry, st: State, a: Action, st': State)
    requires Inv(reg, st) && HistoriesOk(st) && Next(reg, st, a, st')
    ensures HistoriesOk(st')
  {
    InvStays(reg, st, a, st');
    forall i | i in st'.sessions ensures HistoryOk(st', st'.sessions[i]) {
      if i in st.sessions && !Acts(a, i) {
        BystanderHistory(reg, st, a, st', i);
      } else {
        ActorHistory(reg, st, a, st', i);
      }
    }
  }

  lemma ActorHistory(reg: Registry, st: State, a: Action, st': State, i: nat)
    requires Inv(reg, st) && Inv(reg, st') && HistoriesOk(st) && Next(reg, st, a, st')
    requires i in st'.sessions && (i in st.sessions ==> Acts(a, i))
    ensures HistoryOk(st', st'.sessions[i])
  {
    ActorIs(reg, st, a, st', i);
    if a.Start? {
      StartHistory(reg, st, a, st');
    } else if a.ReadBacklog? {
      ReadBacklogHistory(reg, st, a, st');
    } else if a.ReadNew? {
      NewsHistory(reg, st, a, st');
    } else {
      WorkHistory(reg, st, a, st');
    }
  }

  lemma ActorIs(reg: Registry, st: State, a: Action, st': State, i: nat)
    requires Next(reg, st, a, st') && i in st'.sessions && (i in st.sessions ==> Acts(a, i))
    ensures Acts(a, i) && !a.Stop? && (i in st.sessions || a.Start?)
  {
  }

  lemma {:induction false} RunHistories(reg: Registry, states: seq<State>, actions: seq<Action>, n: nat)
    requires Run(reg, states, actions) && n < |states|
    ensures HistoriesOk(states[n])
    decreases n
  {
    if n > 0 {
      RunHistories(reg, states, actions, n - 1);
      RunInv(reg, states, actions, n - 1);
      HistoriesStay(reg, states[n - 1], actions[n - 1], states[n]);
    }
  }

  /** In every run, once a session has been handed a new entry, every entry that was pending for its name when it
      began has been handed to its handler, unless another session acknowledged it or it was claimed away; and each
      stream's backlog and new entries were handed over in id order. */
  lemma {:induction false} BacklogBeforeNew(
    reg: Registry, states: seq<State>, actions: seq<Action>, n: nat, i: nat, e: Entry, s: string)
    requires Run(reg, states, actions) && n < |states| && i in states[n].sessions
    requires e in states[n].sessions[i].start && e !in states[n].sessions[i].lost
    requires Logged(states[n].sessions[i].news, s) != []
    ensures Handed(states[n].sessions[i], e)
    ensures Sorted(Logged(states[n].sessions[i].backlog, s)) && Sorted(Logged(states[n].sessions[i].news, s))
  {
    RunHistories(reg, states, actions, n);
    var sess := states[n].sessions[i];
    assert HistoryOk(states[n], sess);
    assert InOrder(states[n], sess, s);
  }

  /** The only ways to lose a pending entry to someone else. */
  lemma LostBy(reg: Registry, st: State, a: Action, st': State, i: nat, e: Entry)
    requires Next(reg, st, a, st') && i in st.sessions && i in st'.sessions
    requires e in st'.sessions[i].lost && e !in st.sessions[i].lost
    ensures
      var slot := Slot(e, st.sessions[i].group);
      || ((a.HandlerAck? || a.AckStream?) && a.sid != i && slot !in st'.pel)
      || (a.Claim? && a.to != st.sessions[i].name && slot in st'.pel && st'.pel[slot] == a.to)
  {
    hide Next;
    if Acts(a, i) {
      ActorLosesNothing(reg, st, a, st', i);
    } else if a.HandlerAck? || a.AckStream? {
      LostByAck(reg, st, a, st', i, e);
    } else if a.Claim? {
      LostByClaim(reg, st, a, st', i, e);
    } else {
      BystanderUntouched(reg, st, a, st', i);
    }
  }

  lemma ActorLosesNothing(reg: Registry, st: State, a: Action, st': State, i: nat)
    requires Next(reg, st, a, st') && i in st.sessions && i in st'.sessions && Acts(a, i)
    ensures st'.sessions[i].lost == st.sessions[i].lost
  {
    hide NewIds, AdvanceGroups, ScriptDeletes, RangeEndOf, Blocked, Append, Advance, BacklogOf, Batch, Slots, StreamsOf;
  }

  lemma LostByAck(reg: Registry, st: State, a: Action, st': State, i: nat, e: Entry)
    requires Next(reg, st, a, st') && i in st.sessions && i in st'.sessions && !Acts(a, i) && (a.HandlerAck? || a.AckStream?)
    requires e in st'.sessions[i].lost && e !in st.sessions[i].lost
    ensures a.sid != i && Slot(e, st.sessions[i].group) !in st'.pel
  {
    hide NewIds, AdvanceGroups, ScriptDeletes, RangeEndOf, Blocked, Append, Advance, BacklogOf;
  }

  lemma LostByClaim(reg: Registry, st: State, a: Action, st': State, i: nat, e: Entry)
    requires Next(reg, st, a, st') && i in st.sessions && i in st'.sessions && a.Claim?
    requires e in st'.sessions[i].lost && e !in st.sessions[i].lost
    ensures
      var slot := Slot(e, st.sessions[i].group);
      a.to != st.sessions[i].name && slot in st'.pel && st'.pel[slot] == a.to
  {
    hide NewIds, AdvanceGroups, ScriptDeletes, RangeEndOf, Blocked, Append, Advance, BacklogOf;
  }

  /** A handler that panics leaves everything it had not acknowledged pending, for the next session of that name. */
  lemma StopKeepsPending(reg: Registry, st: State, sid: nat, mid: State, sid': nat, st': State, e: Entry)
    requires Inv(reg, st) && sid in st.sessions
    requires Next(reg, st, Stop(sid), mid)
    requires Next(reg, mid, Start(sid', st.sessions[sid].group, st.sessions[sid].name, st.sessions[sid].count), st')
    requires Slot(e, st.sessions[sid].group) in st.pel
    requires st.pel[Slot(e, st.sessions[sid].group)] == st.sessions[sid].name
    requires e.stream in st.sessions[sid].lastIDs
    ensures e in st'.sessions[sid'].start && Waiting(st', st'.sessions[sid'], e)
  {
    assert SessionOk(reg, st, st.sessions[sid]);
    assert mid.pel == st.pel;
    assert Slot(e, st.sessions[sid].group) in mid.pel;
    assert Lt(ZERO, e.id) by { assert e in st.published; }
  }
}
