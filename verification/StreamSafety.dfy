/** What every step of the stream protocol keeps, and what that means for whole runs. */
module StreamSafety {
  import opened StreamIds
  import opened StreamProtocol

  /** Delivered to the group and acknowledged. */
  predicate Settled(st: State, slot: Slot) {
    GroupOf(slot) in st.last && Le(slot.entry.id, st.last[GroupOf(slot)]) && slot !in st.pel
  }

  ghost predicate Shape(reg: Registry, st: State) {
    && st.top.Keys == reg.Keys
    && st.live <= st.published
    && (forall e :: e in st.published ==> e.stream in reg && Lt(ZERO, e.id) && Le(e.id, st.top[e.stream]))
    && (forall k :: k in st.last ==> k.stream in reg && Le(st.last[k], st.top[k.stream]))
    && (forall slot :: slot in st.pel ==>
          slot.entry in st.published && GroupOf(slot) in st.last && Le(slot.entry.id, st.last[GroupOf(slot)]))
  }

  /** An entry that left the pending list was received by a handler that returned or acknowledged it. */
  ghost predicate Accounted(st: State) {
    forall slot: Slot :: slot.entry in st.published && Settled(st, slot) ==> slot in st.handled
  }

  /** Deleted entries are settled for every registered group. */
  ghost predicate Safe(reg: Registry, st: State) {
    forall e, g :: e in st.published && e !in st.live && e.stream in reg && g in reg[e.stream]
      ==> Settled(st, Slot(e, g))
  }

  predicate Delivered(st: State, slot: Slot) {
    slot.entry in st.published && GroupOf(slot) in st.last && Le(slot.entry.id, st.last[GroupOf(slot)])
  }

  predicate Cleared(st: State, slot: Slot) {
    Settled(st, slot) && slot in st.handled
  }

  predicate SessionOk(reg: Registry, st: State, sess: Session) {
    && sess.lastIDs.Keys == StreamsOf(reg, sess.group)
    && (forall s :: s in sess.lastIDs ==> Group(s, sess.group) in st.last)
    && (sess.work.Acking? ==> forall e :: e in sess.work.unacked ==> Slot(e, sess.group) in st.handled)
    && (sess.work.Handling? ==>
          && (forall e :: e in sess.work.batch ==> Delivered(st, Slot(e, sess.group)))
          && (forall e :: e in sess.work.acked ==> e in sess.work.batch && Cleared(st, Slot(e, sess.group))))
  }

  ghost predicate SessionsOk(reg: Registry, st: State) {
    forall i :: i in st.sessions ==> SessionOk(reg, st, st.sessions[i])
  }

  predicate Below(id: ID, bound: ID, strict: bool) {
    if strict then Lt(id, bound) else Le(id, bound)
  }

  ghost predicate CollectorOk(reg: Registry, st: State, gc: Collector) {
    && gc.stream in reg
    && match gc
       case Reading(stream, info, todo, ids, inPending) =>
         && ids.Keys == reg[stream] && ids != map[] && todo <= info.Keys <= ids.Keys
         && (forall g :: g in info ==> Group(stream, g) in st.last && Le(info[g], st.last[Group(stream, g)]))
         && (forall e, g :: e in st.published && e.stream == stream && g in ids && Below(e.id, ids[g], inPending)
               ==> Settled(st, Slot(e, g)))
         && (forall g :: g in ids ==> stream in st.top && Le(ids[g], st.top[stream]))
       case Draining(stream, end) =>
         && (forall e, g :: e in st.published && e.stream == stream && Within(e.id, end) && g in reg[stream]
               ==> Settled(st, Slot(e, g)))
         && (forall x :: Within(x, end) ==> stream in st.top && Le(x, st.top[stream]))
  }

  ghost predicate CollectorsOk(reg: Registry, st: State) {
    forall i :: i in st.collectors ==> CollectorOk(reg, st, st.collectors[i])
  }

  ghost predicate Inv(reg: Registry, st: State) {
    Shape(reg, st) && Accounted(st) && Safe(reg, st) && SessionsOk(reg, st) && CollectorsOk(reg, st)
  }

  // ---------------------------------------------------------------- steps

  lemma NewBatch(st: State, sess: Session, stream: string, x: ID)
    requires Group(stream, sess.group) in st.last && NewOf(st, sess, stream) != []
    ensures
      var q := NewOf(st, sess, stream);
      x in q <==> Entry(stream, x) in st.live && Lt(st.last[Group(stream, sess.group)], x) && Le(x, q[|q| - 1])
  {
    FirstMember(After(LiveIds(st, stream), st.last[Group(stream, sess.group)]), sess.count, x);
  }

  /** The entries a read of new entries returns are exactly the live ones between the group's old and new positions. */
  lemma NewSlot(st: State, sess: Session, slot: Slot)
    requires GroupOf(slot) in st.last
    ensures
      var ids := NewIds(st, sess);
      var before := st.last[GroupOf(slot)];
      var after := AdvanceGroups(st.last, sess.group, ids)[GroupOf(slot)];
      && (before == after || (Lt(before, after) && Entry(slot.entry.stream, after) in st.live))
      && (slot in Slots(Batch(ids), sess.group) <==>
            slot.entry in st.live && Lt(before, slot.entry.id) && Le(slot.entry.id, after))
  {
    var ids := NewIds(st, sess);
    var s := slot.entry.stream;
    if slot.group == sess.group && s in ids && ids[s] != [] {
      NewBatch(st, sess, s, ids[s][|ids[s]| - 1]);
      NewBatch(st, sess, s, slot.entry.id);
    }
  }

  /** A read of new entries as one slot sees it: the group moves forward, to a live entry, and exactly the live
      entries it passed become pending. */
  predicate Moves(st: State, st': State, slot: Slot) {
    var k := GroupOf(slot);
    if k !in st.last then k !in st'.last && (slot in st'.pel <==> slot in st.pel)
    else
      && k in st'.last
      && (st.last[k] == st'.last[k] || (Lt(st.last[k], st'.last[k]) && Entry(k.stream, st'.last[k]) in st.live))
      && (slot in st'.pel <==>
            slot in st.pel || (slot.entry in st.live && Lt(st.last[k], slot.entry.id) && Le(slot.entry.id, st'.last[k])))
  }

  ghost predicate ReadFrame(st: State, st': State) {
    && st'.published == st.published && st'.live == st.live && st'.top == st.top && st'.handled == st.handled
    && st'.collectors == st.collectors
    && forall slot: Slot :: Moves(st, st', slot)
  }

  lemma ReadNewSlot(reg: Registry, st: State, a: Action, st': State, slot: Slot)
    requires a.ReadNew? && Next(reg, st, a, st')
    ensures Moves(st, st', slot)
  {
    if GroupOf(slot) in st.last {
      NewSlot(st, st.sessions[a.sid], slot);
    } else {
      assert slot !in Slots(Batch(NewIds(st, st.sessions[a.sid])), st.sessions[a.sid].group);
    }
  }

  lemma ReadNewFrames(reg: Registry, st: State, a: Action, st': State)
    requires a.ReadNew? && Next(reg, st, a, st')
    ensures ReadFrame(st, st')
  {
    forall slot: Slot ensures Moves(st, st', slot) { ReadNewSlot(reg, st, a, st', slot); }
  }

  lemma FrameSettles(st: State, st': State, slot: Slot)
    requires ReadFrame(st, st') && Settled(st, slot)
    ensures Settled(st', slot)
  {
    assert Moves(st, st', slot);
  }

  lemma FrameShape(reg: Registry, st: State, st': State)
    requires Shape(reg, st) && ReadFrame(st, st')
    ensures Shape(reg, st')
  {
    forall k | k in st'.last ensures k.stream in reg && Le(st'.last[k], st'.top[k.stream]) {
      assert Moves(st, st', Slot(Entry(k.stream, ZERO), k.name));
    }
    forall slot | slot in st'.pel ensures Delivered(st', slot) {
      assert Moves(st, st', slot);
    }
  }

  lemma OtherSettles(reg: Registry, st: State, a: Action, st': State, slot: Slot)
    requires Shape(reg, st) && !a.ReadNew? && Next(reg, st, a, st') && Settled(st, slot)
    ensures Settled(st', slot)
  {
    hide Next;
    if a.Publish? || a.CreateGroup? {
      NewKeyGrows(reg, st, a, st');
    } else {
      Shrinks(reg, st, a, st');
    }
  }

  lemma NewKeyGrows(reg: Registry, st: State, a: Action, st': State)
    requires (a.Publish? || a.CreateGroup?) && Next(reg, st, a, st')
    ensures st'.pel == st.pel && st'.handled == st.handled && st.published <= st'.published
    ensures forall k :: k in st.last ==> k in st'.last && st'.last[k] == st.last[k]
    ensures forall s :: s in st.top ==> s in st'.top && Le(st.top[s], st'.top[s])
    ensures forall e :: e in st'.published && e !in st.published ==> e.stream in st.top && Lt(st.top[e.stream], e.id)
  {
  }

  /** last only moves forward, and pending entries are only added beyond it. */
  lemma SettledStays(reg: Registry, st: State, a: Action, st': State, slot: Slot)
    requires Shape(reg, st) && Next(reg, st, a, st') && Settled(st, slot)
    ensures Settled(st', slot)
  {
    if a.ReadNew? {
      ReadNewFrames(reg, st, a, st');
      FrameSettles(st, st', slot);
    } else {
      OtherSettles(reg, st, a, st', slot);
    }
  }

  /** Steps that neither publish nor create or advance a group can only take away. */
  lemma Shrinks(reg: Registry, st: State, a: Action, st': State)
    requires !a.ReadNew? && !a.Publish? && !a.CreateGroup? && Next(reg, st, a, st')
    ensures st'.published == st.published && st'.top == st.top && st'.last == st.last
    ensures st'.live <= st.live && st'.pel.Keys <= st.pel.Keys
  {
  }

  lemma ShrunkShape(reg: Registry, st: State, st': State)
    requires Shape(reg, st)
    requires st'.published == st.published && st'.top == st.top && st'.last == st.last
    requires st'.live <= st.live && st'.pel.Keys <= st.pel.Keys
    ensures Shape(reg, st')
  {
  }

  lemma NewKeyShape(reg: Registry, st: State, a: Action, st': State)
    requires Shape(reg, st) && (a.Publish? || a.CreateGroup?) && Next(reg, st, a, st')
    ensures Shape(reg, st')
  {
  }

  lemma ShapeStays(reg: Registry, st: State, a: Action, st': State)
    requires Shape(reg, st) && Next(reg, st, a, st')
    ensures Shape(reg, st')
  {
    if a.ReadNew? {
      ReadNewFrames(reg, st, a, st');
      FrameShape(reg, st, st');
    } else if a.Publish? || a.CreateGroup? {
      NewKeyShape(reg, st, a, st');
    } else {
      Shrinks(reg, st, a, st');
      ShrunkShape(reg, st, st');
    }
  }

  /** The only ways out of a pending list. */
  lemma LeavesPending(reg: Registry, st: State, a: Action, st': State, slot: Slot)
    requires SessionsOk(reg, st) && Next(reg, st, a, st') && slot in st.pel && slot !in st'.pel
    ensures slot in st'.handled
  {
    hide Next;
    if a.HandlerAck? {
      HandlerTakes(reg, st, a, st', slot);
    } else if a.AckStream? {
      AckTakes(reg, st, a, st', slot);
    } else {
      PendingKept(reg, st, a, st', slot);
    }
  }

  lemma HandlerTakes(reg: Registry, st: State, a: Action, st': State, slot: Slot)
    requires Next(reg, st, a, st') && a.HandlerAck? && slot in st.pel && slot !in st'.pel
    ensures slot in st'.handled
  {
    hide NewIds, AdvanceGroups, ScriptDeletes, RangeEndOf, Blocked, Append, Advance, BacklogOf, Take;
  }

  lemma AckTakes(reg: Registry, st: State, a: Action, st': State, slot: Slot)
    requires SessionsOk(reg, st) && Next(reg, st, a, st') && a.AckStream? && slot in st.pel && slot !in st'.pel
    ensures slot in st'.handled
  {
    hide NewIds, AdvanceGroups, ScriptDeletes, RangeEndOf, Blocked, Append, Advance, BacklogOf, Take;
    assert SessionOk(reg, st, st.sessions[a.sid]);
  }

  lemma PendingKept(reg: Registry, st: State, a: Action, st': State, slot: Slot)
    requires Next(reg, st, a, st') && !a.HandlerAck? && !a.AckStream? && slot in st.pel
    ensures slot in st'.pel
  {
    hide Next;
    if a.ReadNew? {
      ReadNewSlot(reg, st, a, st', slot);
    } else if a.Publish? || a.CreateGroup? {
      NewKeyGrows(reg, st, a, st');
    } else {
      OthersKeepPending(reg, st, a, st');
    }
  }

  lemma OthersKeepPending(reg: Registry, st: State, a: Action, st': State)
    requires Next(reg, st, a, st') && !a.HandlerAck? && !a.AckStream? && !a.ReadNew? && !a.Publish? && !a.CreateGroup?
    ensures st'.pel.Keys == st.pel.Keys
  {
    hide NewIds, ScriptDeletes, RangeEndOf, Blocked, Append, Advance, BacklogOf, Take, Batch, Slots, StreamsOf;
  }

  lemma AccountedStays(reg: Registry, st: State, a: Action, st': State)
    requires Inv(reg, st) && Next(reg, st, a, st')
    ensures Accounted(st')
  {
    forall slot: Slot | slot.entry in st'.published && Settled(st', slot) ensures slot in st'.handled {
      if slot in st.pel {
        LeavesPending(reg, st, a, st', slot);
      } else {
        NewlySettled(reg, st, a, st', slot);
      }
    }
  }

  /** An entry that becomes settled without having been pending was deleted before the group reached it. */
  lemma NewlySettled(reg: Registry, st: State, a: Action, st': State, slot: Slot)
    requires Inv(reg, st) && Next(reg, st, a, st')
    requires slot !in st.pel && slot.entry in st'.published && Settled(st', slot)
    ensures slot in st'.handled
  {
    hide Next, SessionsOk, CollectorsOk, Safe;
    Grows(reg, st, a, st');
    if a.ReadNew? {
      NewlySettledByRead(reg, st, a, st', slot);
    } else if a.Publish? || a.CreateGroup? {
      NewKeySettles(reg, st, a, st', slot);
    } else {
      Shrinks(reg, st, a, st');
      assert Settled(st, slot);
    }
  }

  /** A new entry or a new group settles nothing. */
  lemma NewKeySettles(reg: Registry, st: State, a: Action, st': State, slot: Slot)
    requires Shape(reg, st) && Next(reg, st, a, st') && (a.Publish? || a.CreateGroup?)
    requires slot.entry in st'.published && Settled(st', slot)
    ensures slot.entry in st.published && Settled(st, slot)
  {
    hide NewIds, AdvanceGroups, ScriptDeletes, RangeEndOf, Blocked, Append, Advance, BacklogOf, Take;
  }

  lemma NewlySettledByRead(reg: Registry, st: State, a: Action, st': State, slot: Slot)
    requires Inv(reg, st) && a.ReadNew? && Next(reg, st, a, st')
    requires slot !in st.pel && slot.entry in st'.published && Settled(st', slot)
    ensures slot in st'.handled
  {
    ReadNewSlot(reg, st, a, st', slot);
    if !Settled(st, slot) {
      // the group moved past it although it was not live: it is registered, so the deletion settled it before
      ReadNewRegistered(reg, st, a, st', GroupOf(slot));
    }
  }

  lemma ReadNewRegistered(reg: Registry, st: State, a: Action, st': State, k: Group)
    requires SessionsOk(reg, st) && a.ReadNew? && Next(reg, st, a, st') && k in st.last
    ensures st'.last[k] == st.last[k] || k.name in reg[k.stream]
  {
  }

  lemma SafeStays(reg: Registry, st: State, a: Action, st': State)
    requires Inv(reg, st) && Next(reg, st, a, st')
    ensures Safe(reg, st')
  {
    forall e, g | e in st'.published && e !in st'.live && e.stream in reg && g in reg[e.stream]
      ensures Settled(st', Slot(e, g))
    {
      if e in st.live {
        Deletes(reg, st, a, st', e, g);
      } else {
        NotRepublished(reg, st, a, st', e);
      }
      SettledStays(reg, st, a, st', Slot(e, g));
    }
  }

  lemma NotRepublished(reg: Registry, st: State, a: Action, st': State, e: Entry)
    requires Next(reg, st, a, st') && e in st'.published && e !in st'.live && e !in st.live
    ensures e in st.published
  {
  }

  /** The two steps that delete an entry: a handler deleting the event it acknowledged on a stream of its own group
      alone, and a collector's drain script. */
  lemma Deletes(reg: Registry, st: State, a: Action, st': State, e: Entry, g: string)
    requires Inv(reg, st) && Next(reg, st, a, st') && e in st.live && e !in st'.live
    requires e.stream in reg && g in reg[e.stream]
    ensures Settled(st, Slot(e, g))
  {
    hide Next, Inv;
    DeleterIs(reg, st, a, st', e);
    if a.HandlerDelete? {
      HandlerDeletes(reg, st, a, st', e, g);
    } else {
      CollectorDeletes(reg, st, a, st', e, g);
    }
  }

  lemma DeleterIs(reg: Registry, st: State, a: Action, st': State, e: Entry)
    requires Next(reg, st, a, st') && e in st.live && e !in st'.live
    ensures a.HandlerDelete? || a.GcDrain?
  {
    hide NewIds, AdvanceGroups, ScriptDeletes, RangeEndOf, Blocked, Append, Advance, BacklogOf, Take, Slots, Batch, StreamsOf;
  }

  lemma HandlerDeletes(reg: Registry, st: State, a: Action, st': State, e: Entry, g: string)
    requires Inv(reg, st) && Next(reg, st, a, st') && a.HandlerDelete? && e in st.live && e !in st'.live
    requires e.stream in reg && g in reg[e.stream]
    ensures Settled(st, Slot(e, g))
  {
    assert SessionOk(reg, st, st.sessions[a.sid]);
    assert g == st.sessions[a.sid].group;
  }

  lemma CollectorDeletes(reg: Registry, st: State, a: Action, st': State, e: Entry, g: string)
    requires Inv(reg, st) && Next(reg, st, a, st') && a.GcDrain? && e in st.live && e !in st'.live
    requires e.stream in reg && g in reg[e.stream]
    ensures Settled(st, Slot(e, g))
  {
    hide SessionsOk, Safe, Accounted;
    var gc := st.collectors[a.gid];
    assert CollectorOk(reg, st, gc);
    DrainDeletes(LiveIds(st, gc.stream), gc.end, e.id);
  }

  lemma DrainDeletes(s: set<ID>, end: RangeEnd, x: ID)
    requires x in ScriptDeletes(s, end)
    ensures x in s && Within(x, end)
  {
    FirstMember(InRange(s, end), SCRIPT_LIMIT, x);
  }

  // ---------------------------------------------------------------- sessions

  lemma SessionsStay(reg: Registry, st: State, a: Action, st': State)
    requires Inv(reg, st) && Next(reg, st, a, st')
    ensures SessionsOk(reg, st')
  {
    hide NewIds, AdvanceGroups, ScriptDeletes, RangeEndOf, Blocked, Append, Advance, BacklogOf, Inv, SessionOk;
    forall i | i in st'.sessions ensures SessionOk(reg, st', st'.sessions[i]) {
      if i in st.sessions && !Acts(a, i) {
        BystanderStays(reg, st, a, st', i);
      } else {
        ActorStays(reg, st, a, st', i);
      }
    }
  }

  /** Whether the step is taken by session i. */
  predicate Acts(a: Action, i: nat) {
    match a
    case Start(sid, _, _, _) => sid == i
    case ReadBacklog(sid) => sid == i
    case ReadNew(sid) => sid == i
    case HandlerAck(sid, _) => sid == i
    case HandlerDelete(sid, _) => sid == i
    case HandlerReturn(sid) => sid == i
    case AckStream(sid, _) => sid == i
    case AckDone(sid) => sid == i
    case Stop(sid) => sid == i
    case _ => false
  }

  /** What sessions and collectors rely on only grows, and later entries come after everything decided about. */
  ghost predicate Advances(st: State, st': State) {
    && st.published <= st'.published && st.handled <= st'.handled
    && (forall k :: k in st.last ==> k in st'.last && Le(st.last[k], st'.last[k]))
    && (forall s :: s in st.top ==> s in st'.top && Le(st.top[s], st'.top[s]))
    && (forall slot: Slot :: Settled(st, slot) ==> Settled(st', slot))
    && (forall e :: e in st'.published && e !in st.published ==> e.stream in st.top && Lt(st.top[e.stream], e.id))
  }

  lemma Grows(reg: Registry, st: State, a: Action, st': State)
    requires Next(reg, st, a, st')
    ensures st.published <= st'.published && st.handled <= st'.handled
    ensures forall s :: s in st.top ==> s in st'.top && Le(st.top[s], st'.top[s])
    ensures forall e :: e in st'.published && e !in st.published ==> e.stream in st.top && Lt(st.top[e.stream], e.id)
  {
    hide Next;
    HandledGrows(reg, st, a, st');
    if a.ReadNew? {
      ReadNewFrames(reg, st, a, st');
    } else if a.Publish? || a.CreateGroup? {
      NewKeyGrows(reg, st, a, st');
    } else {
      Shrinks(reg, st, a, st');
    }
  }

  lemma HandledGrows(reg: Registry, st: State, a: Action, st': State)
    requires Next(reg, st, a, st')
    ensures st.handled <= st'.handled
  {
    hide NewIds, AdvanceGroups, ScriptDeletes, RangeEndOf, Blocked, Append, Advance, BacklogOf, Take, Slots, Batch, StreamsOf;
  }

  lemma GroupsGrow(reg: Registry, st: State, a: Action, st': State)
    requires Next(reg, st, a, st')
    ensures forall k :: k in st.last ==> k in st'.last && Le(st.last[k], st'.last[k])
  {
    hide Next;
    if a.ReadNew? {
      ReadNewFrames(reg, st, a, st');
      forall k | k in st.last ensures k in st'.last && Le(st.last[k], st'.last[k]) {
        assert Moves(st, st', Slot(Entry(k.stream, ZERO), k.name));
      }
    } else if a.Publish? || a.CreateGroup? {
      NewKeyGrows(reg, st, a, st');
    } else {
      Shrinks(reg, st, a, st');
    }
  }

  lemma StepAdvances(reg: Registry, st: State, a: Action, st': State)
    requires Shape(reg, st) && Next(reg, st, a, st')
    ensures Advances(st, st')
  {
    Grows(reg, st, a, st');
    GroupsGrow(reg, st, a, st');
    forall slot: Slot | Settled(st, slot) ensures Settled(st', slot) { SettledStays(reg, st, a, st', slot); }
  }

  lemma BystanderFields(reg: Registry, st: State, a: Action, st': State, i: nat)
    requires Next(reg, st, a, st') && i in st.sessions && !Acts(a, i)
    ensures i in st'.sessions
    ensures st'.sessions[i] == st.sessions[i].(lost := st'.sessions[i].lost)
  {
    hide Next, Take;
    if a.HandlerAck? || a.AckStream? || a.Claim? {
      BystanderLoses(reg, st, a, st', i);
    } else {
      BystanderUntouched(reg, st, a, st', i);
    }
  }

  lemma BystanderLoses(reg: Registry, st: State, a: Action, st': State, i: nat)
    requires Next(reg, st, a, st') && i in st.sessions && !Acts(a, i) && (a.HandlerAck? || a.AckStream? || a.Claim?)
    ensures i in st'.sessions
    ensures st'.sessions[i] == st.sessions[i].(lost := st'.sessions[i].lost)
  {
    hide NewIds, AdvanceGroups, ScriptDeletes, RangeEndOf, Blocked, Append, Advance, BacklogOf;
  }

  lemma BystanderUntouched(reg: Registry, st: State, a: Action, st': State, i: nat)
    requires Next(reg, st, a, st') && i in st.sessions && !Acts(a, i) && !a.HandlerAck? && !a.AckStream? && !a.Claim?
    ensures i in st'.sessions && st'.sessions[i] == st.sessions[i]
  {
    hide NewIds, AdvanceGroups, ScriptDeletes, RangeEndOf, Blocked, Append, Advance, BacklogOf, Take, Slots, Batch,
      StreamsOf, LiveIds, PendingIds, OwnedIds, Emptied, Ack, Least;
  }

  lemma SessionKept(reg: Registry, st: State, st': State, sess: Session)
    requires Advances(st, st') && SessionOk(reg, st, sess)
    ensures SessionOk(reg, st', sess)
  {
  }

  lemma BystanderStays(reg: Registry, st: State, a: Action, st': State, i: nat)
    requires Inv(reg, st) && Next(reg, st, a, st') && i in st.sessions && !Acts(a, i)
    ensures i in st'.sessions && SessionOk(reg, st', st'.sessions[i])
  {
    BystanderFields(reg, st, a, st', i);
    StepAdvances(reg, st, a, st');
    SessionKept(reg, st, st', st.sessions[i]);
  }

  lemma ActorStays(reg: Registry, st: State, a: Action, st': State, i: nat)
    requires Inv(reg, st) && Next(reg, st, a, st') && Acts(a, i) && i in st'.sessions
    ensures SessionOk(reg, st', st'.sessions[i])
  {
    if a.ReadBacklog? {
      ReadBacklogStays(reg, st, a, st', i);
    } else if a.ReadNew? {
      ReadNewStays(reg, st, a, st', i);
    } else if a.HandlerAck? {
      HandlerAckStays(reg, st, a, st', i);
    } else if a.Start? {
      StepAdvances(reg, st, a, st');
    } else {
      StepAdvances(reg, st, a, st');
      SessionKept(reg, st, st', st.sessions[i]);
    }
  }

  lemma HandlerAckStays(reg: Registry, st: State, a: Action, st': State, i: nat)
    requires Inv(reg, st) && Next(reg, st, a, st') && a.HandlerAck? && a.sid == i
    ensures i in st'.sessions && SessionOk(reg, st', st'.sessions[i])
  {
    StepAdvances(reg, st, a, st');
    SessionKept(reg, st, st', st.sessions[i]);
    assert Cleared(st', Slot(a.entry, st.sessions[i].group));
  }

  lemma ReadBacklogStays(reg: Registry, st: State, a: Action, st': State, i: nat)
    requires Inv(reg, st) && Next(reg, st, a, st') && a == ReadBacklog(i)
    ensures SessionOk(reg, st', st'.sessions[i])
  {
    var sess := st.sessions[i];
    var ids := map s | s in sess.lastIDs :: BacklogOf(st, sess, s);
    forall e | e in Batch(ids) ensures Delivered(st', Slot(e, sess.group)) {
      BacklogMember(st, sess, e.stream, e.id);
    }
  }

  lemma BacklogMember(st: State, sess: Session, stream: string, x: ID)
    requires stream in sess.lastIDs && x in BacklogOf(st, sess, stream)
    ensures
      var slot := Slot(Entry(stream, x), sess.group);
      slot in st.pel && st.pel[slot] == sess.name && Lt(sess.lastIDs[stream], x)
  {
    FirstMember(After(OwnedIds(st, Group(stream, sess.group), sess.name), sess.lastIDs[stream]), sess.count, x);
  }

  lemma ReadNewStays(reg: Registry, st: State, a: Action, st': State, i: nat)
    requires Inv(reg, st) && Next(reg, st, a, st') && a == ReadNew(i)
    ensures SessionOk(reg, st', st'.sessions[i])
  {
    var sess := st.sessions[i];
    var ids := NewIds(st, sess);
    StepAdvances(reg, st, a, st');
    if !Emptied(ids) {
      forall e | e in Batch(ids) ensures Delivered(st', Slot(e, sess.group)) {
        NewSlot(st, sess, Slot(e, sess.group));
      }
    }
  }

  // ---------------------------------------------------------------- collectors

  lemma CollectorsStay(reg: Registry, st: State, a: Action, st': State)
    requires Inv(reg, st) && Next(reg, st, a, st')
    ensures CollectorsOk(reg, st')
  {
    forall i | i in st'.collectors ensures CollectorOk(reg, st', st'.collectors[i]) {
      if i in st.collectors && st'.collectors[i] == st.collectors[i] {
        StepAdvances(reg, st, a, st');
        CollectorKept(reg, st, st', st.collectors[i]);
      } else {
        CollectorMoves(reg, st, a, st', i);
      }
    }
  }

  /** Entries published later come after everything a collector has decided about. */
  lemma CollectorKept(reg: Registry, st: State, st': State, gc: Collector)
    requires Advances(st, st') && CollectorOk(reg, st, gc)
    ensures CollectorOk(reg, st', gc)
  {
  }

  lemma CollectorMoves(reg: Registry, st: State, a: Action, st': State, i: nat)
    requires Inv(reg, st) && Next(reg, st, a, st')
    requires i in st'.collectors && (i !in st.collectors || st'.collectors[i] != st.collectors[i])
    ensures CollectorOk(reg, st', st'.collectors[i])
  {
    CollectorActions(reg, st, a, st', i);
    if a.GcInfo? {
      InfoReads(reg, st, a, st', i, a.stream);
    } else if a.GcPending? {
      PendingReads(reg, st, a, st', i, a.group);
    } else {
      Decides(reg, st, a, st', i);
    }
  }

  lemma CollectorActions(reg: Registry, st: State, a: Action, st': State, i: nat)
    requires Next(reg, st, a, st')
    requires i in st'.collectors && (i !in st.collectors || st'.collectors[i] != st.collectors[i])
    ensures (a.GcInfo? || a.GcPending? || a.GcDecide?) && a.gid == i
  {
  }

  /** What a collector knows of a stream once it has read its groups' info. */
  function InfoOf(reg: Registry, st: State, stream: string): Collector
    requires stream in reg
  {
    var info := map g | g in reg[stream] && Group(stream, g) in st.last :: st.last[Group(stream, g)];
    Reading(stream, info, info.Keys, (map g | g in reg[stream] :: ZERO), false)
  }

  lemma InfoOk(reg: Registry, st: State, stream: string)
    requires Shape(reg, st) && stream in reg && reg[stream] != {}
    ensures CollectorOk(reg, st, InfoOf(reg, st, stream))
  {
    var g :| g in reg[stream];
    assert g in InfoOf(reg, st, stream).ids;
  }

  lemma InfoReads(reg: Registry, st: State, a: Action, st': State, i: nat, stream: string)
    requires Inv(reg, st) && Next(reg, st, a, st') && a == GcInfo(i, stream)
    ensures CollectorOk(reg, st', st'.collectors[i])
  {
    hide CollectorOk;
    InfoOk(reg, st, stream);
    assert st'.collectors[i] == InfoOf(reg, st, stream);
    StepAdvances(reg, st, a, st');
    CollectorKept(reg, st, st', InfoOf(reg, st, stream));
  }

  lemma ParseBelow(x: ID)
    ensures Le(Parse(x), x)
  {
  }

  /** The bound a pending-list read yields for one group. */
  function BoundOf(st: State, gc: Collector, group: string): ID
    requires gc.Reading? && group in gc.info
  {
    var pending := PendingIds(st, Group(gc.stream, group));
    if pending != {} then Parse(Least(pending)) else Parse(gc.info[group])
  }

  lemma BoundSettles(reg: Registry, st: State, gc: Collector, group: string, x: ID)
    requires Shape(reg, st) && CollectorOk(reg, st, gc) && gc.Reading? && group in gc.info
    ensures Le(BoundOf(st, gc, group), st.top[gc.stream])
    ensures
      var strict := PendingIds(st, Group(gc.stream, group)) != {};
      Below(x, BoundOf(st, gc, group), strict) ==> Settled(st, Slot(Entry(gc.stream, x), group))
  {
    var pending := PendingIds(st, Group(gc.stream, group));
    ParseBelow(gc.info[group]);
    if pending != {} {
      ParseBelow(Least(pending));
      assert Slot(Entry(gc.stream, Least(pending)), group) in st.pel;
    }
  }

  function AfterPending(st: State, gc: Collector, group: string): Collector
    requires gc.Reading? && group in gc.info
  {
    gc.(todo := gc.todo - {group}, ids := gc.ids[group := BoundOf(st, gc, group)],
        inPending := gc.inPending || PendingIds(st, Group(gc.stream, group)) != {})
  }

  lemma PendingOk(reg: Registry, st: State, gc: Collector, group: string)
    requires Shape(reg, st) && CollectorOk(reg, st, gc) && gc.Reading? && group in gc.info
    ensures CollectorOk(reg, st, AfterPending(st, gc, group))
  {
    forall e: Entry | e.stream == gc.stream { BoundSettles(reg, st, gc, group, e.id); }
    BoundSettles(reg, st, gc, group, ZERO);
  }

  lemma PendingReads(reg: Registry, st: State, a: Action, st': State, i: nat, group: string)
    requires Inv(reg, st) && Next(reg, st, a, st') && a == GcPending(i, group)
    ensures CollectorOk(reg, st', st'.collectors[i])
  {
    var gc := st.collectors[i];
    PendingOk(reg, st, gc, group);
    assert st'.collectors[i] == AfterPending(st, gc, group);
    StepAdvances(reg, st, a, st');
    CollectorKept(reg, st, st', AfterPending(st, gc, group));
  }

  /** Everything up to the end of the range is below the bound of every registered group. */
  lemma DecideOk(reg: Registry, st: State, gc: Collector)
    requires CollectorOk(reg, st, gc) && gc.Reading? && gc.ids.Values != {}
    ensures CollectorOk(reg, st, Draining(gc.stream, RangeEndOf(Least(gc.ids.Values), gc.inPending)))
  {
    var min := Least(gc.ids.Values);
    var end := RangeEndOf(min, gc.inPending);
    var g :| g in gc.ids && gc.ids[g] == min;
    forall x | Within(x, end) ensures Below(x, min, gc.inPending) {}
    forall g | g in gc.ids ensures Le(min, gc.ids[g]) { assert gc.ids[g] in gc.ids.Values; }
  }

  lemma Decides(reg: Registry, st: State, a: Action, st': State, i: nat)
    requires Inv(reg, st) && Next(reg, st, a, st') && a == GcDecide(i) && i in st'.collectors
    ensures CollectorOk(reg, st', st'.collectors[i])
  {
    var gc := st.collectors[i];
    DecideOk(reg, st, gc);
    StepAdvances(reg, st, a, st');
    CollectorKept(reg, st, st', st'.collectors[i]);
  }

  // ---------------------------------------------------------------- runs

  lemma InvStays(reg: Registry, st: State, a: Action, st': State)
    requires Inv(reg, st) && Next(reg, st, a, st')
    ensures Inv(reg, st')
  {
    ShapeStays(reg, st, a, st');
    AccountedStays(reg, st, a, st');
    SafeStays(reg, st, a, st');
    SessionsStay(reg, st, a, st');
    CollectorsStay(reg, st, a, st');
  }

  lemma {:induction false} RunInv(reg: Registry, states: seq<State>, actions: seq<Action>, n: nat)
    requires Run(reg, states, actions) && n < |states|
    ensures Inv(reg, states[n])
    decreases n
  {
    if n > 0 {
      RunInv(reg, states, actions, n - 1);
      InvStays(reg, states[n - 1], actions[n - 1], states[n]);
    }
  }

  /** In every run, whatever the interleaving, an entry that is gone from its stream had been delivered to, received
      by a handler of, and acknowledged for, every group registered for the stream. */
  lemma {:induction false} DeletedOnlyWhenHandled(
    reg: Registry, states: seq<State>, actions: seq<Action>, n: nat, e: Entry, g: string)
    requires Run(reg, states, actions) && n < |states|
    requires e in states[n].published && e !in states[n].live
    requires e.stream in reg && g in reg[e.stream]
    ensures Cleared(states[n], Slot(e, g))
  {
    RunInv(reg, states, actions, n);
    assert Settled(states[n], Slot(e, g));
  }
}
