/** The stream protocol: publishers, consumers that read their backlog before new entries and acknowledge after
    the handler, claims, crashes, and garbage collectors whose reads and deletes interleave with all of these. */
module StreamProtocol {
  import opened StreamIds

  datatype Entry = Entry(stream: string, id: ID)

  /** A consumer group of one stream. */
  datatype Group = Group(stream: string, name: string)

  /** An entry as one group sees it. */
  datatype Slot = Slot(entry: Entry, group: string)

  function GroupOf(slot: Slot): Group {
    Group(slot.entry.stream, slot.group)
  }

  /** The groups registered for each stream; fixed once the registry is validated. */
  type Registry = map<string, set<string>>

  /** What a consumer is doing between two reads. */
  datatype Work =
    | Idle
    | Handling(batch: set<Entry>, acked: set<Entry>)
    | Acking(unacked: set<Entry>)

  /** One run of the consume loop. start, lost, backlog and news record its history: what was pending for its name
      when it began, what others took away since, and the ids handed to its handler from the backlog and as new. */
  datatype Session = Session(
    group: string, name: string, count: nat, pending: bool, lastIDs: map<string, ID>, work: Work,
    start: set<Entry>, lost: set<Entry>, backlog: map<string, seq<ID>>, news: map<string, seq<ID>>)

  /** The last id of an XRANGE: a whole id, or a millisecond part that admits every counter. */
  datatype RangeEnd = Whole(id: ID) | Millis(ms: int)

  predicate Within(id: ID, end: RangeEnd) {
    match end
    case Whole(e) => Le(id, e)
    case Millis(ms) => id.ms <= ms
  }

  /** A garbage collector working on one stream. */
  datatype Collector =
    | Reading(stream: string, info: map<string, ID>, todo: set<string>, ids: map<string, ID>, inPending: bool)
    | Draining(stream: string, end: RangeEnd)

  datatype State = State(
    published: set<Entry>,
    live: set<Entry>,
    top: map<string, ID>,
    last: map<Group, ID>,
    pel: map<Slot, string>,
    handled: set<Slot>,
    sessions: map<nat, Session>,
    collectors: map<nat, Collector>)

  datatype Action =
    | Publish(stream: string, id: ID)
    | CreateGroup(key: Group)
    | Start(sid: nat, group: string, name: string, count: nat)
    | ReadBacklog(sid: nat)
    | ReadNew(sid: nat)
    | HandlerAck(sid: nat, entry: Entry)
    | HandlerDelete(sid: nat, entry: Entry)
    | HandlerReturn(sid: nat)
    | AckStream(sid: nat, stream: string)
    | AckDone(sid: nat)
    | Stop(sid: nat)
    | Claim(key: Group, ids: set<ID>, to: string)
    | GcInfo(gid: nat, stream: string)
    | GcPending(gid: nat, group: string)
    | GcDecide(gid: nat)
    | GcDrain(gid: nat)
    | GcStop(gid: nat)

  // ---------------------------------------------------------------- garbage collector arithmetic

  const MAX_INT64 := 0x7fff_ffff_ffff_ffff

  /** strconv.ParseInt keeps the largest int64 when the number does not fit. */
  function ParseInt64(n: nat): nat {
    if n > MAX_INT64 then MAX_INT64 else n
  }

  function Parse(id: ID): ID {
    ID(ParseInt64(id.ms), ParseInt64(id.counter))
  }

  /** A group at the beginning of the stream, or absent, forbids any deletion. */
  predicate Blocked(ids: map<string, ID>) {
    exists g :: g in ids && ids[g].ms == 0
  }

  /** Everything up to the minimum when nothing is pending, up to its predecessor otherwise. */
  function RangeEndOf(min: ID, inPending: bool): RangeEnd {
    if !inPending then Whole(min)
    else if min.counter > 0 then Whole(ID(min.ms, min.counter - 1))
    else Millis(min.ms - 1)
  }

  const SCRIPT_LIMIT := 100000

  function InRange(s: set<ID>, end: RangeEnd): set<ID> {
    set x | x in s && Within(x, end)
  }

  /** The ids one call of the drain script deletes. */
  ghost function ScriptDeletes(s: set<ID>, end: RangeEnd): set<ID> {
    Elems(First(InRange(s, end), SCRIPT_LIMIT))
  }

  // ---------------------------------------------------------------- what the commands return

  function LiveIds(st: State, stream: string): (ids: set<ID>)
    ensures forall x :: x in ids <==> Entry(stream, x) in st.live
  {
    set e | e in st.live && e.stream == stream :: e.id
  }

  function PendingIds(st: State, key: Group): (ids: set<ID>)
    ensures forall x :: x in ids <==> Slot(Entry(key.stream, x), key.name) in st.pel
  {
    set slot | slot in st.pel && GroupOf(slot) == key :: slot.entry.id
  }

  function OwnedIds(st: State, key: Group, name: string): (ids: set<ID>)
    ensures forall x :: x in ids <==>
      var slot := Slot(Entry(key.stream, x), key.name);
      slot in st.pel && st.pel[slot] == name
  {
    set slot | slot in st.pel && GroupOf(slot) == key && st.pel[slot] == name :: slot.entry.id
  }

  function After(s: set<ID>, id: ID): set<ID> {
    set x | x in s && Lt(id, x)
  }

  function StreamsOf(reg: Registry, group: string): set<string> {
    set s | s in reg && group in reg[s]
  }

  /** XREADGROUP with an explicit id: the consumer's own pending entries after that id. */
  ghost function BacklogOf(st: State, sess: Session, stream: string): seq<ID>
    requires stream in sess.lastIDs
  {
    First(After(OwnedIds(st, Group(stream, sess.group), sess.name), sess.lastIDs[stream]), sess.count)
  }

  /** XREADGROUP with ">": live entries never delivered to the group. */
  ghost function NewOf(st: State, sess: Session, stream: string): seq<ID>
    requires Group(stream, sess.group) in st.last
  {
    First(After(LiveIds(st, stream), st.last[Group(stream, sess.group)]), sess.count)
  }

  ghost function NewIds(st: State, sess: Session): map<string, seq<ID>> {
    map s | s in sess.lastIDs && Group(s, sess.group) in st.last :: NewOf(st, sess, s)
  }

  /** The last-delivered ids after a read of new entries. */
  function AdvanceGroups(last: map<Group, ID>, group: string, ids: map<string, seq<ID>>): map<Group, ID> {
    map k | k in last :: if k.name == group && k.stream in ids && ids[k.stream] != []
                         then ids[k.stream][|ids[k.stream]| - 1] else last[k]
  }

  function Batch(ids: map<string, seq<ID>>): (es: set<Entry>)
    ensures forall e :: e in es <==> e.stream in ids && e.id in ids[e.stream]
  {
    set s, x | s in ids && x in ids[s] :: Entry(s, x)
  }

  function Logged(ids: map<string, seq<ID>>, s: string): seq<ID> {
    if s in ids then ids[s] else []
  }

  /** LastIDs after a backlog read: the last id of each stream that returned something. */
  function Advance(lastIDs: map<string, ID>, ids: map<string, seq<ID>>): map<string, ID> {
    map s | s in lastIDs :: if s in ids && ids[s] != [] then ids[s][|ids[s]| - 1] else lastIDs[s]
  }

  function Append(log: map<string, seq<ID>>, ids: map<string, seq<ID>>): map<string, seq<ID>> {
    map s | s in log.Keys + ids.Keys :: Logged(log, s) + Logged(ids, s)
  }

  function Slots(es: set<Entry>, group: string): (slots: set<Slot>)
    ensures forall slot :: slot in slots <==> slot.group == group && slot.entry in es
  {
    set e | e in es :: Slot(e, group)
  }

  /** Other sessions of the same group that had these entries pending lose them. */
  function Take(sessions: map<nat, Session>, except: set<nat>, gone: set<Slot>): map<nat, Session> {
    map i | i in sessions ::
      var sess := sessions[i];
      if i in except then sess
      else sess.(lost := sess.lost + (set e | e in sess.start && Slot(e, sess.group) in gone))
  }

  /** XACK by session sid. */
  function Ack(st: State, sid: nat, es: set<Entry>): State
    requires sid in st.sessions
  {
    var gone := Slots(es, st.sessions[sid].group);
    st.(pel := st.pel - gone, sessions := Take(st.sessions, {sid}, gone))
  }

  // ---------------------------------------------------------------- steps

  predicate Enabled(reg: Registry, st: State, a: Action) {
    match a
    case Publish(stream, id) => stream in st.top && Lt(st.top[stream], id)
    case CreateGroup(key) => key.stream in st.top
    case Start(sid, group, name, count) =>
      && sid !in st.sessions && count > 0
      && forall s :: s in StreamsOf(reg, group) ==> Group(s, group) in st.last
    case ReadBacklog(sid) => sid in st.sessions && st.sessions[sid].work.Idle? && st.sessions[sid].pending
    case ReadNew(sid) => sid in st.sessions && st.sessions[sid].work.Idle? && !st.sessions[sid].pending
    case HandlerAck(sid, e) =>
      sid in st.sessions && st.sessions[sid].work.Handling? && e in st.sessions[sid].work.batch
    case HandlerDelete(sid, e) =>
      && sid in st.sessions && st.sessions[sid].work.Handling? && e in st.sessions[sid].work.acked
      && e.stream in reg && reg[e.stream] == {st.sessions[sid].group}
    case HandlerReturn(sid) => sid in st.sessions && st.sessions[sid].work.Handling?
    case AckStream(sid, stream) => sid in st.sessions && st.sessions[sid].work.Acking?
    case AckDone(sid) => sid in st.sessions && st.sessions[sid].work == Acking({})
    case Stop(sid) => sid in st.sessions
    case Claim(key, ids, to) => true
    case GcInfo(gid, stream) => gid !in st.collectors && stream in reg && reg[stream] != {}
    case GcPending(gid, group) =>
      gid in st.collectors && st.collectors[gid].Reading? && group in st.collectors[gid].todo
    case GcDecide(gid) => gid in st.collectors && st.collectors[gid].Reading? && st.collectors[gid].todo == {}
    case GcDrain(gid) => gid in st.collectors && st.collectors[gid].Draining?
    case GcStop(gid) => gid in st.collectors
  }

  function Emptied(ids: map<string, seq<ID>>): bool {
    forall s :: s in ids ==> ids[s] == []
  }

  /** The result of an enabled step. */
  ghost predicate Next(reg: Registry, st: State, a: Action, st': State) {
    Enabled(reg, st, a) &&
    match a
    case Publish(stream, id) =>
      var e := Entry(stream, id);
      st' == st.(published := st.published + {e}, live := st.live + {e}, top := st.top[stream := id])
    case CreateGroup(key) =>
      st' == if key in st.last then st else st.(last := st.last[key := ZERO])
    case Start(sid, group, name, count) =>
      var owned := set slot | slot in st.pel && slot.group == group && st.pel[slot] == name
                              && slot.entry.stream in StreamsOf(reg, group) :: slot.entry;
      st' == st.(sessions := st.sessions[sid :=
        Session(group, name, count, true, (map s | s in StreamsOf(reg, group) :: ZERO), Idle, owned, {}, map[], map[])])
    case ReadBacklog(sid) =>
      var sess := st.sessions[sid];
      var ids := map s | s in sess.lastIDs :: BacklogOf(st, sess, s);
      st' == st.(sessions := st.sessions[sid :=
        if Emptied(ids) then sess.(pending := false)
        else sess.(lastIDs := Advance(sess.lastIDs, ids), work := Handling(Batch(ids), {}),
                   backlog := Append(sess.backlog, ids))])
    case ReadNew(sid) =>
      var sess := st.sessions[sid];
      var ids := NewIds(st, sess);
      if Emptied(ids) then st' == st
      else
        st' == st.(
          last := AdvanceGroups(st.last, sess.group, ids),
          pel := st.pel + (map slot | slot in Slots(Batch(ids), sess.group) :: sess.name),
          sessions := st.sessions[sid := sess.(work := Handling(Batch(ids), {}), news := Append(sess.news, ids))])
    case HandlerAck(sid, e) =>
      var sess := st.sessions[sid];
      var after := Ack(st, sid, {e});
      st' == after.(
        handled := st.handled + {Slot(e, sess.group)},
        sessions := after.sessions[sid := sess.(work := sess.work.(acked := sess.work.acked + {e}))])
    case HandlerDelete(sid, e) =>
      st' == st.(live := st.live - {e})
    case HandlerReturn(sid) =>
      var sess := st.sessions[sid];
      st' == st.(
        handled := st.handled + Slots(sess.work.batch, sess.group),
        sessions := st.sessions[sid := sess.(work := Acking(sess.work.batch - sess.work.acked))])
    case AckStream(sid, stream) =>
      var sess := st.sessions[sid];
      var es := set e | e in sess.work.unacked && e.stream == stream;
      var after := Ack(st, sid, es);
      st' == after.(sessions := after.sessions[sid := sess.(work := Acking(sess.work.unacked - es))])
    case AckDone(sid) =>
      st' == st.(sessions := st.sessions[sid := st.sessions[sid].(work := Idle)])
    case Stop(sid) =>
      st' == st.(sessions := st.sessions - {sid})
    case Claim(key, ids, to) =>
      var moved := set slot | slot in st.pel && GroupOf(slot) == key && slot.entry.id in ids;
      st' == st.(
        pel := map slot | slot in st.pel :: if slot in moved then to else st.pel[slot],
        sessions := Take(st.sessions, (set i | i in st.sessions && st.sessions[i].name == to), moved))
    case GcInfo(gid, stream) =>
      var info := map g | g in reg[stream] && Group(stream, g) in st.last :: st.last[Group(stream, g)];
      st' == st.(collectors := st.collectors[gid :=
        Reading(stream, info, info.Keys, (map g | g in reg[stream] :: ZERO), false)])
    case GcPending(gid, group) =>
      var gc := st.collectors[gid];
      group in gc.info &&
      var pending := PendingIds(st, Group(gc.stream, group));
      st' == st.(collectors := st.collectors[gid :=
        if pending != {}
        then gc.(todo := gc.todo - {group}, ids := gc.ids[group := Parse(Least(pending))], inPending := true)
        else gc.(todo := gc.todo - {group}, ids := gc.ids[group := Parse(gc.info[group])])])
    case GcDecide(gid) =>
      var gc := st.collectors[gid];
      if Blocked(gc.ids) then st' == st.(collectors := st.collectors - {gid})
      else
        && gc.ids.Values != {}
        && st' == st.(collectors := st.collectors[gid :=
             Draining(gc.stream, RangeEndOf(Least(gc.ids.Values), gc.inPending))])
    case GcDrain(gid) =>
      var gc := st.collectors[gid];
      var ids := ScriptDeletes(LiveIds(st, gc.stream), gc.end);
      st' == st.(live := st.live - (set x | x in ids :: Entry(gc.stream, x)))
    case GcStop(gid) =>
      st' == st.(collectors := st.collectors - {gid})
  }

  ghost predicate Init(reg: Registry, st: State) {
    && st.published == {} && st.live == {} && st.last == map[] && st.pel == map[] && st.handled == {}
    && st.sessions == map[] && st.collectors == map[]
    && st.top.Keys == reg.Keys && forall s :: s in reg ==> st.top[s] == ZERO
  }

  /** A run: each state follows from the one before by the action between them. */
  ghost predicate Run(reg: Registry, states: seq<State>, actions: seq<Action>) {
    && |states| == |actions| + 1 && Init(reg, states[0])
    && forall i :: 0 <= i < |actions| ==> Next(reg, states[i], actions[i], states[i + 1])
  }
}
