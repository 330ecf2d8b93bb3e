/** The Redis flusher: commands queued per pool and sent together, in an order of its own. */
module RedisFlusher {
  import opened Wrappers

  type Event = seq<string>

  /** A queued call. Publish names the pool its stream lives in. */
  datatype Call =
    | Del(pool: string, keys: seq<string>)
    | Set(pool: string, key: string, value: string)
    | Publish(pool: string, stream: string, event: Event)
    | HSet(pool: string, key: string, values: seq<string>)

  datatype Command =
    | DelCommand(keys: seq<string>) | HSetCommand(key: string, values: seq<string>)
    | XAddCommand(stream: string, event: Event) | SetCommand(key: string, value: string)

  /** What is queued for one pool. usePool asks for a pipeline. */
  datatype Commands = Commands(
    deletes: seq<string>, hSets: map<string, seq<string>>, sets: map<string, string>, events: map<string, seq<Event>>,
    diffs: set<string>, usePool: bool)

  const NONE := Commands([], map[], map[], map[], {}, false)

  // ---------------------------------------------------------------- what the calls ask for

  function DeletesOf(calls: seq<Call>, pool: string): seq<string> {
    if calls == [] then []
    else
      var c := calls[|calls| - 1];
      DeletesOf(calls[..|calls| - 1], pool) + if c.Del? && c.pool == pool then c.keys else []
  }

  /** All values of a hash, in the order they were given. */
  function HashOf(calls: seq<Call>, pool: string, key: string): seq<string> {
    if calls == [] then []
    else
      var c := calls[|calls| - 1];
      HashOf(calls[..|calls| - 1], pool, key) + if c.HSet? && c.pool == pool && c.key == key then c.values else []
  }

  /** The last value set. */
  function SetOf(calls: seq<Call>, pool: string, key: string): Option<string> {
    if calls == [] then None
    else
      var c := calls[|calls| - 1];
      if c.Set? && c.pool == pool && c.key == key then Some(c.value) else SetOf(calls[..|calls| - 1], pool, key)
  }

  /** The events of a stream, as published. */
  function EventsOf(calls: seq<Call>, pool: string, stream: string): seq<Event> {
    if calls == [] then []
    else
      var c := calls[|calls| - 1];
      EventsOf(calls[..|calls| - 1], pool, stream) + if c.Publish? && c.pool == pool && c.stream == stream then [c.event] else []
  }

  function At<V>(m: map<string, seq<V>>, k: string): seq<V> {
    if k in m then m[k] else []
  }

  function Find(m: map<string, string>, k: string): Option<string> {
    if k in m then Some(m[k]) else None
  }

  function Of(pipelines: map<string, Commands>, pool: string): Commands {
    if pool in pipelines then pipelines[pool] else NONE
  }

  /** The queue of a pool holds what the calls ask for. */
  ghost predicate Holds(c: Commands, calls: seq<Call>, pool: string) {
    && c.deletes == DeletesOf(calls, pool)
    && (forall k :: At(c.hSets, k) == HashOf(calls, pool, k))
    && (forall k :: Find(c.sets, k) == SetOf(calls, pool, k))
    && (forall s :: At(c.events, s) == EventsOf(calls, pool, s))
    && (forall s :: s in c.events ==> c.events[s] != [])
  }

  // ---------------------------------------------------------------- what a flush sends

  function OnPool(log: seq<(string, Command)>, pool: string): seq<Command> {
    if log == [] then []
    else
      var (p, c) := log[|log| - 1];
      OnPool(log[..|log| - 1], pool) + if p == pool then [c] else []
  }

  function Appended(cs: seq<Command>, stream: string): seq<Event> {
    if cs == [] then []
    else
      var c := cs[|cs| - 1];
      Appended(cs[..|cs| - 1], stream) + if c.XAddCommand? && c.stream == stream then [c.event] else []
  }

  function DeleteCommands(c: Commands): seq<Command> {
    if c.deletes == [] then [] else [DelCommand(c.deletes)]
  }

  /** Every hash once, with all its values. */
  ghost predicate HashCommands(cs: seq<Command>, m: map<string, seq<string>>) {
    && (forall i :: 0 <= i < |cs| ==> cs[i].HSetCommand? && cs[i].key in m && cs[i].values == m[cs[i].key])
    && (forall i, j :: 0 <= i < j < |cs| ==> cs[i] != cs[j])
    && (forall k :: k in m ==> HSetCommand(k, m[k]) in cs)
  }

  /** Every key once, with its last value. */
  ghost predicate SetCommands(cs: seq<Command>, m: map<string, string>) {
    && (forall i :: 0 <= i < |cs| ==> cs[i].SetCommand? && cs[i].key in m && cs[i].value == m[cs[i].key])
    && (forall i, j :: 0 <= i < j < |cs| ==> cs[i] != cs[j])
    && (forall k :: k in m ==> SetCommand(k, m[k]) in cs)
  }

  /** Every event once, each stream's in order. */
  ghost predicate EventCommands(cs: seq<Command>, m: map<string, seq<Event>>) {
    && (forall i :: 0 <= i < |cs| ==> cs[i].XAddCommand?)
    && (forall s :: Appended(cs, s) == At(m, s))
  }

  /** Deletes, then hashes, then keys. */
  ghost predicate Writes(cs: seq<Command>, c: Commands) {
    exists h, s :: HashCommands(h, c.hSets) && SetCommands(s, c.sets) && cs == DeleteCommands(c) + h + s
  }

  /** Deletes, then hashes, then events, then keys. */
  ghost predicate WritesAndEvents(cs: seq<Command>, c: Commands) {
    exists h, e, s ::
      HashCommands(h, c.hSets) && EventCommands(e, c.events) && SetCommands(s, c.sets) && cs == DeleteCommands(c) + h + e + s
  }

  /**
   * What a flush adds to the log. One pool: its deletes, hashes, events and keys in this order. Several: every
   * pool's deletes, hashes and keys, and only then the events of all.
   */
  ghost predicate Sent(pipelines: map<string, Commands>, sent: seq<(string, Command)>) {
    if |pipelines| <= 1 then
      && (forall p :: p in pipelines ==> WritesAndEvents(OnPool(sent, p), pipelines[p]))
      && (forall i :: 0 <= i < |sent| ==> sent[i].0 in pipelines)
    else
      exists a: seq<(string, Command)>, b: seq<(string, Command)> ::
        && sent == a + b
        && (forall i :: 0 <= i < |a| ==> !a[i].1.XAddCommand? && a[i].0 in pipelines)
        && (forall i :: 0 <= i < |b| ==> b[i].1.XAddCommand? && b[i].0 in pipelines)
        && (forall p :: p in pipelines ==> Writes(OnPool(a, p), pipelines[p]) && EventCommands(OnPool(b, p), pipelines[p].events))
  }

  // ---------------------------------------------------------------- sending one pool's parts

  /** These commands, to this pool. */
  function To(pool: string, cs: seq<Command>): seq<(string, Command)> {
    seq(|cs|, i requires 0 <= i < |cs| => (pool, cs[i]))
  }

  lemma {:induction false} OnPoolConcat(a: seq<(string, Command)>, b: seq<(string, Command)>, pool: string)
    ensures OnPool(a + b, pool) == OnPool(a, pool) + OnPool(b, pool)
  {
    if b == [] {
      assert a + b == a;
    } else {
      OnPoolConcat(a, b[..|b| - 1], pool);
      assert (a + b)[..|a + b| - 1] == a + b[..|b| - 1];
    }
  }

  lemma {:induction false} OnPoolTo(pool: string, cs: seq<Command>, q: string)
    ensures OnPool(To(pool, cs), q) == if q == pool then cs else []
  {
    if cs != [] {
      var n := |cs| - 1;
      OnPoolTo(pool, cs[..n], q);
      assert To(pool, cs)[..n] == To(pool, cs[..n]);
      assert cs == cs[..n] + [cs[n]];
    }
  }

  method SendHashes(hSets: map<string, seq<string>>) returns (cs: seq<Command>)
    ensures HashCommands(cs, hSets)
  {
    cs := [];
    var keys := hSets.Keys;
    while keys != {}
      invariant keys <= hSets.Keys
      invariant forall i :: 0 <= i < |cs| ==> cs[i].HSetCommand? && cs[i].key in hSets && cs[i].key !in keys && cs[i].values == hSets[cs[i].key]
      invariant forall i, j :: 0 <= i < j < |cs| ==> cs[i] != cs[j]
      invariant forall k :: k in hSets && k !in keys ==> HSetCommand(k, hSets[k]) in cs
      decreases |keys|
    {
      var key :| key in keys;
      cs := cs + [HSetCommand(key, hSets[key])];
      keys := keys - {key};
    }
  }

  method SendSets(sets: map<string, string>) returns (cs: seq<Command>)
    ensures SetCommands(cs, sets)
  {
    cs := [];
    var keys := sets.Keys;
    while keys != {}
      invariant keys <= sets.Keys
      invariant forall i :: 0 <= i < |cs| ==> cs[i].SetCommand? && cs[i].key in sets && cs[i].key !in keys && cs[i].value == sets[cs[i].key]
      invariant forall i, j :: 0 <= i < j < |cs| ==> cs[i] != cs[j]
      invariant forall k :: k in sets && k !in keys ==> SetCommand(k, sets[k]) in cs
      decreases |keys|
    {
      var key :| key in keys;
      cs := cs + [SetCommand(key, sets[key])];
      keys := keys - {key};
    }
  }

  method SendEvents(events: map<string, seq<Event>>) returns (cs: seq<Command>)
    ensures EventCommands(cs, events)
  {
    cs := [];
    var streams := events.Keys;
    while streams != {}
      invariant streams <= events.Keys
      invariant forall i :: 0 <= i < |cs| ==> cs[i].XAddCommand?
      invariant forall s :: Appended(cs, s) == if s in streams then [] else At(events, s)
      decreases |streams|
    {
      var stream :| stream in streams;
      cs := SendStream(stream, events[stream], cs);
      streams := streams - {stream};
    }
  }

  method SendStream(stream: string, events: seq<Event>, cs': seq<Command>) returns (cs: seq<Command>)
    requires forall i :: 0 <= i < |cs'| ==> cs'[i].XAddCommand?
    ensures forall i :: 0 <= i < |cs| ==> cs[i].XAddCommand?
    ensures forall s :: Appended(cs, s) == if s == stream then Appended(cs', s) + events else Appended(cs', s)
  {
    cs := cs';
    for j := 0 to |events|
      invariant forall i :: 0 <= i < |cs| ==> cs[i].XAddCommand?
      invariant forall s :: Appended(cs, s) == if s == stream then Appended(cs', s) + events[..j] else Appended(cs', s)
    {
      var c := XAddCommand(stream, events[j]);
      forall s ensures Appended(cs + [c], s) == Appended(cs, s) + if s == stream then [events[j]] else [] {
        assert (cs + [c])[..|cs|] == cs;
      }
      assert events[..j + 1] == events[..j] + [events[j]];
      cs := cs + [c];
    }
    assert events[..|events|] == events;
  }

  // ---------------------------------------------------------------- queueing

  class Flusher {
    var pipelines: map<string, Commands>
    var log: seq<(string, Command)>
    ghost var calls: seq<Call>

    constructor ()
      ensures Valid() && calls == [] && log == [] && pipelines == map[]
    {
      pipelines, log, calls := map[], [], [];
    }

    /** The queues hold what the calls since the last flush ask for. */
    ghost predicate Valid()
      reads this
    {
      forall pool :: Holds(Of(pipelines, pool), calls, pool)
    }

    /** Replaces the queue of a pool. */
    method Put(pool: string, c: Commands, ghost call: Call)
      requires Valid() && call.pool == pool && Holds(c, calls + [call], pool)
      modifies this`pipelines, this`calls
      ensures Valid() && calls == old(calls) + [call]
    {
      hide Holds;
      forall p | p != pool ensures Holds(Of(pipelines, p), calls + [call], p) {
        OtherPool(Of(pipelines, p), calls, call, p);
      }
      ghost var was := pipelines;
      pipelines := pipelines[pool := c];
      calls := calls + [call];
      forall p ensures Holds(Of(pipelines, p), calls, p) {
        assert Of(pipelines, p) == if p == pool then c else Of(was, p);
      }
    }

    method Delete(pool: string, keys: seq<string>)
      requires Valid()
      modifies this`pipelines, this`calls
      ensures Valid() && calls == old(calls) + [Del(pool, keys)]
    {
      ghost var call := Del(pool, keys);
      if |keys| == 0 {
        NothingAsked(Of(pipelines, pool), calls, call);
        forall p | p != pool ensures Holds(Of(pipelines, p), calls + [call], p) {
          OtherPool(Of(pipelines, p), calls, call, p);
        }
        calls := calls + [call];
        return;
      }
      var c := Of(pipelines, pool);
      c := c.(deletes := c.deletes + keys, diffs := c.diffs + {"delete"});
      DeleteAsked(Of(pipelines, pool), calls, call);
      Put(pool, c, call);
    }

    method SetKey(pool: string, key: string, value: string)
      requires Valid()
      modifies this`pipelines, this`calls
      ensures Valid() && calls == old(calls) + [Set(pool, key, value)]
    {
      var c := Of(pipelines, pool);
      c := c.(sets := c.sets[key := value], diffs := c.diffs + {"set"});
      SetAsked(Of(pipelines, pool), calls, Set(pool, key, value));
      Put(pool, c, Set(pool, key, value));
    }

    method PublishEvent(pool: string, stream: string, event: Event)
      requires Valid()
      modifies this`pipelines, this`calls
      ensures Valid() && calls == old(calls) + [Publish(pool, stream, event)]
    {
      var c := Of(pipelines, pool);
      var more := stream in c.events;
      c := c.(events := c.events[stream := At(c.events, stream) + [event]], diffs := c.diffs + {"xadd"}, usePool := c.usePool || more);
      EventAsked(Of(pipelines, pool), calls, Publish(pool, stream, event), c.diffs, c.usePool);
      Put(pool, c, Publish(pool, stream, event));
    }

    method HashSet(pool: string, key: string, values: seq<string>)
      requires Valid()
      modifies this`pipelines, this`calls
      ensures Valid() && calls == old(calls) + [HSet(pool, key, values)]
    {
      var c := Of(pipelines, pool);
      c := c.(hSets := c.hSets[key := At(c.hSets, key) + values], diffs := c.diffs + {"hset"});
      HashAsked(Of(pipelines, pool), calls, HSet(pool, key, values));
      Put(pool, c, HSet(pool, key, values));
    }

    // -------------------------------------------------------------- flushing

    method Send(pool: string, cs: seq<Command>)
      modifies this`log
      ensures log == old(log) + To(pool, cs)
    {
      log := log + To(pool, cs);
    }

    /** The only pool. */
    method FlushOnly(pool: string, c: Commands) returns (ghost cs: seq<Command>)
      modifies this`log
      ensures log == old(log) + To(pool, cs) && WritesAndEvents(cs, c)
    {
      hide To, HashCommands, EventCommands, SetCommands;
      var deletes := DeleteCommands(c);
      var hashes := SendHashes(c.hSets);
      var events := SendEvents(c.events);
      var sets := SendSets(c.sets);
      cs := deletes + hashes + events + sets;
      if c.usePool || |c.diffs| > 1 || |c.events| > 1 || |c.hSets| > 1 || |c.sets| > 1 {
        var p := deletes + hashes + events + sets;
        Send(pool, p);
      } else {
        Send(pool, deletes);
        Send(pool, hashes);
        Send(pool, events);
        Send(pool, sets);
        Together(old(log), pool, deletes, hashes);
        Together(old(log), pool, deletes + hashes, events);
        Together(old(log), pool, deletes + hashes + events, sets);
      }
    }

    /** One of several pools: everything but its events. */
    method FlushWrites(pool: string, c: Commands) returns (ghost cs: seq<Command>)
      modifies this`log
      ensures log == old(log) + To(pool, cs) && Writes(cs, c)
    {
      hide To, HashCommands, SetCommands;
      var deletes := DeleteCommands(c);
      var hashes := SendHashes(c.hSets);
      var sets := SendSets(c.sets);
      cs := deletes + hashes + sets;
      if c.usePool || |c.diffs| > 1 || |c.hSets| > 1 || |c.sets| > 1 {
        var p := deletes + hashes + sets;
        if p != [] {
          Send(pool, p);
        }
        NothingTo(log, pool);
      } else {
        Send(pool, deletes);
        Send(pool, hashes);
        Send(pool, sets);
        Together(old(log), pool, deletes, hashes);
        Together(old(log), pool, deletes + hashes, sets);
      }
    }

    method FlushEvents(pool: string, c: Commands) returns (ghost cs: seq<Command>)
      modifies this`log
      ensures log == old(log) + To(pool, cs) && EventCommands(cs, c.events)
    {
      if |c.events| == 0 {
        assert c.events == map[];
        NothingTo(log, pool);
        return [];
      }
      var events := SendEvents(c.events);
      Send(pool, events);
      cs := events;
    }

    /** Sends everything queued, and empties the queues. */
    method Flush() returns (ghost sent: seq<(string, Command)>)
      requires Valid()
      modifies this
      ensures log == old(log) + sent && Sent(old(pipelines), sent)
      ensures pipelines == map[] && calls == [] && Valid()
    {
      hide Holds, WritesAndEvents, Writes, EventCommands, Sent, SentFor, WritesDone, EventsDone;
      if |pipelines| <= 1 {
        sent := FlushFew(pipelines);
      } else {
        ghost var a := FlushAllWrites(pipelines);
        ghost var b := FlushAllEvents(pipelines);
        AllSent(pipelines, a, b);
        sent := a + b;
      }
      pipelines, calls := map[], [];
      forall pool ensures Holds(Of(map[], pool), [], pool) {
        NothingQueued(pool);
      }
    }

    method FlushFew(pipelines: map<string, Commands>) returns (ghost sent: seq<(string, Command)>)
      requires |pipelines| <= 1
      modifies this`log
      ensures log == old(log) + sent && Sent(pipelines, sent)
    {
      hide WritesAndEvents;
      sent := [];
      if |pipelines| == 1 {
        var pool :| pool in pipelines;
        OnlyOne(pipelines, pool);
        ghost var cs := FlushOnly(pool, pipelines[pool]);
        sent := To(pool, cs);
        OnPoolTo(pool, cs, pool);
      }
    }

    method FlushAllWrites(pipelines: map<string, Commands>) returns (ghost sent: seq<(string, Command)>)
      modifies this`log
      ensures log == old(log) + sent
      ensures SentFor(sent, pipelines, false) && WritesDone(sent, pipelines, {})
    {
      hide WritesDone, SentFor, To;
      sent := [];
      NothingDone(pipelines, false);
      var pools := pipelines.Keys;
      while pools != {}
        invariant pools <= pipelines.Keys && log == old(log) + sent
        invariant SentFor(sent, pipelines, false) && WritesDone(sent, pipelines, pools)
        decreases |pools|
      {
        var pool :| pool in pools;
        ghost var cs := FlushWrites(pool, pipelines[pool]);
        WritesStep(sent, pipelines, pools, pool, cs);
        Regroup(old(log), sent, To(pool, cs));
        sent := sent + To(pool, cs);
        pools := pools - {pool};
      }
    }

    method FlushAllEvents(pipelines: map<string, Commands>) returns (ghost sent: seq<(string, Command)>)
      modifies this`log
      ensures log == old(log) + sent
      ensures SentFor(sent, pipelines, true) && EventsDone(sent, pipelines, {})
    {
      hide EventsDone, SentFor, To;
      sent := [];
      NothingDone(pipelines, true);
      var pools := pipelines.Keys;
      while pools != {}
        invariant pools <= pipelines.Keys && log == old(log) + sent
        invariant SentFor(sent, pipelines, true) && EventsDone(sent, pipelines, pools)
        decreases |pools|
      {
        var pool :| pool in pools;
        ghost var cs := FlushEvents(pool, pipelines[pool]);
        EventsStep(sent, pipelines, pools, pool, cs);
        Regroup(old(log), sent, To(pool, cs));
        sent := sent + To(pool, cs);
        pools := pools - {pool};
      }
    }
  }

  /** Only commands of these pools, and events alone or none. */
  ghost predicate SentFor(sent: seq<(string, Command)>, pipelines: map<string, Commands>, events: bool) {
    forall i :: 0 <= i < |sent| ==> sent[i].1.XAddCommand? == events && sent[i].0 in pipelines
  }

  /** Nothing has gone to the pools that are left, every write to the others. */
  ghost predicate WritesDone(sent: seq<(string, Command)>, pipelines: map<string, Commands>, left: set<string>) {
    && (forall p :: p in left ==> OnPool(sent, p) == [])
    && (forall p :: p in pipelines && p !in left ==> Writes(OnPool(sent, p), pipelines[p]))
  }

  ghost predicate EventsDone(sent: seq<(string, Command)>, pipelines: map<string, Commands>, left: set<string>) {
    && (forall p :: p in left ==> OnPool(sent, p) == [])
    && (forall p :: p in pipelines && p !in left ==> EventCommands(OnPool(sent, p), pipelines[p].events))
  }

  lemma AllSent(pipelines: map<string, Commands>, a: seq<(string, Command)>, b: seq<(string, Command)>)
    requires |pipelines| > 1 && SentFor(a, pipelines, false) && WritesDone(a, pipelines, {})
    requires SentFor(b, pipelines, true) && EventsDone(b, pipelines, {})
    ensures Sent(pipelines, a + b)
  {
    hide Writes, EventCommands, OnPool;
  }

  lemma NothingDone(pipelines: map<string, Commands>, events: bool)
    ensures SentFor([], pipelines, events)
    ensures WritesDone([], pipelines, pipelines.Keys) && EventsDone([], pipelines, pipelines.Keys)
  {
    hide Writes, EventCommands;
  }

  lemma WritesStep(sent: seq<(string, Command)>, pipelines: map<string, Commands>, left: set<string>, pool: string, cs: seq<Command>)
    requires pool in left && left <= pipelines.Keys && Writes(cs, pipelines[pool])
    requires SentFor(sent, pipelines, false) && WritesDone(sent, pipelines, left)
    ensures SentFor(sent + To(pool, cs), pipelines, false) && WritesDone(sent + To(pool, cs), pipelines, left - {pool})
  {
    hide Writes, OnPool, To;
    AddedOnPool(sent, pool, cs);
    WritesOnly(cs, pipelines[pool]);
    AllTo(pool, cs, false);
  }

  lemma EventsStep(sent: seq<(string, Command)>, pipelines: map<string, Commands>, left: set<string>, pool: string, cs: seq<Command>)
    requires pool in left && left <= pipelines.Keys && EventCommands(cs, pipelines[pool].events)
    requires SentFor(sent, pipelines, true) && EventsDone(sent, pipelines, left)
    ensures SentFor(sent + To(pool, cs), pipelines, true) && EventsDone(sent + To(pool, cs), pipelines, left - {pool})
  {
    hide EventCommands, OnPool, To;
    AddedOnPool(sent, pool, cs);
    EventsOnly(cs, pipelines[pool].events);
    AllTo(pool, cs, true);
  }

  lemma NothingTo(log: seq<(string, Command)>, pool: string)
    ensures To(pool, []) == [] && log + To(pool, []) == log
  {
  }

  lemma Together(log: seq<(string, Command)>, pool: string, a: seq<Command>, b: seq<Command>)
    ensures log + To(pool, a) + To(pool, b) == log + To(pool, a + b)
  {
    assert To(pool, a) + To(pool, b) == To(pool, a + b);
  }

  ghost predicate AllEvents(cs: seq<Command>, events: bool) {
    forall i :: 0 <= i < |cs| ==> cs[i].XAddCommand? == events
  }

  lemma WritesOnly(cs: seq<Command>, c: Commands)
    requires Writes(cs, c)
    ensures AllEvents(cs, false)
  {
  }

  lemma EventsOnly(cs: seq<Command>, m: map<string, seq<Event>>)
    requires EventCommands(cs, m)
    ensures AllEvents(cs, true)
  {
  }

  lemma AllTo(pool: string, cs: seq<Command>, events: bool)
    requires AllEvents(cs, events)
    ensures forall i :: 0 <= i < |To(pool, cs)| ==> To(pool, cs)[i].0 == pool && To(pool, cs)[i].1.XAddCommand? == events
  {
  }

  lemma AddedOnPool(sent: seq<(string, Command)>, pool: string, cs: seq<Command>)
    ensures forall q :: OnPool(sent + To(pool, cs), q) == if q == pool then OnPool(sent, q) + cs else OnPool(sent, q)
    ensures OnPool(sent, pool) == [] ==> OnPool(sent + To(pool, cs), pool) == cs
  {
    forall q ensures OnPool(sent + To(pool, cs), q) == if q == pool then OnPool(sent, q) + cs else OnPool(sent, q) {
      OnPoolConcat(sent, To(pool, cs), q);
      OnPoolTo(pool, cs, q);
      assert OnPool(sent, q) + [] == OnPool(sent, q);
    }
    assert [] + cs == cs;
  }

  lemma OnlyOne(pipelines: map<string, Commands>, pool: string)
    requires |pipelines| == 1 && pool in pipelines
    ensures forall p :: p in pipelines <==> p == pool
  {
    var rest := pipelines.Keys - {pool};
    assert |rest| == 0;
    assert pipelines.Keys == rest + {pool};
  }

  lemma NothingQueued(pool: string)
    ensures Holds(NONE, [], pool)
  {
  }

  lemma Snoc(calls: seq<Call>, call: Call)
    ensures (calls + [call])[..|calls|] == calls
  {
  }

  lemma OtherPool(c: Commands, calls: seq<Call>, call: Call, pool: string)
    requires Holds(c, calls, pool) && call.pool != pool
    ensures Holds(c, calls + [call], pool)
  {
    Snoc(calls, call);
    var more := calls + [call];
    forall k ensures HashOf(more, pool, k) == HashOf(calls, pool, k) && SetOf(more, pool, k) == SetOf(calls, pool, k) {}
    forall s ensures EventsOf(more, pool, s) == EventsOf(calls, pool, s) {}
  }

  lemma NothingAsked(c: Commands, calls: seq<Call>, call: Call)
    requires Holds(c, calls, call.pool) && call.Del? && call.keys == []
    ensures Holds(c, calls + [call], call.pool)
  {
    Snoc(calls, call);
    var more, pool := calls + [call], call.pool;
    forall k ensures HashOf(more, pool, k) == HashOf(calls, pool, k) && SetOf(more, pool, k) == SetOf(calls, pool, k) {}
    forall s ensures EventsOf(more, pool, s) == EventsOf(calls, pool, s) {}
  }

  lemma DeleteAsked(c: Commands, calls: seq<Call>, call: Call)
    requires Holds(c, calls, call.pool) && call.Del?
    ensures Holds(c.(deletes := c.deletes + call.keys, diffs := c.diffs + {"delete"}), calls + [call], call.pool)
  {
    Snoc(calls, call);
    var more, pool := calls + [call], call.pool;
    forall k ensures HashOf(more, pool, k) == HashOf(calls, pool, k) && SetOf(more, pool, k) == SetOf(calls, pool, k) {}
    forall s ensures EventsOf(more, pool, s) == EventsOf(calls, pool, s) {}
  }

  lemma SetAsked(c: Commands, calls: seq<Call>, call: Call)
    requires Holds(c, calls, call.pool) && call.Set?
    ensures Holds(c.(sets := c.sets[call.key := call.value], diffs := c.diffs + {"set"}), calls + [call], call.pool)
  {
    Snoc(calls, call);
    var more, pool := calls + [call], call.pool;
    forall k ensures HashOf(more, pool, k) == HashOf(calls, pool, k) {}
    forall s ensures EventsOf(more, pool, s) == EventsOf(calls, pool, s) {}
    forall k ensures Find(c.sets[call.key := call.value], k) == SetOf(more, pool, k) {
      assert Find(c.sets, k) == SetOf(calls, pool, k);
    }
  }

  lemma HashAsked(c: Commands, calls: seq<Call>, call: Call)
    requires Holds(c, calls, call.pool) && call.HSet?
    ensures Holds(c.(hSets := c.hSets[call.key := At(c.hSets, call.key) + call.values], diffs := c.diffs + {"hset"}), calls + [call], call.pool)
  {
    Snoc(calls, call);
    var more, pool := calls + [call], call.pool;
    forall k ensures SetOf(more, pool, k) == SetOf(calls, pool, k) {}
    forall s ensures EventsOf(more, pool, s) == EventsOf(calls, pool, s) {}
    var m := c.hSets[call.key := At(c.hSets, call.key) + call.values];
    forall k ensures At(m, k) == HashOf(more, pool, k) {
      assert At(c.hSets, k) == HashOf(calls, pool, k);
    }
  }

  lemma EventAsked(c: Commands, calls: seq<Call>, call: Call, diffs: set<string>, usePool: bool)
    requires Holds(c, calls, call.pool) && call.Publish?
    ensures Holds(c.(events := c.events[call.stream := At(c.events, call.stream) + [call.event]], diffs := diffs, usePool := usePool),
                  calls + [call], call.pool)
  {
    Snoc(calls, call);
    var more, pool := calls + [call], call.pool;
    forall k ensures SetOf(more, pool, k) == SetOf(calls, pool, k) && HashOf(more, pool, k) == HashOf(calls, pool, k) {}
    var m := c.events[call.stream := At(c.events, call.stream) + [call.event]];
    forall s ensures At(m, s) == EventsOf(more, pool, s) {
      assert At(c.events, s) == EventsOf(calls, pool, s);
    }
  }

  // ---------------------------------------------------------------- where the order shows

  /** What a key holds after its pool's calls, were they run one by one. */
  function InOrder(calls: seq<Call>, pool: string, key: string, was: Option<string>): Option<string> {
    if calls == [] then was
    else
      var c := calls[|calls| - 1];
      var v := InOrder(calls[..|calls| - 1], pool, key, was);
      if c.pool != pool then v
      else if c.Set? && c.key == key then Some(c.value)
      else if c.Del? && key in c.keys then None
      else v
  }

  /** What a command makes of a key that holds a string. */
  function Effect(c: Command, key: string, v: Option<string>): Option<string> {
    match c
    case DelCommand(keys) => if key in keys then None else v
    case SetCommand(k, value) => if k == key then Some(value) else v
    case _ => v
  }

  function Execute(cs: seq<Command>, key: string, v: Option<string>): Option<string> {
    if cs == [] then v else Effect(cs[|cs| - 1], key, Execute(cs[..|cs| - 1], key, v))
  }

  lemma {:induction false} ExecuteConcat(a: seq<Command>, b: seq<Command>, key: string, v: Option<string>)
    ensures Execute(a + b, key, v) == Execute(b, key, Execute(a, key, v))
  {
    if b == [] {
      assert a + b == a;
    } else {
      ExecuteConcat(a, b[..|b| - 1], key, v);
      assert (a + b)[..|a + b| - 1] == a + b[..|b| - 1];
    }
  }

  lemma {:induction false} ExecuteOthers(cs: seq<Command>, key: string, v: Option<string>)
    requires forall i :: 0 <= i < |cs| ==> cs[i].HSetCommand? || cs[i].XAddCommand? || (cs[i].SetCommand? && cs[i].key != key)
    ensures Execute(cs, key, v) == v
  {
    if cs != [] {
      ExecuteOthers(cs[..|cs| - 1], key, v);
    }
  }

  lemma ExecuteDeletes(c: Commands, key: string, v: Option<string>)
    ensures Execute(DeleteCommands(c), key, v) == if key in c.deletes then None else v
  {
    if c.deletes != [] {
      assert DeleteCommands(c)[..0] == [];
    }
  }

  lemma {:induction false} ExecuteSets(cs: seq<Command>, key: string, value: string, v: Option<string>)
    requires forall i :: 0 <= i < |cs| ==> cs[i].SetCommand? && (cs[i].key == key ==> cs[i].value == value)
    ensures Execute(cs, key, v) == if SetCommand(key, value) in cs then Some(value) else v
  {
    if cs != [] {
      var n := |cs| - 1;
      ExecuteSets(cs[..n], key, value, v);
      assert cs == cs[..n] + [cs[n]];
    }
  }

  /** What a pool's queue makes of a key: deletes run before sets. */
  function Outcome(c: Commands, key: string, v: Option<string>): Option<string> {
    if key in c.sets then Some(c.sets[key]) else if key in c.deletes then None else v
  }

  lemma ExecuteSetCommands(s: seq<Command>, m: map<string, string>, key: string, v: Option<string>)
    requires SetCommands(s, m)
    ensures Execute(s, key, v) == if key in m then Some(m[key]) else v
  {
    if key in m {
      ExecuteSets(s, key, m[key], v);
    } else {
      ExecuteOthers(s, key, v);
    }
  }

  lemma ExecuteWrites(cs: seq<Command>, c: Commands, key: string, v: Option<string>)
    requires Writes(cs, c)
    ensures Execute(cs, key, v) == Outcome(c, key, v)
  {
    hide Execute, DeleteCommands, SetCommands;
    var h, s :| HashCommands(h, c.hSets) && SetCommands(s, c.sets) && cs == DeleteCommands(c) + h + s;
    ExecuteConcat(DeleteCommands(c) + h, s, key, v);
    ExecuteConcat(DeleteCommands(c), h, key, v);
    ExecuteDeletes(c, key, v);
    ExecuteOthers(h, key, Execute(DeleteCommands(c), key, v));
    ExecuteSetCommands(s, c.sets, key, Execute(DeleteCommands(c) + h, key, v));
  }

  lemma ExecuteWritesAndEvents(cs: seq<Command>, c: Commands, key: string, v: Option<string>)
    requires WritesAndEvents(cs, c)
    ensures Execute(cs, key, v) == Outcome(c, key, v)
  {
    hide Execute, DeleteCommands, SetCommands, Appended;
    var h, e, s :|
      HashCommands(h, c.hSets) && EventCommands(e, c.events) && SetCommands(s, c.sets) && cs == DeleteCommands(c) + h + e + s;
    var d := DeleteCommands(c);
    ExecuteConcat(d + h + e, s, key, v);
    ExecuteConcat(d + h, e, key, v);
    ExecuteConcat(d, h, key, v);
    ExecuteDeletes(c, key, v);
    ExecuteOthers(h, key, Execute(d, key, v));
    ExecuteOthers(e, key, Execute(d + h, key, v));
    ExecuteSetCommands(s, c.sets, key, Execute(d + h + e, key, v));
  }

  lemma {:induction false} NothingOnPool(sent: seq<(string, Command)>, pool: string)
    requires forall i :: 0 <= i < |sent| ==> sent[i].0 != pool
    ensures OnPool(sent, pool) == []
  {
    if sent != [] {
      NothingOnPool(sent[..|sent| - 1], pool);
    }
  }

  /** Executing what was sent to a pool, in whatever order the maps were gone through, does with a key what its queue asks for. */
  lemma ExecuteSent(pipelines: map<string, Commands>, sent: seq<(string, Command)>, pool: string, key: string, v: Option<string>)
    requires Sent(pipelines, sent)
    ensures Execute(OnPool(sent, pool), key, v) == Outcome(Of(pipelines, pool), key, v)
  {
    hide Writes, WritesAndEvents, EventCommands, OnPool, Execute, Outcome;
    if pool !in pipelines {
      NothingOnPool(sent, pool);
      NothingExecuted(key, v);
    } else if |pipelines| <= 1 {
      ExecuteWritesAndEvents(OnPool(sent, pool), pipelines[pool], key, v);
    } else {
      var a: seq<(string, Command)>, b: seq<(string, Command)> :|
        && sent == a + b
        && (forall i :: 0 <= i < |a| ==> !a[i].1.XAddCommand? && a[i].0 in pipelines)
        && (forall i :: 0 <= i < |b| ==> b[i].1.XAddCommand? && b[i].0 in pipelines)
        && (forall p :: p in pipelines ==> Writes(OnPool(a, p), pipelines[p]) && EventCommands(OnPool(b, p), pipelines[p].events));
      ExecuteParts(a, b, pipelines[pool], pool, key, v);
    }
  }

  lemma NothingExecuted(key: string, v: Option<string>)
    ensures Execute([], key, v) == v == Outcome(NONE, key, v)
  {
  }

  lemma ExecuteParts(a: seq<(string, Command)>, b: seq<(string, Command)>, c: Commands, pool: string, key: string, v: Option<string>)
    requires Writes(OnPool(a, pool), c) && EventCommands(OnPool(b, pool), c.events)
    ensures Execute(OnPool(a + b, pool), key, v) == Outcome(c, key, v)
  {
    hide Writes, EventCommands, OnPool, Execute, Outcome;
    OnPoolConcat(a, b, pool);
    ExecuteConcat(OnPool(a, pool), OnPool(b, pool), key, v);
    ExecuteWrites(OnPool(a, pool), c, key, v);
    ExecuteEvents(OnPool(b, pool), c.events, key, Execute(OnPool(a, pool), key, v));
  }

  lemma ExecuteEvents(cs: seq<Command>, m: map<string, seq<Event>>, key: string, v: Option<string>)
    requires EventCommands(cs, m)
    ensures Execute(cs, key, v) == v
  {
    ExecuteOthers(cs, key, v);
  }

  /** The last call about the key is a delete. */
  predicate DeletedLast(calls: seq<Call>, pool: string, key: string) {
    calls != [] &&
    var c := calls[|calls| - 1];
    if c.pool == pool && c.Set? && c.key == key then false
    else if c.pool == pool && c.Del? && key in c.keys then true
    else DeletedLast(calls[..|calls| - 1], pool, key)
  }

  /** Executing what a flush sends leaves a key as its calls in order would, unless it was set and then deleted: the set wins. */
  lemma SetThenDelete(pipelines: map<string, Commands>, sent: seq<(string, Command)>, calls: seq<Call>, pool: string, key: string,
                      was: Option<string>)
    requires Sent(pipelines, sent) && Holds(Of(pipelines, pool), calls, pool)
    ensures Execute(OnPool(sent, pool), key, was) == InOrder(calls, pool, key, was)
       <==> !(SetOf(calls, pool, key).Some? && DeletedLast(calls, pool, key))
  {
    hide Sent, Execute, OnPool, InOrder, DeletedLast, DeletesOf, SetOf, HashOf, EventsOf;
    ExecuteSent(pipelines, sent, pool, key, was);
    Ordered(calls, pool, key, was);
    assert Find(Of(pipelines, pool).sets, key) == SetOf(calls, pool, key);
  }

  lemma {:induction false} Ordered(calls: seq<Call>, pool: string, key: string, was: Option<string>)
    ensures InOrder(calls, pool, key, was) ==
      if DeletedLast(calls, pool, key) then None
      else if SetOf(calls, pool, key).Some? then SetOf(calls, pool, key)
      else was
    ensures DeletedLast(calls, pool, key) ==> key in DeletesOf(calls, pool)
    ensures key in DeletesOf(calls, pool) ==> DeletedLast(calls, pool, key) || SetOf(calls, pool, key).Some?
  {
    if calls != [] {
      Ordered(calls[..|calls| - 1], pool, key, was);
    }
  }

  // ---------------------------------------------------------------- streams and hashes

  /** What the commands give a hash, all values in order. */
  function Gathered(cs: seq<Command>, key: string): seq<string> {
    if cs == [] then []
    else
      var c := cs[|cs| - 1];
      Gathered(cs[..|cs| - 1], key) + if c.HSetCommand? && c.key == key then c.values else []
  }

  lemma {:induction false} GatherConcat(a: seq<Command>, b: seq<Command>, key: string)
    ensures Gathered(a + b, key) == Gathered(a, key) + Gathered(b, key)
  {
    if b == [] {
      assert a + b == a;
    } else {
      GatherConcat(a, b[..|b| - 1], key);
      assert (a + b)[..|a + b| - 1] == a + b[..|b| - 1];
    }
  }

  lemma {:induction false} AppendConcat(a: seq<Command>, b: seq<Command>, stream: string)
    ensures Appended(a + b, stream) == Appended(a, stream) + Appended(b, stream)
  {
    if b == [] {
      assert a + b == a;
    } else {
      AppendConcat(a, b[..|b| - 1], stream);
      assert (a + b)[..|a + b| - 1] == a + b[..|b| - 1];
    }
  }

  lemma {:induction false} NoneGathered(cs: seq<Command>, key: string)
    requires forall i :: 0 <= i < |cs| ==> !(cs[i].HSetCommand? && cs[i].key == key)
    ensures Gathered(cs, key) == []
  {
    if cs != [] {
      NoneGathered(cs[..|cs| - 1], key);
    }
  }

  lemma {:induction false} NoneAppended(cs: seq<Command>, stream: string)
    requires forall i :: 0 <= i < |cs| ==> !cs[i].XAddCommand?
    ensures Appended(cs, stream) == []
  {
    if cs != [] {
      NoneAppended(cs[..|cs| - 1], stream);
    }
  }

  /** Every hash is sent once. */
  lemma {:induction false} HashGathered(cs: seq<Command>, m: map<string, seq<string>>, key: string)
    requires forall i :: 0 <= i < |cs| ==> cs[i].HSetCommand? && cs[i].key in m && cs[i].values == m[cs[i].key]
    requires forall i, j :: 0 <= i < j < |cs| ==> cs[i] != cs[j]
    ensures Gathered(cs, key) == if key in m && HSetCommand(key, m[key]) in cs then m[key] else []
  {
    if cs != [] {
      var n := |cs| - 1;
      assert cs == cs[..n] + [cs[n]];
      HashGathered(cs[..n], m, key);
      if cs[n].key == key {
        assert cs[n] == HSetCommand(key, m[key]) && cs[n] !in cs[..n];
      }
    }
  }

  /** What a pool is sent, apart from its events. */
  lemma WritesGather(cs: seq<Command>, c: Commands, key: string)
    requires Writes(cs, c)
    ensures Gathered(cs, key) == At(c.hSets, key) && Appended(cs, key) == []
  {
    hide Gathered, Appended;
    var h, s :| HashCommands(h, c.hSets) && SetCommands(s, c.sets) && cs == DeleteCommands(c) + h + s;
    var d := DeleteCommands(c);
    HashPart(h, c.hSets, key);
    OtherPart(d, key);
    OtherPart(s, key);
    GatherConcat(d + h, s, key);
    GatherConcat(d, h, key);
    AppendConcat(d + h, s, key);
    AppendConcat(d, h, key);
  }

  lemma HashPart(h: seq<Command>, m: map<string, seq<string>>, key: string)
    requires HashCommands(h, m)
    ensures Gathered(h, key) == At(m, key) && Appended(h, key) == []
  {
    HashGathered(h, m, key);
    NoneAppended(h, key);
  }

  lemma OtherPart(cs: seq<Command>, key: string)
    requires forall i :: 0 <= i < |cs| ==> cs[i].DelCommand? || cs[i].SetCommand?
    ensures Gathered(cs, key) == [] && Appended(cs, key) == []
  {
    NoneGathered(cs, key);
    NoneAppended(cs, key);
  }

  lemma EventPart(e: seq<Command>, m: map<string, seq<Event>>, key: string)
    requires EventCommands(e, m)
    ensures Gathered(e, key) == [] && Appended(e, key) == At(m, key)
  {
    NoneGathered(e, key);
  }

  lemma WritesAndEventsGather(cs: seq<Command>, c: Commands, key: string)
    requires WritesAndEvents(cs, c)
    ensures Gathered(cs, key) == At(c.hSets, key) && Appended(cs, key) == At(c.events, key)
  {
    hide Gathered, Appended;
    var h, e, s :|
      HashCommands(h, c.hSets) && EventCommands(e, c.events) && SetCommands(s, c.sets) && cs == DeleteCommands(c) + h + e + s;
    var d := DeleteCommands(c);
    HashPart(h, c.hSets, key);
    EventPart(e, c.events, key);
    OtherPart(d, key);
    OtherPart(s, key);
    GatherConcat(d + h + e, s, key);
    GatherConcat(d + h, e, key);
    GatherConcat(d, h, key);
    AppendConcat(d + h + e, s, key);
    AppendConcat(d + h, e, key);
    AppendConcat(d, h, key);
  }

  lemma SentGather(pipelines: map<string, Commands>, sent: seq<(string, Command)>, pool: string, key: string)
    requires Sent(pipelines, sent)
    ensures Gathered(OnPool(sent, pool), key) == At(Of(pipelines, pool).hSets, key)
    ensures Appended(OnPool(sent, pool), key) == At(Of(pipelines, pool).events, key)
  {
    hide Writes, WritesAndEvents, OnPool;
    if pool !in pipelines {
      NothingOnPool(sent, pool);
      assert Gathered([], key) == [] && Appended([], key) == [];
    } else if |pipelines| <= 1 {
      WritesAndEventsGather(OnPool(sent, pool), pipelines[pool], key);
    } else {
      var a: seq<(string, Command)>, b: seq<(string, Command)> :|
        && sent == a + b
        && (forall i :: 0 <= i < |a| ==> !a[i].1.XAddCommand? && a[i].0 in pipelines)
        && (forall i :: 0 <= i < |b| ==> b[i].1.XAddCommand? && b[i].0 in pipelines)
        && (forall p :: p in pipelines ==> Writes(OnPool(a, p), pipelines[p]) && EventCommands(OnPool(b, p), pipelines[p].events));
      OnPoolConcat(a, b, pool);
      GatherConcat(OnPool(a, pool), OnPool(b, pool), key);
      AppendConcat(OnPool(a, pool), OnPool(b, pool), key);
      WritesGather(OnPool(a, pool), pipelines[pool], key);
      EventPart(OnPool(b, pool), pipelines[pool].events, key);
    }
  }

  /** What a stream holds after its pool's calls, were they run one by one, and what a hash has been given. */
  function Streamed(calls: seq<Call>, pool: string, stream: string, was: seq<Event>): seq<Event> {
    if calls == [] then was
    else
      match calls[0]
      case Publish(p, s, event) => Streamed(calls[1..], pool, stream, if p == pool && s == stream then was + [event] else was)
      case _ => Streamed(calls[1..], pool, stream, was)
  }

  function Hashed(calls: seq<Call>, pool: string, key: string, was: seq<string>): seq<string> {
    if calls == [] then was
    else
      match calls[0]
      case HSet(p, k, values) => Hashed(calls[1..], pool, key, if p == pool && k == key then was + values else was)
      case _ => Hashed(calls[1..], pool, key, was)
  }

  lemma {:induction false} EventsConcat(a: seq<Call>, b: seq<Call>, pool: string, stream: string)
    ensures EventsOf(a + b, pool, stream) == EventsOf(a, pool, stream) + EventsOf(b, pool, stream)
  {
    if b == [] {
      assert a + b == a;
    } else {
      EventsConcat(a, b[..|b| - 1], pool, stream);
      assert (a + b)[..|a + b| - 1] == a + b[..|b| - 1];
    }
  }

  lemma {:induction false} HashConcat(a: seq<Call>, b: seq<Call>, pool: string, key: string)
    ensures HashOf(a + b, pool, key) == HashOf(a, pool, key) + HashOf(b, pool, key)
  {
    if b == [] {
      assert a + b == a;
    } else {
      HashConcat(a, b[..|b| - 1], pool, key);
      assert (a + b)[..|a + b| - 1] == a + b[..|b| - 1];
    }
  }

  lemma {:induction false} StreamedIs(calls: seq<Call>, pool: string, stream: string, was: seq<Event>)
    ensures Streamed(calls, pool, stream, was) == was + EventsOf(calls, pool, stream)
  {
    if calls != [] {
      var c := calls[0];
      assert calls == [c] + calls[1..] && [c][..0] == [];
      EventsConcat([c], calls[1..], pool, stream);
      StreamedIs(calls[1..], pool, stream, if c.Publish? && c.pool == pool && c.stream == stream then was + [c.event] else was);
    }
  }

  lemma {:induction false} HashedIs(calls: seq<Call>, pool: string, key: string, was: seq<string>)
    ensures Hashed(calls, pool, key, was) == was + HashOf(calls, pool, key)
  {
    if calls != [] {
      var c := calls[0];
      assert calls == [c] + calls[1..] && [c][..0] == [];
      HashConcat([c], calls[1..], pool, key);
      HashedIs(calls[1..], pool, key, if c.HSet? && c.pool == pool && c.key == key then was + c.values else was);
    }
  }

  /** A flush leaves every stream with the events, and gives every hash the values, that its calls one by one would. */
  lemma StreamsSent(pipelines: map<string, Commands>, sent: seq<(string, Command)>, calls: seq<Call>, pool: string, key: string,
                    was: seq<Event>, values: seq<string>)
    requires Sent(pipelines, sent) && Holds(Of(pipelines, pool), calls, pool)
    ensures was + Appended(OnPool(sent, pool), key) == Streamed(calls, pool, key, was)
    ensures values + Gathered(OnPool(sent, pool), key) == Hashed(calls, pool, key, values)
  {
    hide Sent, OnPool, Streamed, Hashed;
    SentGather(pipelines, sent, pool, key);
    StreamedIs(calls, pool, key, was);
    HashedIs(calls, pool, key, values);
    assert At(Of(pipelines, pool).events, key) == EventsOf(calls, pool, key);
    assert At(Of(pipelines, pool).hSets, key) == HashOf(calls, pool, key);
  }
}
