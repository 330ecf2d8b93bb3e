/** Claim: everything one consumer has pending is handed to another, a hundred entries at a time. */
module StreamClaim {
  import opened StreamIds
  import opened StreamProtocol

  const PAGE := 100

  /** The pending entries of one consumer of a stream from an id on. */
  function Held(pel: map<Entry, string>, stream: string, name: string, start: ID): (ids: set<ID>)
    ensures forall x :: x in ids <==> Entry(stream, x) in pel && pel[Entry(stream, x)] == name && Le(start, x)
  {
    set e | e in pel && e.stream == stream && pel[e] == name && Le(start, e.id) :: e.id
  }

  function IncrementID(id: ID): (next: ID)
    ensures forall x :: Le(next, x) <==> Lt(id, x)
  {
    ID(id.ms, id.counter + 1)
  }

  /** Whether an entry lies in the part already worked through: whole streams, and one stream up to an id. */
  predicate Done(e: Entry, streams: set<string>, stream: string, start: ID) {
    e.stream in streams || (e.stream == stream && Lt(e.id, start))
  }

  function Claimed(pel: map<Entry, string>, from: string, to: string, streams: set<string>, stream: string, start: ID)
    : map<Entry, string>
  {
    map e | e in pel :: if pel[e] == from && Done(e, streams, stream, start) then to else pel[e]
  }

  /** Ownership after a whole claim: a matter of the owner and the stream alone. */
  function HandedOver(pel: map<Entry, string>, from: string, to: string, streams: set<string>): map<Entry, string> {
    map e | e in pel :: if pel[e] == from && e.stream in streams then to else pel[e]
  }

  function Names(streams: seq<string>): set<string> {
    set s | s in streams
  }

  /** XCLAIM of these ids of a stream. */
  function Moved(pel: map<Entry, string>, stream: string, to: string, ids: seq<ID>): map<Entry, string> {
    map e | e in pel :: if e.stream == stream && e.id in ids then to else pel[e]
  }

  ghost function Page(pel: map<Entry, string>, stream: string, name: string, start: ID): seq<ID> {
    First(Held(pel, stream, name, start), PAGE)
  }

  lemma PageMember(pel: map<Entry, string>, stream: string, name: string, start: ID, x: ID)
    requires Page(pel, stream, name, start) != []
    ensures
      var ids := Page(pel, stream, name, start);
      && (x in ids <==> x in Held(pel, stream, name, start) && Le(x, ids[|ids| - 1]))
      && ids[|ids| - 1] in Held(pel, stream, name, start)
  {
    var held := Held(pel, stream, name, start);
    FirstMember(held, PAGE, x);
    FirstMember(held, PAGE, First(held, PAGE)[|First(held, PAGE)| - 1]);
  }

  /** Claiming one page moves the finished part up to just after its last id. */
  lemma PageClaims(pel: map<Entry, string>, from: string, to: string, done: set<string>, stream: string, start: ID, e: Entry)
    requires e in pel && Page(Claimed(pel, from, to, done, stream, start), stream, from, start) != []
    ensures
      var now := Claimed(pel, from, to, done, stream, start);
      var ids := Page(now, stream, from, start);
      Moved(now, stream, to, ids)[e] == Claimed(pel, from, to, done, stream, IncrementID(ids[|ids| - 1]))[e]
  {
    var now := Claimed(pel, from, to, done, stream, start);
    PageMember(now, stream, from, start, e.id);
  }

  lemma PageClaimed(pel: map<Entry, string>, from: string, to: string, done: set<string>, stream: string, start: ID)
    requires Page(Claimed(pel, from, to, done, stream, start), stream, from, start) != []
    ensures
      var now := Claimed(pel, from, to, done, stream, start);
      var ids := Page(now, stream, from, start);
      Moved(now, stream, to, ids) == Claimed(pel, from, to, done, stream, IncrementID(ids[|ids| - 1]))
  {
    forall e | e in pel { PageClaims(pel, from, to, done, stream, start, e); }
  }

  /** What is still held after a page was held before it, and is not in it. */
  lemma RestMember(pel: map<Entry, string>, from: string, to: string, stream: string, start: ID, x: ID)
    requires Page(pel, stream, from, start) != []
    requires
      var ids := Page(pel, stream, from, start);
      x in Held(Moved(pel, stream, to, ids), stream, from, IncrementID(ids[|ids| - 1]))
    ensures x in Held(pel, stream, from, start) && x !in Page(pel, stream, from, start)
  {
    PageMember(pel, stream, from, start, x);
  }

  /** A page leaves less to do, and a short page leaves nothing. */
  lemma PageShrinks(pel: map<Entry, string>, from: string, to: string, stream: string, start: ID)
    requires Page(pel, stream, from, start) != []
    ensures
      var ids := Page(pel, stream, from, start);
      var rest := Held(Moved(pel, stream, to, ids), stream, from, IncrementID(ids[|ids| - 1]));
      |rest| < |Held(pel, stream, from, start)| && (|ids| < PAGE ==> rest == {})
  {
    var held := Held(pel, stream, from, start);
    var ids := Page(pel, stream, from, start);
    var rest := Held(Moved(pel, stream, to, ids), stream, from, IncrementID(ids[|ids| - 1]));
    forall x | x in rest ensures x in held && x !in ids { RestMember(pel, from, to, stream, start, x); }
    PageMember(pel, stream, from, start, ids[|ids| - 1]);
    SetSmaller(rest, held - {ids[|ids| - 1]});
    FirstSorted(held, PAGE);
  }

  lemma NothingYet(pel: map<Entry, string>, from: string, to: string, done: set<string>, stream: string)
    ensures Claimed(pel, from, to, done, stream, ZERO) == HandedOver(pel, from, to, done)
  {
    forall e | e in pel ensures Done(e, done, stream, ZERO) <==> e.stream in done {}
  }

  lemma EmptyPage(pel: map<Entry, string>, from: string, stream: string, start: ID)
    requires Page(pel, stream, from, start) == []
    ensures Held(pel, stream, from, start) == {}
  {
    FirstSorted(Held(pel, stream, from, start), PAGE);
  }

  lemma PageStep(was: map<Entry, string>, pel: map<Entry, string>, from: string, to: string, done: set<string>,
                 stream: string, start: ID)
    requires pel == Claimed(was, from, to, done, stream, start) && Page(pel, stream, from, start) != []
    ensures
      var ids := Page(pel, stream, from, start);
      var next := IncrementID(ids[|ids| - 1]);
      var after := Moved(pel, stream, to, ids);
      && after == Claimed(was, from, to, done, stream, next)
      && |Held(after, stream, from, next)| < |Held(pel, stream, from, start)|
      && (|ids| < PAGE ==> Held(after, stream, from, next) == {})
  {
    hide Claimed, Held, Moved, Page;
    PageClaimed(was, from, to, done, stream, start);
    PageShrinks(pel, from, to, stream, start);
  }

  lemma {:induction false} SetSmaller<T>(a: set<T>, b: set<T>)
    requires a <= b
    ensures |a| <= |b|
  {
    if a == {} {
    } else {
      var x :| x in a;
      SetSmaller(a - {x}, b - {x});
    }
  }

  lemma StreamDone(pel: map<Entry, string>, from: string, to: string, done: set<string>, stream: string, start: ID)
    requires Held(Claimed(pel, from, to, done, stream, start), stream, from, start) == {}
    ensures Claimed(pel, from, to, done, stream, start) == HandedOver(pel, from, to, done + {stream})
  {
    var now := Claimed(pel, from, to, done, stream, start);
    forall e | e in pel && pel[e] == from && e.stream == stream ensures now[e] == to {
      assert e.id !in Held(now, stream, from, start);
    }
  }

  class EventsConsumer {
    var streams: seq<string>
    var pel: map<Entry, string>

    /** XPENDING with a start, a count and a consumer. */
    method XPendingExt(stream: string, start: ID, name: string, count: nat) returns (ids: seq<ID>)
      ensures ids == First(Held(pel, stream, name, start), count)
    {
      ids := FirstOf(Held(pel, stream, name, start), count);
    }

    /** XCLAIM JUSTID without a minimum idle time. */
    method XClaim(stream: string, to: string, ids: seq<ID>)
      modifies this`pel
      ensures pel == Moved(old(pel), stream, to, ids)
    {
      pel := Moved(pel, stream, to, ids);
    }

    /** The pages of one stream. */
    method ClaimStream(from: string, to: string, stream: string, ghost done: set<string>, ghost was: map<Entry, string>)
      requires pel == HandedOver(was, from, to, done)
      modifies this`pel
      ensures pel == HandedOver(was, from, to, done + {stream})
    {
      var start := ZERO;
      NothingYet(was, from, to, done, stream);
      while true
        invariant pel == Claimed(was, from, to, done, stream, start)
        decreases |Held(pel, stream, from, start)|
      {
        var ids := XPendingExt(stream, start, from, PAGE);
        assert ids == Page(pel, stream, from, start);
        var l := |ids|;
        if l == 0 {
          EmptyPage(pel, from, stream, start);
          break;
        }
        PageStep(was, pel, from, to, done, stream, start);
        start := IncrementID(ids[l - 1]);
        XClaim(stream, to, ids);
        if l < PAGE {
          break;
        }
      }
      StreamDone(was, from, to, done, stream, start);
    }

    method Claim(from: string, to: string)
      modifies this`pel
      ensures pel == HandedOver(old(pel), from, to, Names(streams))
    {
      for i := 0 to |streams|
        invariant pel == HandedOver(old(pel), from, to, Names(streams[..i]))
      {
        ClaimStream(from, to, streams[i], Names(streams[..i]), old(pel));
        assert streams[..i + 1] == streams[..i] + [streams[i]];
        assert Names(streams[..i + 1]) == Names(streams[..i]) + {streams[i]};
      }
      assert streams[..|streams|] == streams;
    }
  }
}
