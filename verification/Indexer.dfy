/** Filling a search index from a table, page by page, with a checkpoint in Redis to resume from. */
module Indexer {
  import opened Wrappers

  const ENTITY_INDEXER_PAGE := 5000

  /** The ids of a table, in order. */
  ghost predicate Table(ids: seq<nat>) {
    forall i, j :: 0 <= i < j < |ids| ==> ids[i] < ids[j]
  }

  /** The rows with an id above this one. */
  function Above(ids: seq<nat>, id: nat): seq<nat> {
    if ids == [] then [] else if ids[0] > id then ids else Above(ids[1..], id)
  }

  function Page(ids: seq<nat>, id: nat): seq<nat> {
    var rows := Above(ids, id);
    if |rows| > ENTITY_INDEXER_PAGE then rows[..ENTITY_INDEXER_PAGE] else rows
  }

  function Last(page: seq<nat>, id: nat): nat {
    if page == [] then id else page[|page| - 1]
  }

  lemma {:induction false} AboveExact(ids: seq<nat>, id: nat)
    requires Table(ids)
    ensures Table(Above(ids, id)) && forall x :: x in Above(ids, id) <==> x in ids && x > id
  {
    if ids != [] && ids[0] <= id {
      AboveExact(ids[1..], id);
      assert ids == [ids[0]] + ids[1..];
    } else if ids != [] {
      forall x | x in ids ensures x > id {
        var i :| 0 <= i < |ids| && ids[i] == x;
        assert i > 0 ==> ids[0] < ids[i];
      }
    }
  }

  /** The rows above the last one of a page are the rest. */
  lemma {:induction false} AboveRest(ids: seq<nat>, id: nat, k: nat)
    requires Table(ids) && k < |Above(ids, id)|
    ensures Above(ids, Above(ids, id)[k]) == Above(ids, id)[k + 1..]
  {
    if ids[0] <= id {
      AboveRest(ids[1..], id, k);
      AboveExact(ids[1..], id);
      assert Above(ids[1..], id)[k] in Above(ids[1..], id);
    } else {
      DropTo(ids, k);
    }
  }

  lemma {:induction false} DropTo(ids: seq<nat>, k: nat)
    requires Table(ids) && k < |ids|
    ensures Above(ids, ids[k]) == ids[k + 1..]
  {
    if k == 0 {
      if |ids| > 1 {
        assert ids[1..][0] > ids[0];
      }
    } else {
      DropTo(ids[1..], k - 1);
      assert ids[0] < ids[k];
    }
  }

  /** A page is followed by the rows above its last one; a full page gets further, and a shorter one is the last. */
  lemma PageRest(ids: seq<nat>, id: nat)
    requires Table(ids)
    ensures
      var page := Page(ids, id);
      && |page| <= ENTITY_INDEXER_PAGE && Above(ids, id) == page + Above(ids, Last(page, id))
      && (|page| > 0 ==> Last(page, id) > id)
      && (|page| < ENTITY_INDEXER_PAGE ==> Above(ids, Last(page, id)) == [])
  {
    hide Table, Above;
    var rows, page := Above(ids, id), Page(ids, id);
    if page != [] {
      AboveRest(ids, id, |page| - 1);
      AboveExact(ids, id);
      assert page[|page| - 1] in rows;
    }
    assert rows == rows[..|page|] + rows[|page|..];
  }

  /** What a page covers: every row above id up to its last one. */
  lemma PageCovers(ids: seq<nat>, id: nat, x: nat)
    requires Table(ids) && x in ids && x > id
    ensures x <= Last(Page(ids, id), id) || |Page(ids, id)| < ENTITY_INDEXER_PAGE ==> x in Page(ids, id)
  {
    hide Table, Above, Page, Last;
    var last := Last(Page(ids, id), id);
    PageRest(ids, id);
    AboveExact(ids, id);
    AboveExact(ids, last);
    assert x in Page(ids, id) + Above(ids, last);
  }

  // ---------------------------------------------------------------- one page

  /** One page: its documents, the id to go on from, and whether there may be more. */
  method IndexPage(ids: seq<nat>, lastID': nat) returns (lastID: nat, hasMore: bool, documents: seq<nat>)
    ensures documents == Page(ids, lastID') && lastID == Last(documents, lastID')
    ensures hasMore == (|documents| == ENTITY_INDEXER_PAGE)
  {
    var results := Page(ids, lastID');
    var total := 0;
    lastID, documents := lastID', [];
    for i := 0 to |results|
      invariant documents == results[..i] && lastID == Last(documents, lastID') && total == i
    {
      lastID := results[i];
      documents := documents + [lastID];
      total := total + 1;
    }
    hasMore := total == ENTITY_INDEXER_PAGE;
  }

  // ---------------------------------------------------------------- with crashes

  /**
   * Where the consumer is: about to read the page after id, or about to save the checkpoint of the page after id, or
   * to remove it.
   */
  datatype Work = Idle | Reading(id: nat) | Saving(id: nat, next: nat) | Ending | Looping

  datatype State = State(work: Work, checkpoint: Option<nat>, pushed: set<nat>, done: bool)

  /** A crash may happen anywhere, also when only some documents of a page have been pushed. */
  datatype Action = Start | Push | Save | End | Crash | CrashPushing(n: nat)

  predicate Enabled(s: State, ids: seq<nat>, a: Action) {
    match a
    case Start => s.work.Idle?
    case Push => s.work.Reading?
    case Save => s.work.Saving?
    case End => s.work.Ending?
    case Crash => true
    case CrashPushing(n) => s.work.Reading? && n <= |Page(ids, s.work.id)|
  }

  /** It can stop at any point. */
  lemma CrashAnywhere(s: State, ids: seq<nat>)
    ensures Enabled(s, ids, Crash)
    ensures s.work.Reading? ==> forall n: nat :: n <= |Page(ids, s.work.id)| ==> Enabled(s, ids, CrashPushing(n))
  {
  }

  /** Once the checkpoint of a page is saved, a stop costs nothing: the work goes on after that page. */
  lemma Resumes(s: State, ids: seq<nat>)
    requires s.work.Saving? && s.work.id < s.work.next
    ensures
      var t := Next(s, ids, Save);
      && t.checkpoint == Some(s.work.next) && t.work == Reading(s.work.next) && t.pushed == s.pushed
      && Next(Next(t, ids, Crash), ids, Start) == t
  {
  }

  /** A stop while a page is read or pushed goes back to the last checkpoint; what was pushed stays. */
  lemma GoesBack(s: State, ids: seq<nat>, n: nat)
    requires s.work.Reading? && n <= |Page(ids, s.work.id)|
    ensures
      var t, u := Next(Next(s, ids, Crash), ids, Start), Next(Next(s, ids, CrashPushing(n)), ids, Start);
      && t.work == u.work == Reading(if s.checkpoint.Some? then s.checkpoint.value else 0)
      && t.checkpoint == u.checkpoint == s.checkpoint && t.pushed == s.pushed <= u.pushed
      && forall i :: 0 <= i < n ==> Page(ids, s.work.id)[i] in u.pushed
  {
    forall i | 0 <= i < n ensures Page(ids, s.work.id)[i] in Elements(Page(ids, s.work.id)[..n]) {
      assert Page(ids, s.work.id)[..n][i] == Page(ids, s.work.id)[i];
    }
  }

  function Elements(s: seq<nat>): (r: set<nat>)
    ensures forall x :: x in r <==> x in s
  {
    set x <- s
  }

  function Next(s: State, ids: seq<nat>, a: Action): State
    requires Enabled(s, ids, a)
  {
    match a
    case Start => s.(work := Reading(if s.checkpoint.Some? then s.checkpoint.value else 0))
    case Push =>
      var page := Page(ids, s.work.id);
      s.(pushed := s.pushed + Elements(page),
         work := if |page| == ENTITY_INDEXER_PAGE then Saving(s.work.id, Last(page, s.work.id)) else Ending)
    case Save => s.(checkpoint := Some(s.work.next), work := if s.work.next <= s.work.id then Looping else Reading(s.work.next))
    case End => s.(checkpoint := None, work := Idle, done := true)
    case Crash => s.(work := Idle)
    case CrashPushing(n) => s.(pushed := s.pushed + Elements(Page(ids, s.work.id)[..n]), work := Idle)
  }

  ghost predicate Run(ids: seq<nat>, ss: seq<State>, acts: seq<Action>) {
    && |ss| == |acts| + 1 && ss[0].work.Idle? && ss[0].pushed == {} && !ss[0].done
    && forall i :: 0 <= i < |acts| ==> Enabled(ss[i], ids, acts[i]) && ss[i + 1] == Next(ss[i], ids, acts[i])
  }

  /** Every row above start and up to id has been pushed. */
  ghost predicate Covered(ids: seq<nat>, start: nat, id: nat, pushed: set<nat>) {
    forall x :: x in ids && start < x <= id ==> x in pushed
  }

  ghost predicate Inv(ids: seq<nat>, start: nat, s: State) {
    && (s.checkpoint.Some? ==> Covered(ids, start, s.checkpoint.value, s.pushed))
    && (s.work.Reading? ==> Covered(ids, start, s.work.id, s.pushed))
    && (s.work.Saving? ==> s.work.id < s.work.next && Covered(ids, start, s.work.next, s.pushed))
    && (s.work.Ending? || s.done ==> forall x :: x in ids && x > start ==> x in s.pushed)
    && !s.work.Looping?
  }

  lemma PushKeeps(ids: seq<nat>, start: nat, s: State)
    requires Table(ids) && Inv(ids, start, s) && s.work.Reading?
    ensures Inv(ids, start, Next(s, ids, Push))
  {
    hide Table, Page, Last;
    PageRest(ids, s.work.id);
    var page := Page(ids, s.work.id);
    forall x | x in ids && x > s.work.id
      ensures x <= Last(page, s.work.id) || |page| < ENTITY_INDEXER_PAGE ==> x in page
    {
      PageCovers(ids, s.work.id, x);
    }
  }

  lemma StepKeeps(ids: seq<nat>, start: nat, s: State, a: Action)
    requires Table(ids) && Inv(ids, start, s) && Enabled(s, ids, a)
    ensures Inv(ids, start, Next(s, ids, a))
  {
    if a == Push {
      PushKeeps(ids, start, s);
    }
  }

  /**
   * In every run with crashes and restarts the loop detection stays silent, and once the index is done every row above
   * the first checkpoint has been pushed.
   */
  lemma {:induction false} NoRowSkipped(ids: seq<nat>, ss: seq<State>, acts: seq<Action>, i: nat)
    requires Table(ids) && Run(ids, ss, acts) && i < |ss|
    ensures
      var start := if ss[0].checkpoint.Some? then ss[0].checkpoint.value else 0;
      && Inv(ids, start, ss[i]) && !ss[i].work.Looping?
      && (ss[i].done ==> forall x :: x in ids && x > start ==> x in ss[i].pushed)
  {
    var start := if ss[0].checkpoint.Some? then ss[0].checkpoint.value else 0;
    if i > 0 {
      NoRowSkipped(ids, ss, acts, i - 1);
      StepKeeps(ids, start, ss[i - 1], acts[i - 1]);
    }
  }

  // ---------------------------------------------------------------- without crashes

  /** Steps that lead from s to t, none of them a crash. */
  ghost predicate Leads(ids: seq<nat>, s: State, t: State, acts: seq<Action>)
    decreases |acts|
  {
    if acts == [] then s == t
    else
      var a := acts[|acts| - 1];
      a in {Start, Push, Save, End} && exists m :: Leads(ids, s, m, acts[..|acts| - 1]) && Enabled(m, ids, a) && t == Next(m, ids, a)
  }

  lemma LeadsOn(ids: seq<nat>, s: State, t: State, acts: seq<Action>, a: Action)
    requires Leads(ids, s, t, acts) && a in {Start, Push, Save, End} && Enabled(t, ids, a)
    ensures Leads(ids, s, Next(t, ids, a), acts + [a])
  {
    assert (acts + [a])[..|acts|] == acts;
  }

  class Index {
    var checkpoint: Option<nat>
    var pushed: seq<nat>

    constructor ()
      ensures checkpoint.None? && pushed == []
    {
      checkpoint, pushed := None, [];
    }

    ghost function At(work: Work, done: bool): State
      reads this
    {
      State(work, checkpoint, Elements(pushed), done)
    }

    /**
     * Pushes every row above the checkpoint once, in order; loop tells whether the loop detection went off. What it does is a
     * run of the steps below, to their end: the checkpoint of every full page is saved before the next one is read.
     */
    method HandleEvent(ids: seq<nat>) returns (loop: bool, ghost acts: seq<Action>)
      requires Table(ids)
      modifies this
      ensures !loop && checkpoint.None?
      ensures pushed == old(pushed) + Above(ids, if old(checkpoint).Some? then old(checkpoint.value) else 0)
      ensures Leads(ids, old(At(Idle, false)), At(Idle, true), acts)
    {
      hide Table, Above, Page, Last, Leads, Elements;
      ghost var first := At(Idle, false);
      Nothing(ids, first);
      LeadsOn(ids, first, first, [], Start);
      acts := [] + [Start];
      var id := 0;
      if checkpoint.Some? {
        id := checkpoint.value;
      }
      ghost var start := id;
      while true
        invariant pushed + Above(ids, id) == old(pushed) + Above(ids, start)
        invariant Leads(ids, first, At(Reading(id), false), acts)
        decreases |Above(ids, id)|
      {
        var nextID, hasMore, documents := IndexPage(ids, id);
        PageRest(ids, id);
        Regroup(pushed, documents, Above(ids, nextID));
        LeadsOn(ids, first, At(Reading(id), false), acts, Push);
        acts := acts + [Push];
        ElementsPlus(pushed, documents);
        assert documents == [] ==> pushed + documents == pushed;
        if |documents| > 0 {
          pushed := pushed + documents;
        }
        if hasMore {
          LeadsOn(ids, first, At(Saving(id, nextID), false), acts, Save);
          acts := acts + [Save];
          checkpoint := Some(nextID);
        }
        if !hasMore {
          LeadsOn(ids, first, At(Ending, false), acts, End);
          acts := acts + [End];
          checkpoint := None;
          assert pushed == pushed + Above(ids, nextID);
          break;
        }
        if nextID <= id {
          return true, acts;
        }
        id := nextID;
      }
      return false, acts;
    }
  }

  lemma Nothing(ids: seq<nat>, s: State)
    ensures Leads(ids, s, s, [])
  {
  }

  lemma ElementsPlus(a: seq<nat>, b: seq<nat>)
    ensures Elements(a + b) == Elements(a) + Elements(b)
  {
  }
}
