/** The local cache: a hundred bounded shards, each forgetting its least recently used entry when it is full. */
module LocalCaches {
  import opened Wrappers

  const LOCAL_CACHE_POOLS := 100

  /** The entries of a shard, the most recently used first. */
  type Shard<V> = seq<(string, V)>

  function Find<V>(s: Shard<V>, k: string): Option<V> {
    if s == [] then None else if s[0].0 == k then Some(s[0].1) else Find(s[1..], k)
  }

  function Without<V>(s: Shard<V>, k: string): Shard<V> {
    if s == [] then [] else if s[0].0 == k then Without(s[1..], k) else [s[0]] + Without(s[1..], k)
  }

  predicate Distinct<V>(s: Shard<V>) {
    forall i, j :: 0 <= i < j < |s| ==> s[i].0 != s[j].0
  }

  /** Reading an entry makes it the most recently used. */
  function Used<V>(s: Shard<V>, k: string): Shard<V> {
    match Find(s, k)
    case Some(v) => [(k, v)] + Without(s, k)
    case None => s
  }

  /** Writing an entry as well; a shard over its limit then drops its last one. A limit of 0 is none. */
  function Added<V>(s: Shard<V>, k: string, v: V, limit: nat): Shard<V> {
    var t := [(k, v)] + Without(s, k);
    if limit != 0 && |t| > limit then t[..|t| - 1] else t
  }

  lemma {:induction false} FindAt<V>(s: Shard<V>, i: nat)
    requires Distinct(s) && i < |s|
    ensures Find(s, s[i].0) == Some(s[i].1)
  {
    if i > 0 {
      assert s[0].0 != s[i].0;
      FindAt(s[1..], i - 1);
    }
  }

  lemma {:induction false} FindNone<V>(s: Shard<V>, k: string)
    ensures Find(s, k).None? <==> forall i :: 0 <= i < |s| ==> s[i].0 != k
  {
    if s != [] {
      FindNone(s[1..], k);
      assert Find(s[1..], k).None? && s[0].0 != k ==> forall i :: 0 < i < |s| ==> s[i] == s[1..][i - 1];
      if Find(s[1..], k).Some? {
        var i :| 0 <= i < |s[1..]| && s[1..][i].0 == k;
        assert s[i + 1].0 == k;
      }
    }
  }

  lemma {:induction false} FindWithout<V>(s: Shard<V>, k: string, x: string)
    ensures Find(Without(s, k), x) == if x == k then None else Find(s, x)
  {
    if s != [] {
      FindWithout(s[1..], k, x);
    }
  }

  lemma {:induction false} WithoutFacts<V>(s: Shard<V>, k: string)
    requires Distinct(s)
    ensures Distinct(Without(s, k)) && |Without(s, k)| == if Find(s, k).Some? then |s| - 1 else |s|
    ensures forall e :: e in Without(s, k) ==> e in s && e.0 != k
    ensures Find(s, k).None? ==> Without(s, k) == s
  {
    if s != [] {
      WithoutFacts(s[1..], k);
      FindNone(s[1..], k);
      if s[0].0 == k {
        forall i | 0 <= i < |s[1..]| ensures s[1..][i].0 != k { assert s[0].0 != s[i + 1].0; }
      } else {
        forall e | e in Without(s[1..], k) ensures e.0 != s[0].0 {
          var i :| 0 <= i < |s[1..]| && s[1..][i] == e;
          assert s[0].0 != s[i + 1].0;
        }
      }
    }
  }

  lemma Front<V>(s: Shard<V>, k: string, v: V)
    requires Distinct(s)
    ensures
      var t := [(k, v)] + Without(s, k);
      Distinct(t) && forall x :: Find(t, x) == if x == k then Some(v) else Find(s, x)
  {
    hide Without;
    WithoutFacts(s, k);
    var rest := Without(s, k);
    var t := [(k, v)] + rest;
    assert t[1..] == rest;
    forall x ensures Find(t, x) == if x == k then Some(v) else Find(s, x) { FindWithout(s, k, x); }
    forall i, j | 0 <= i < j < |t| ensures t[i].0 != t[j].0 {
      if i == 0 {
        assert rest[j - 1] in rest;
      } else {
        assert rest[i - 1].0 != rest[j - 1].0;
      }
    }
  }

  lemma DropLast<V>(t: Shard<V>, x: string)
    requires Distinct(t) && t != []
    ensures
      var u := t[..|t| - 1];
      Distinct(u) && Find(u, x) == if x == t[|t| - 1].0 then None else Find(t, x)
  {
    var n := |t| - 1;
    var u := t[..n];
    FindNone(u, x);
    FindNone(t, x);
    if i :| 0 <= i < n && t[i].0 == x {
      FindAt(t, i);
      FindAt(u, i);
    }
  }

  /** Writing leaves the other entries alone, but for the least recently used one of a full shard. */
  lemma AddedExact<V>(s: Shard<V>, k: string, v: V, limit: nat, x: string)
    requires Distinct(s) && (limit != 0 ==> |s| <= limit)
    ensures
      var full := limit != 0 && Find(s, k).None? && |s| == limit;
      var u := Added(s, k, v, limit);
      && Distinct(u) && (limit != 0 ==> |u| <= limit) && (forall e :: e in u ==> e == (k, v) || e in s)
      && Find(u, x) == (if x == k then Some(v) else if full && x == s[|s| - 1].0 then None else Find(s, x))
  {
    Front(s, k, v);
    WithoutFacts(s, k);
    var t := [(k, v)] + Without(s, k);
    if limit != 0 && |t| > limit {
      assert Without(s, k) == s && t[|t| - 1] == s[|s| - 1];
      DropLast(t, x);
      FindNone(s, k);
    }
  }

  lemma UsedSame<V>(s: Shard<V>, k: string)
    requires Distinct(s)
    ensures Distinct(Used(s, k)) && |Used(s, k)| == |s| && (forall e :: e in Used(s, k) ==> e.0 == k || e in s)
    ensures forall x :: Find(Used(s, k), x) == Find(s, x)
  {
    WithoutFacts(s, k);
    if Find(s, k).Some? {
      Front(s, k, Find(s, k).value);
    }
  }

  // ---------------------------------------------------------------- which entry is forgotten

  /** When a key was last read or written, in the order of these; -1 when it never was. */
  function LastUse(uses: seq<string>, k: string): int {
    if uses == [] then -1
    else if uses[|uses| - 1] == k then |uses| - 1
    else LastUse(uses[..|uses| - 1], k)
  }

  /** Every entry was used after those behind it. */
  ghost predicate ByUse<V>(s: Shard<V>, uses: seq<string>) {
    forall i, j :: 0 <= i < j < |s| ==> LastUse(uses, s[j].0) < LastUse(uses, s[i].0)
  }

  lemma {:induction false} WithoutByUse<V>(s: Shard<V>, k: string, uses: seq<string>)
    requires Distinct(s) && ByUse(s, uses)
    ensures ByUse(Without(s, k), uses)
  {
    if s != [] {
      var rest := Without(s[1..], k);
      WithoutByUse(s[1..], k, uses);
      WithoutFacts(s[1..], k);
      if s[0].0 != k {
        forall i | 0 <= i < |rest| ensures LastUse(uses, rest[i].0) < LastUse(uses, s[0].0) {
          assert rest[i] in s[1..];
          var j :| 0 <= j < |s[1..]| && s[1..][j] == rest[i];
          assert s[j + 1] == rest[i];
        }
      }
    }
  }

  lemma LastUseNext(uses: seq<string>, k: string, x: string)
    ensures LastUse(uses + [k], x) == if x == k then |uses| else LastUse(uses, x)
    ensures LastUse(uses, x) < |uses|
  {
    assert (uses + [k])[..|uses|] == uses;
    LastUseBound(uses, x);
  }

  lemma {:induction false} LastUseBound(uses: seq<string>, k: string)
    ensures LastUse(uses, k) < |uses|
  {
    if uses != [] {
      LastUseBound(uses[..|uses| - 1], k);
    }
  }

  /** One more use of a key leaves the order of the others alone. */
  lemma UseOther<V>(s: Shard<V>, k: string, uses: seq<string>)
    requires ByUse(s, uses) && forall e :: e in s ==> e.0 != k
    ensures ByUse(s, uses + [k])
  {
    hide LastUse;
    forall i, j | 0 <= i < j < |s| ensures LastUse(uses + [k], s[j].0) < LastUse(uses + [k], s[i].0) {
      assert s[i] in s && s[j] in s;
      LastUseNext(uses, k, s[i].0);
      LastUseNext(uses, k, s[j].0);
    }
  }

  lemma FrontByUse<V>(s: Shard<V>, k: string, v: V, uses: seq<string>)
    requires Distinct(s) && ByUse(s, uses)
    ensures ByUse([(k, v)] + Without(s, k), uses + [k])
  {
    hide LastUse;
    var rest := Without(s, k);
    WithoutFacts(s, k);
    WithoutByUse(s, k, uses);
    UseOther(rest, k, uses);
    var t := [(k, v)] + rest;
    forall i, j | 0 <= i < j < |t| ensures LastUse(uses + [k], t[j].0) < LastUse(uses + [k], t[i].0) {
      assert t[j] == rest[j - 1] && rest[j - 1] in rest;
      LastUseNext(uses, k, t[j].0);
      LastUseNext(uses, k, k);
      if i > 0 {
        assert t[i] == rest[i - 1];
      }
    }
  }

  lemma UsedByUse<V>(s: Shard<V>, k: string, uses: seq<string>)
    requires Distinct(s) && ByUse(s, uses)
    ensures ByUse(Used(s, k), uses + [k])
  {
    hide ByUse;
    FindNone(s, k);
    if Find(s, k).Some? {
      FrontByUse(s, k, Find(s, k).value, uses);
    } else {
      UseOther(s, k, uses);
    }
  }

  lemma AddedByUse<V>(s: Shard<V>, k: string, v: V, limit: nat, uses: seq<string>)
    requires Distinct(s) && ByUse(s, uses)
    ensures ByUse(Added(s, k, v, limit), uses + [k])
  {
    FrontByUse(s, k, v, uses);
  }

  /** The last entry of a shard is the one that has not been used for the longest time. */
  lemma LastLeastUsed<V>(s: Shard<V>, uses: seq<string>, x: string)
    requires ByUse(s, uses) && s != [] && Find(s, x).Some? && x != s[|s| - 1].0
    ensures LastUse(uses, s[|s| - 1].0) < LastUse(uses, x)
  {
    FindNone(s, x);
  }

  /** The last value written for a key. */
  function Written<V>(pairs: seq<(string, V)>, k: string): Option<V> {
    if pairs == [] then None
    else if pairs[|pairs| - 1].0 == k then Some(pairs[|pairs| - 1].1)
    else Written(pairs[..|pairs| - 1], k)
  }

  class LocalCache<V> {
    const limit: nat
    /** Any hash: it only says which shard a key lives in. */
    const hash: string -> nat
    var shards: seq<Shard<V>>
    /** The keys that have been read or written, in order. */
    ghost var uses: seq<string>

    constructor (limit: nat, hash: string -> nat)
      ensures Valid() && this.limit == limit && this.hash == hash && forall k :: Lookup(k) == None
    {
      this.limit, this.hash := limit, hash;
      shards := seq(LOCAL_CACHE_POOLS, _ => []);
      uses := [];
    }

    ghost predicate Valid()
      reads this
    {
      |shards| == LOCAL_CACHE_POOLS
      && forall i :: 0 <= i < |shards| ==>
           && Distinct(shards[i]) && (limit != 0 ==> |shards[i]| <= limit) && ByUse(shards[i], uses)
           && forall e :: e in shards[i] ==> Place(e.0) == i
    }

    function Place(k: string): nat {
      hash(k) % LOCAL_CACHE_POOLS
    }

    /** What the cache holds for a key. */
    function Lookup(k: string): Option<V>
      requires Valid()
      reads this
    {
      Find(shards[Place(k)], k)
    }

    method Get(key: string) returns (value: Option<V>)
      requires Valid()
      modifies this
      ensures Valid() && value == Lookup(key) && forall k :: Lookup(k) == old(Lookup(k))
      ensures uses == old(uses) + [key]
    {
      hide ByUse, LastUse, Distinct;
      var i := Place(key);
      value := Find(shards[i], key);
      FindNone(shards[i], key);
      UsedSame(shards[i], key);
      UsedByUse(shards[i], key, uses);
      OthersByUse(i, key);
      shards := shards[i := Used(shards[i], key)];
      uses := uses + [key];
    }

    /** A use of a key changes nothing about the other shards. */
    lemma OthersByUse(i: nat, key: string)
      requires Valid() && i == Place(key)
      ensures forall j :: 0 <= j < |shards| && j != i ==> ByUse(shards[j], uses + [key])
    {
      hide ByUse, LastUse, Distinct;
      forall j | 0 <= j < |shards| && j != i ensures ByUse(shards[j], uses + [key]) {
        UseOther(shards[j], key, uses);
      }
    }

    method MGet(keys: seq<string>) returns (results: seq<Option<V>>)
      requires Valid()
      modifies this
      ensures Valid() && (forall k :: Lookup(k) == old(Lookup(k)))
      ensures |results| == |keys| && forall i :: 0 <= i < |keys| ==> results[i] == Lookup(keys[i])
      ensures uses == old(uses) + keys
    {
      hide ByUse, LastUse, Distinct, Valid, Find;
      results := [];
      for i := 0 to |keys|
        invariant Valid() && (forall k :: Lookup(k) == old(Lookup(k)))
        invariant |results| == i && forall j :: 0 <= j < i ==> results[j] == old(Lookup(keys[j]))
        invariant uses == old(uses) + keys[..i]
      {
        var value := Get(keys[i]);
        results := results + [value];
      }
    }

    /**
     * The written entry is there afterwards. At most one other is not any more, when the shard was full: the one that had not
     * been used for the longest time.
     */
    method Set(key: string, value: V)
      requires Valid()
      modifies this
      ensures Valid() && Lookup(key) == Some(value) && uses == old(uses) + [key]
      ensures
        var s := old(shards[Place(key)]);
        var full := limit != 0 && Find(s, key).None? && |s| == limit;
        forall k :: k != key ==> Lookup(k) == if full && k == s[|s| - 1].0 then None else old(Lookup(k))
      ensures forall k, x :: k != key && old(Lookup(k)).Some? && Lookup(k).None? && x != k && Place(x) == Place(k) && old(Lookup(x)).Some? ==>
        LastUse(old(uses), k) < LastUse(old(uses), x)
    {
      hide ByUse, LastUse, Distinct, Added;
      var i := Place(key);
      ghost var was := shards[i];
      forall k ensures
        var full := limit != 0 && Find(was, key).None? && |was| == limit;
        var u := Added(was, key, value, limit);
        && Distinct(u) && (limit != 0 ==> |u| <= limit)
        && Find(u, k) == (if k == key then Some(value) else if full && k == was[|was| - 1].0 then None else Find(was, k))
      {
        AddedExact(was, key, value, limit, k);
      }
      AddedExact(was, key, value, limit, key);
      AddedByUse(was, key, value, limit, uses);
      OthersByUse(i, key);
      forall x | was != [] && Find(was, x).Some? && x != was[|was| - 1].0
        ensures LastUse(uses, was[|was| - 1].0) < LastUse(uses, x)
      {
        LastLeastUsed(was, uses, x);
      }
      if was != [] {
        assert was[|was| - 1] in was;
      }
      shards := shards[i := Added(shards[i], key, value, limit)];
      uses := uses + [key];
    }

    /** Writing many: what is there afterwards is what was written last, or what was there before. */
    method MSet(pairs: seq<(string, V)>)
      requires Valid()
      modifies this
      ensures Valid()
      ensures forall k :: Lookup(k).Some? ==> Lookup(k) == if Written(pairs, k).Some? then Written(pairs, k) else old(Lookup(k))
      ensures pairs != [] ==> Lookup(pairs[|pairs| - 1].0) == Some(pairs[|pairs| - 1].1)
    {
      for i := 0 to |pairs|
        invariant Valid()
        invariant forall k :: Lookup(k).Some? ==>
          Lookup(k) == if Written(pairs[..i], k).Some? then Written(pairs[..i], k) else old(Lookup(k))
        invariant i > 0 ==> Lookup(pairs[i - 1].0) == Some(pairs[i - 1].1)
      {
        assert pairs[..i + 1][..i] == pairs[..i];
        Set(pairs[i].0, pairs[i].1);
      }
      assert pairs[..|pairs|] == pairs;
    }

    method Remove(keys: seq<string>)
      requires Valid()
      modifies this
      ensures Valid() && forall k :: Lookup(k) == if k in keys then None else old(Lookup(k))
    {
      for j := 0 to |keys|
        invariant Valid() && forall k :: Lookup(k) == if k in keys[..j] then None else old(Lookup(k))
      {
        var i := Place(keys[j]);
        assert keys[..j + 1] == keys[..j] + [keys[j]];
        WithoutFacts(shards[i], keys[j]);
        WithoutByUse(shards[i], keys[j], uses);
        forall k ensures Find(Without(shards[i], keys[j]), k) == if k == keys[j] then None else Find(shards[i], k) {
          FindWithout(shards[i], keys[j], k);
        }
        shards := shards[i := Without(shards[i], keys[j])];
      }
      assert keys[..|keys|] == keys;
    }

    method Clear()
      requires Valid()
      modifies this
      ensures Valid() && forall k :: Lookup(k) == None
    {
      shards := seq(LOCAL_CACHE_POOLS, _ => []);
    }
  }
}
