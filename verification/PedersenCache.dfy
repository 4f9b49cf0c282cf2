/** The process-wide cache of Pedersen setup keys.  A setup looks the cache up in one
    critical section and, on a miss, inserts in another; between the two, other setups
    may run.  Generators come from a deterministic generator indexed by position. */
module PedersenCache {
  import opened PrimeGroup
  import opened Pedersen
  import opened Wrappers
  import opened PowersOfTwo

  /** Position i of the generator stream of an engine and a label. */
  type Generators = (int, seq<int>, nat) -> Pt

  datatype CacheKey = CacheKey(engine: int, name: seq<int>, size: nat)

  /** The key a fresh generation of the given size gives: position 0 is h. */
  function FreshKey(gens: Generators, k: CacheKey): (key: Key)
    ensures |key.ck| == k.size
  {
    Key(seq(k.size, i requires 0 <= i < k.size => gens(k.engine, k.name, i + 1)), gens(k.engine, k.name, 0))
  }

  type Entries = map<CacheKey, Key>

  predicate Serves(k: CacheKey, engine: int, name: seq<int>, requested: nat) {
    k.engine == engine && k.name == name && k.size >= requested
  }

  /** Every entry is what a fresh generation of its size gives. */
  ghost predicate Genuine(gens: Generators, e: Entries) {
    forall k :: k in e ==> e[k] == FreshKey(gens, k)
  }

  /** At most one entry per engine and label. */
  ghost predicate Single(e: Entries) {
    forall k, l :: k in e && l in e && k.engine == l.engine && k.name == l.name ==> k == l
  }

  /** The smallest entry that serves a request. */
  ghost predicate Smallest(e: Entries, k: CacheKey, engine: int, name: seq<int>, requested: nat) {
    k in e && Serves(k, engine, name, requested)
      && forall l :: l in e && Serves(l, engine, name, requested) ==> k.size <= l.size
  }

  function Shortened(key: Key, n: nat): Key
    requires n <= |key.ck|
  {
    if |key.ck| == n then key else Key(key.ck[..n], key.h)
  }

  /** A prefix of a longer genuine key is the genuine shorter key. */
  lemma ShortenedIsFresh(gens: Generators, k: CacheKey, n: nat)
    requires n <= k.size
    ensures Shortened(FreshKey(gens, k), n) == FreshKey(gens, k.(size := n))
  {
  }

  /** What the insertion leaves: nothing changes when a large enough entry is there;
      otherwise all smaller entries of the label go and the new one comes. */
  ghost function Inserted(e: Entries, k: CacheKey, key: Key): Entries {
    if exists l :: l in e && Serves(l, k.engine, k.name, k.size) then e
    else (map l | l in e && (l.engine != k.engine || l.name != k.name || l.size > k.size) :: e[l])[k := key]
  }

  class SetupCache {
    var entries: Entries

    constructor ()
      ensures entries == map[]
    {
      entries := map[];
    }

    /** The first critical section. */
    method Lookup(engine: int, name: seq<int>, requested: nat) returns (r: Option<(nat, Key)>)
      ensures r.None? <==> !exists k :: k in entries && Serves(k, engine, name, requested)
      ensures r.Some? ==> var k := CacheKey(engine, name, r.value.0);
        Smallest(entries, k, engine, name, requested) && r.value.1 == entries[k]
    {
      var todo := entries.Keys;
      r := None;
      while todo != {}
        invariant todo <= entries.Keys
        invariant r.None? ==> forall k :: k in entries && k !in todo ==> !Serves(k, engine, name, requested)
        invariant r.Some? ==> var k := CacheKey(engine, name, r.value.0);
          k in entries && Serves(k, engine, name, requested) && r.value.1 == entries[k]
          && forall l :: l in entries && l !in todo && Serves(l, engine, name, requested) ==> k.size <= l.size
        decreases |todo|
      {
        var k :| k in todo;
        todo := todo - {k};
        if Serves(k, engine, name, requested) && (r.None? || k.size < r.value.0) {
          assert k == CacheKey(engine, name, k.size);
          r := Some((k.size, entries[k]));
        }
      }
    }

    /** The second critical section. */
    method Insert(engine: int, name: seq<int>, requested: nat, key: Key)
      modifies this
      ensures entries == Inserted(old(entries), CacheKey(engine, name, requested), key)
    {
      var hasLarger := AnyServes(engine, name, requested);
      if !hasLarger {
        var kept := map l | l in entries && (l.engine != engine || l.name != name || l.size > requested) :: entries[l];
        entries := kept[CacheKey(engine, name, requested) := key];
      }
    }

    method AnyServes(engine: int, name: seq<int>, requested: nat) returns (found: bool)
      ensures found <==> exists k :: k in entries && Serves(k, engine, name, requested)
    {
      var todo := entries.Keys;
      found := false;
      while todo != {} && !found
        invariant todo <= entries.Keys
        invariant found ==> exists k :: k in entries && Serves(k, engine, name, requested)
        invariant !found ==> forall k :: k in entries && k !in todo ==> !Serves(k, engine, name, requested)
        decreases |todo|
      {
        var k :| k in todo;
        todo := todo - {k};
        if Serves(k, engine, name, requested) { found := true; }
      }
    }

    /** One setup run without interference. */
    method Setup(gens: Generators, engine: int, name: seq<int>, n: nat) returns (key: Key)
      requires Genuine(gens, entries) && Single(entries)
      modifies this
      ensures key == FreshKey(gens, CacheKey(engine, name, NextPowerOfTwo(n)))
      ensures Genuine(gens, entries) && Single(entries)
    {
      var requested := NextPowerOfTwo(n);
      var cached := Lookup(engine, name, requested);
      if cached.Some? {
        ShortenedIsFresh(gens, CacheKey(engine, name, cached.value.0), requested);
        return Shortened(cached.value.1, requested);
      }
      key := FreshKey(gens, CacheKey(engine, name, requested));
      InsertKeeps(gens, entries, CacheKey(engine, name, requested));
      Insert(engine, name, requested, key);
    }
  }

  /** Inserting a genuine key keeps the cache genuine, with one entry per label. */
  lemma InsertKeeps(gens: Generators, e: Entries, k: CacheKey)
    requires Genuine(gens, e) && Single(e)
    ensures Genuine(gens, Inserted(e, k, FreshKey(gens, k))) && Single(Inserted(e, k, FreshKey(gens, k)))
  {
    hide FreshKey;
    var f := Inserted(e, k, FreshKey(gens, k));
    if !exists l :: l in e && Serves(l, k.engine, k.name, k.size) {
      forall l | l in f && l != k ensures l in e && (l.engine != k.engine || l.name != k.name) {
        assert !Serves(l, k.engine, k.name, k.size);
      }
    }
  }

  /** What an insertion does to sizes: an entry's label keeps an entry at least as large. */
  lemma InsertGrows(e: Entries, k: CacheKey, key: Key, l: CacheKey)
    requires l in e
    ensures exists g :: g in Inserted(e, k, key) && g.engine == l.engine && g.name == l.name && g.size >= l.size
  {
    var f := Inserted(e, k, key);
    if exists m :: m in e && Serves(m, k.engine, k.name, k.size) {
      assert l in f;
    } else if l.engine != k.engine || l.name != k.name || l.size > k.size {
      assert l in f;
    } else {
      assert k in f;
    }
  }

  // ------------------------------------------------------------ concurrent setups

  /** Where a thread is: between calls, or between its two critical sections. */
  datatype Phase = Idle | Missed(engine: int, name: seq<int>, requested: nat)

  /** A call that has returned: what was asked and what was given. */
  datatype Returned = Returned(engine: int, name: seq<int>, n: nat, key: Key)

  datatype System = System(entries: Entries, phase: map<nat, Phase>, asked: map<nat, nat>, returned: seq<Returned>)

  /** A thread enters its first critical section for a request, or its second. */
  datatype Action = Begin(thread: nat, engine: int, name: seq<int>, n: nat) | Finish(thread: nat)

  const START := System(map[], map[], map[], [])

  ghost predicate Pending(s: System, t: nat) {
    t in s.phase && s.phase[t].Missed? && t in s.asked
  }

  /** One step: the effect of a critical section and of the thread-local work after it. */
  ghost predicate Step(gens: Generators, s: System, a: Action, u: System) {
    match a
    case Begin(t, engine, name, n) =>
      var requested := NextPowerOfTwo(n);
      !Pending(s, t) && u.entries == s.entries
      && (if exists k :: Smallest(s.entries, k, engine, name, requested)
          then exists k :: Smallest(s.entries, k, engine, name, requested) && requested <= |s.entries[k].ck|
                 && u == s.(returned := s.returned + [Returned(engine, name, n, Shortened(s.entries[k], requested))])
          else u == s.(phase := s.phase[t := Missed(engine, name, requested)], asked := s.asked[t := n]))
    case Finish(t) =>
      && Pending(s, t)
      && var k := CacheKey(s.phase[t].engine, s.phase[t].name, s.phase[t].requested);
      u == System(Inserted(s.entries, k, FreshKey(gens, k)), s.phase[t := Idle], s.asked,
                  s.returned + [Returned(k.engine, k.name, s.asked[t], FreshKey(gens, k))])
  }

  /** What every reachable state keeps. */
  ghost predicate Inv(gens: Generators, s: System) {
    && Genuine(gens, s.entries) && Single(s.entries)
    && (forall t :: Pending(s, t) ==> s.phase[t].requested == NextPowerOfTwo(s.asked[t]))
    && forall i :: 0 <= i < |s.returned| ==>
         s.returned[i].key == FreshKey(gens, CacheKey(s.returned[i].engine, s.returned[i].name, NextPowerOfTwo(s.returned[i].n)))
  }

  /** A run: states s[0], s[1], ... with an action between any two. */
  ghost predicate Run(gens: Generators, s: seq<System>, acts: seq<Action>) {
    && |s| == |acts| + 1 && s[0] == START
    && forall i :: 0 <= i < |acts| ==> Step(gens, s[i], acts[i], s[i + 1])
  }

  lemma StepKeepsInv(gens: Generators, s: System, a: Action, u: System)
    requires Inv(gens, s) && Step(gens, s, a, u)
    ensures Inv(gens, u)
  {
    hide FreshKey, Shortened, Inserted, NextPowerOfTwo;
    match a {
      case Begin(t, engine, name, n) =>
        var requested := NextPowerOfTwo(n);
        if exists k :: Smallest(s.entries, k, engine, name, requested) {
          var k :| Smallest(s.entries, k, engine, name, requested) && requested <= |s.entries[k].ck|
            && u == s.(returned := s.returned + [Returned(engine, name, n, Shortened(s.entries[k], requested))]);
          HitIsFresh(gens, s.entries, k, engine, name, requested);
        }
      case Finish(t) =>
        InsertKeeps(gens, s.entries, CacheKey(s.phase[t].engine, s.phase[t].name, s.phase[t].requested));
    }
  }

  lemma HitIsFresh(gens: Generators, e: Entries, k: CacheKey, engine: int, name: seq<int>, requested: nat)
    requires Genuine(gens, e) && Smallest(e, k, engine, name, requested) && requested <= |e[k].ck|
    ensures Shortened(e[k], requested) == FreshKey(gens, CacheKey(engine, name, requested))
  {
    hide FreshKey;
    ShortenedIsFresh(gens, k, requested);
  }

  /** Over every interleaving, every call returns the key a fresh generation of the
      requested size gives, and a label never has two entries. */
  lemma {:induction false} RunCorrect(gens: Generators, s: seq<System>, acts: seq<Action>)
    requires Run(gens, s, acts)
    ensures Inv(gens, s[|acts|])
    decreases |acts|
  {
    hide Step, FreshKey;
    if |acts| > 0 {
      var n := |acts| - 1;
      assert s[..|s| - 1][0] == s[0];
      RunCorrect(gens, s[..|s| - 1], acts[..n]);
      assert Step(gens, s[n], acts[n], s[n + 1]);
      StepKeepsInv(gens, s[n], acts[n], s[n + 1]);
    }
  }

  /** Along every run, the entry of an engine and label never shrinks. */
  lemma {:induction false} SizesNeverDecrease(gens: Generators, s: seq<System>, acts: seq<Action>, i: nat, j: nat, l: CacheKey)
    requires Run(gens, s, acts) && i <= j <= |acts| && l in s[i].entries
    ensures exists g :: g in s[j].entries && g.engine == l.engine && g.name == l.name && g.size >= l.size
    decreases j - i
  {
    hide FreshKey, Inserted;
    if i < j {
      SizesNeverDecrease(gens, s, acts, i, j - 1, l);
      var g :| g in s[j - 1].entries && g.engine == l.engine && g.name == l.name && g.size >= l.size;
      assert Step(gens, s[j - 1], acts[j - 1], s[j - 1 + 1]);
      match acts[j - 1] {
        case Begin(_, _, _, _) =>
        case Finish(t) =>
          var k := CacheKey(s[j - 1].phase[t].engine, s[j - 1].phase[t].name, s[j - 1].phase[t].requested);
          InsertGrows(s[j - 1].entries, k, FreshKey(gens, k), g);
      }
    }
  }

  /** A lookup is never stuck: a cached key is as long as its size says. */
  lemma HitIsLongEnough(gens: Generators, s: System, k: CacheKey, engine: int, name: seq<int>, requested: nat)
    requires Inv(gens, s) && Smallest(s.entries, k, engine, name, requested)
    ensures requested <= |s.entries[k].ck|
  {
  }
}
