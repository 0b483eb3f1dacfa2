/** The idempotency cache: first response wins for 60 seconds, and eviction cannot be observed. */
module Idempotency {
  import opened Strings
  import opened Wrappers

  // 60 seconds, in nanoseconds
  const TTL := 60_000_000_000

  datatype Response = Response(status: nat, body: string)

  datatype Entry = Entry(response: Response, cachedAt: int)

  type Cache = map<string, Entry>

  datatype Op =
    | Get(key: string, now: int)
    | Put(key: string, response: Response, now: int)
    | Evict(now: int)

  predicate Fresh(e: Entry, now: int) {
    now - e.cachedAt < TTL
  }

  function Apply(c: Cache, op: Op): (Cache, Option<Response>) {
    match op
    case Get(key, now) =>
      if key !in c then (c, None)
      else if Fresh(c[key], now) then (c, Some(c[key].response))
      else (c - {key}, None)
    case Put(key, response, now) =>
      if key in c && Fresh(c[key], now) then (c, None) else (c[key := Entry(response, now)], None)
    case Evict(now) => (map k | k in c && Fresh(c[k], now) :: c[k], None)
  }

  function Run(ops: seq<Op>): Cache {
    if ops == [] then map[] else Apply(Run(ops[..|ops| - 1]), ops[|ops| - 1]).0
  }

  // What the gets of a run answered, in order.
  function Answers(ops: seq<Op>): seq<Option<Response>> {
    if ops == [] then []
    else
      var n := |ops| - 1;
      Answers(ops[..n]) + if ops[n].Get? then [Apply(Run(ops[..n]), ops[n]).1] else []
  }

  class IdempotencyCache {
    var inner: Cache

    constructor ()
      ensures inner == map[]
    {
      inner := map[];
    }

    method Lookup(key: string, now: int) returns (r: Option<Response>)
      modifies this
      ensures (inner, r) == Apply(old(inner), Get(key, now))
    {
      if key in inner {
        if now - inner[key].cachedAt < TTL {
          return Some(inner[key].response);
        }
        inner := inner - {key};
      }
      return None;
    }

    method Store(key: string, response: Response, now: int)
      modifies this
      ensures inner == Apply(old(inner), Put(key, response, now)).0
    {
      if key in inner {
        if now - inner[key].cachedAt < TTL { return; }
      }
      inner := inner[key := Entry(response, now)];
    }

    method EvictExpired(now: int)
      modifies this
      ensures inner == Apply(old(inner), Evict(now)).0
    {
      var kept: Cache := map[];
      var todo := inner.Keys;
      while todo != {}
        invariant todo <= inner.Keys && inner == old(inner)
        invariant kept == map k | k in inner.Keys - todo && Fresh(inner[k], now) :: inner[k]
        decreases todo
      {
        var k :| k in todo;
        if now - inner[k].cachedAt < TTL {
          kept := kept[k := inner[k]];
        }
        todo := todo - {k};
      }
      inner := kept;
    }
  }

  /******* Eviction is invisible *******/

  ghost predicate Monotone(ops: seq<Op>) {
    forall i, j :: 0 <= i <= j < |ops| ==> ops[i].now <= ops[j].now
  }

  // What a lookup of `key` could still see.
  function View(c: Cache, key: string, now: int): Option<Entry> {
    if key in c && Fresh(c[key], now) then Some(c[key]) else None
  }

  ghost predicate SameView(a: Cache, b: Cache, now: int) {
    forall key :: View(a, key, now) == View(b, key, now)
  }

  lemma SameViewLater(a: Cache, b: Cache, now: int, later: int)
    requires SameView(a, b, now) && now <= later
    ensures SameView(a, b, later)
  {
    forall key ensures View(a, key, later) == View(b, key, later) {
      assert View(a, key, now) == View(b, key, now);
    }
  }

  lemma StepKeepsView(a: Cache, b: Cache, op: Op)
    requires SameView(a, b, op.now)
    ensures SameView(Apply(a, op).0, Apply(b, op).0, op.now)
    ensures Apply(a, op).1 == Apply(b, op).1
  {
    if !op.Evict? {
      assert View(a, op.key, op.now) == View(b, op.key, op.now);
    }
    forall key ensures View(Apply(a, op).0, key, op.now) == View(Apply(b, op).0, key, op.now) {
      assert View(a, key, op.now) == View(b, key, op.now);
    }
  }

  lemma EvictKeepsView(c: Cache, now: int)
    ensures SameView(c, Apply(c, Evict(now)).0, now)
  {
  }

  function DropEvicts(ops: seq<Op>): seq<Op> {
    if ops == [] then []
    else
      var n := |ops| - 1;
      DropEvicts(ops[..n]) + if ops[n].Evict? then [] else [ops[n]]
  }

  lemma {:induction false} RunWithoutEvicts(ops: seq<Op>, now: int)
    requires Monotone(ops) && forall i :: 0 <= i < |ops| ==> ops[i].now <= now
    ensures SameView(Run(ops), Run(DropEvicts(ops)), now)
    ensures Answers(ops) == Answers(DropEvicts(ops))
  {
    if ops == [] {
    } else {
      var n := |ops| - 1;
      var op, before, kept := ops[n], Run(ops[..n]), Run(DropEvicts(ops[..n]));
      RunWithoutEvicts(ops[..n], op.now);
      if op.Evict? {
        EvictKeepsView(before, op.now);
        assert DropEvicts(ops) == DropEvicts(ops[..n]);
        assert SameView(Run(ops), kept, op.now) by {
          forall key ensures View(Run(ops), key, op.now) == View(kept, key, op.now) {
            assert View(before, key, op.now) == View(kept, key, op.now);
          }
        }
      } else {
        StepKeepsView(before, kept, op);
        assert DropEvicts(ops)[..|DropEvicts(ops)| - 1] == DropEvicts(ops[..n]);
      }
      SameViewLater(Run(ops), Run(DropEvicts(ops)), op.now, now);
    }
  }

  // Under a monotone clock, sweeping at any moments leaves every answer unchanged.
  lemma EvictionInvisible(ops: seq<Op>, swept: seq<Op>)
    requires Monotone(ops) && Monotone(swept) && DropEvicts(ops) == DropEvicts(swept)
    ensures Answers(ops) == Answers(swept)
  {
    RunWithoutEvicts(ops, if ops == [] then 0 else ops[|ops| - 1].now);
    RunWithoutEvicts(swept, if swept == [] then 0 else swept[|swept| - 1].now);
  }

  /******* What a get returns *******/

  // A put counts unless an earlier put that counted is less than 60 seconds old.
  ghost predicate Effective(ops: seq<Op>, i: nat, key: string)
    decreases i
  {
    && i < |ops| && ops[i].Put? && ops[i].key == key
    && forall j: nat :: j < i && Effective(ops, j, key) ==> ops[i].now - ops[j].now >= 60_000_000_000
  }

  lemma {:induction false} EffectivePrefix(ops: seq<Op>, n: nat, i: nat, key: string)
    requires i < n <= |ops|
    ensures Effective(ops[..n], i, key) <==> Effective(ops, i, key)
    decreases i
  {
    forall j: nat | j < i ensures Effective(ops[..n], j, key) <==> Effective(ops, j, key) {
      EffectivePrefix(ops, n, j, key);
    }
  }

  ghost predicate Source(ops: seq<Op>, i: nat, key: string, now: int) {
    Effective(ops, i, key) && now - ops[i].now < 60_000_000_000
  }

  // The cache shows exactly the put that counts and is still young, if there is one.
  ghost predicate Shows(ops: seq<Op>, key: string, now: int) {
    match View(Run(ops), key, now)
    case None => forall i: nat :: !Source(ops, i, key, now)
    case Some(e) => exists i: nat :: Source(ops, i, key, now) && e == Entry(ops[i].response, ops[i].now)
  }

  lemma ShowsLater(ops: seq<Op>, key: string, now: int, later: int)
    requires Shows(ops, key, now) && now <= later
    requires forall i: nat, j: nat :: Source(ops, i, key, now) && Source(ops, j, key, now) ==> i == j
    ensures Shows(ops, key, later)
  {
    if View(Run(ops), key, now).Some? {
      var i: nat :| Source(ops, i, key, now) && View(Run(ops), key, now).value == Entry(ops[i].response, ops[i].now);
      forall j: nat | Source(ops, j, key, later) ensures j == i {
        assert Source(ops, j, key, now);
      }
    } else {
      forall j: nat ensures !Source(ops, j, key, later) {
        assert !Source(ops, j, key, now);
      }
    }
  }

  // No two puts of one key count within 60 seconds.
  lemma SourceUnique(ops: seq<Op>, i: nat, j: nat, key: string, now: int)
    requires Monotone(ops) && Source(ops, i, key, now) && Source(ops, j, key, now)
    requires forall k :: 0 <= k < |ops| ==> ops[k].now <= now
    ensures i == j
  {
  }

  lemma SnocSources(ops: seq<Op>, key: string, now: int)
    requires ops != []
    ensures var n := |ops| - 1;
            && (forall i: nat :: i < n ==> (Source(ops, i, key, now) <==> Source(ops[..n], i, key, now)))
            && (forall i: nat :: i >= n ==> !Source(ops[..n], i, key, now))
            && (forall i: nat :: i > n ==> !Source(ops, i, key, now))
  {
    var n := |ops| - 1;
    forall i: nat | i < n ensures Source(ops, i, key, now) <==> Source(ops[..n], i, key, now) {
      EffectivePrefix(ops, n, i, key);
    }
  }

  lemma PutDecides(ops: seq<Op>, key: string)
    requires ops != [] && Monotone(ops)
    requires Shows(ops[..|ops| - 1], key, ops[|ops| - 1].now)
    ensures Shows(ops, key, ops[|ops| - 1].now)
  {
    var n := |ops| - 1;
    var op, init := ops[n], ops[..n];
    var before := View(Run(init), key, op.now);
    SnocSources(ops, key, op.now);
    if before.Some? {
      var i: nat :| Source(init, i, key, op.now) && before.value == Entry(init[i].response, init[i].now);
      assert Source(ops, i, key, op.now) && ops[i] == init[i];
    } else if op.Put? && op.key == key {
      forall j: nat | j < n && Effective(ops, j, key) ensures op.now - ops[j].now >= TTL {
        assert !Source(init, j, key, op.now);
      }
      assert Source(ops, n, key, op.now);
    }
  }

  lemma {:induction false} RunShows(ops: seq<Op>, key: string, now: int)
    requires Monotone(ops) && forall i :: 0 <= i < |ops| ==> ops[i].now <= now
    ensures Shows(ops, key, now)
  {
    if ops == [] {
    } else {
      var n := |ops| - 1;
      RunShows(ops[..n], key, ops[n].now);
      PutDecides(ops, key);
      forall i: nat, j: nat | Source(ops, i, key, ops[n].now) && Source(ops, j, key, ops[n].now) ensures i == j {
        SourceUnique(ops, i, j, key, ops[n].now);
      }
      ShowsLater(ops, key, ops[n].now, now);
    }
  }

  // A get answers with the response of the effective put that is less than 60 seconds old, whatever later
  // puts tried, and with nothing exactly when there is none.
  lemma GetAnswers(ops: seq<Op>, key: string, now: int)
    requires Monotone(ops + [Get(key, now)])
    ensures var answer := Apply(Run(ops), Get(key, now)).1;
            && (answer.None? <==> forall i: nat :: !Source(ops, i, key, now))
            && forall i: nat :: Source(ops, i, key, now) ==> answer == Some(ops[i].response)
  {
    var all := ops + [Get(key, now)];
    assert forall i :: 0 <= i < |ops| ==> all[i] == ops[i];
    assert all[|ops|].now == now;
    assert Monotone(ops) by {
      forall i, j | 0 <= i <= j < |ops| ensures ops[i].now <= ops[j].now { assert all[i].now <= all[j].now; }
    }
    assert forall i :: 0 <= i < |ops| ==> all[i].now <= all[|ops|].now;
    RunShows(ops, key, now);
    forall i: nat | Source(ops, i, key, now)
      ensures Apply(Run(ops), Get(key, now)).1 == Some(ops[i].response)
    {
      var j: nat :| Source(ops, j, key, now) && View(Run(ops), key, now) == Some(Entry(ops[j].response, ops[j].now));
      SourceUnique(ops, i, j, key, now);
    }
  }

  /******* Scoped keys *******/

  function ScopedKey(user: string, verb: string, path: string, key: string): string {
    user + ":" + verb + ":" + path + ":" + key
  }

  // The colon-free parts of a request, in order.
  function KeyParts(user: string, verb: string, path: string, key: string): seq<string> {
    Split(user, ':') + Split(verb, ':') + Split(path, ':') + Split(key, ':')
  }

  lemma KeySplits(user: string, verb: string, path: string, key: string)
    ensures Split(ScopedKey(user, verb, path, key), ':') == KeyParts(user, verb, path, key)
  {
    hide Split;
    SplitConcat(user, verb, ':');
    SplitConcat(user + ":" + verb, path, ':');
    SplitConcat(user + ":" + verb + ":" + path, key, ':');
  }

  // Two requests share an entry exactly when they fall into the same parts at their colons.
  lemma ScopedKeyShared(u1: string, m1: string, p1: string, k1: string, u2: string, m2: string, p2: string, k2: string)
    ensures ScopedKey(u1, m1, p1, k1) == ScopedKey(u2, m2, p2, k2) <==> KeyParts(u1, m1, p1, k1) == KeyParts(u2, m2, p2, k2)
  {
    hide Split, KeyParts;
    KeySplits(u1, m1, p1, k1);
    KeySplits(u2, m2, p2, k2);
    SplitInjective(ScopedKey(u1, m1, p1, k1), ScopedKey(u2, m2, p2, k2), ':');
  }

  // Distinct requests never share an entry when user, method and path are free of colons.
  lemma ScopedKeyInjective(u1: string, m1: string, p1: string, k1: string, u2: string, m2: string, p2: string, k2: string)
    requires ':' !in u1 && ':' !in m1 && ':' !in p1 && ':' !in u2 && ':' !in m2 && ':' !in p2
    ensures ScopedKey(u1, m1, p1, k1) == ScopedKey(u2, m2, p2, k2) <==> (u1, m1, p1, k1) == (u2, m2, p2, k2)
  {
    hide Split;
    ScopedKeyShared(u1, m1, p1, k1, u2, m2, p2, k2);
    PlainParts(u1, m1, p1, k1);
    PlainParts(u2, m2, p2, k2);
    SplitInjective(k1, k2, ':');
    var a, b := [u1, m1, p1] + Split(k1, ':'), [u2, m2, p2] + Split(k2, ':');
    assert a[0] == u1 && a[1] == m1 && a[2] == p1 && a[3..] == Split(k1, ':');
    assert b[0] == u2 && b[1] == m2 && b[2] == p2 && b[3..] == Split(k2, ':');
  }

  lemma PlainParts(user: string, verb: string, path: string, key: string)
    requires ':' !in user && ':' !in verb && ':' !in path
    ensures KeyParts(user, verb, path, key) == [user, verb, path] + Split(key, ':')
  {
    hide Split;
    SplitNone(user, ':');
    SplitNone(verb, ':');
    SplitNone(path, ':');
  }

  lemma Regroup(a: string, b: string, c: string, d: string, e: string)
    ensures ScopedKey(a + ":" + b, c, d, e) == ScopedKey(a, b, c, d + ":" + e)
    ensures ScopedKey(a, b + ":" + c, d, e) == ScopedKey(a, b, c, d + ":" + e)
    ensures ScopedKey(a, b, c + ":" + d, e) == ScopedKey(a, b, c, d + ":" + e)
  {
  }

  ghost predicate Shares(user: string, verb: string, path: string, key: string) {
    exists u, m, p, k ::
      ScopedKey(u, m, p, k) == ScopedKey(user, verb, path, key) && (u, m, p, k) != (user, verb, path, key)
  }

  // A request shares its entry with some other request exactly when a colon stands in any of its parts.
  lemma ScopedKeyAlone(user: string, verb: string, path: string, key: string)
    ensures Shares(user, verb, path, key) <==> ':' in user || ':' in verb || ':' in path || ':' in key
  {
    if ':' in user {
      var a, b := FirstPart(user, ':');
      Regroup(a, b, verb, path, key);
      assert |a| < |user|;
    } else if ':' in verb {
      var a, b := FirstPart(verb, ':');
      Regroup(user, a, b, path, key);
      assert |a| < |verb|;
    } else if ':' in path {
      var a, b := FirstPart(path, ':');
      Regroup(user, verb, a, b, key);
      assert |a| < |path|;
    } else if ':' in key {
      var a, b := FirstPart(key, ':');
      Regroup(user, verb, path, a, b);
      assert |path| < |path + ":" + a|;
    } else if Shares(user, verb, path, key) {
      var u, m, p, k :|
        ScopedKey(u, m, p, k) == ScopedKey(user, verb, path, key) && (u, m, p, k) != (user, verb, path, key);
      FourParts(user, verb, path, key, u, m, p, k);
    }
  }

  lemma FourParts(user: string, verb: string, path: string, key: string, u: string, m: string, p: string, k: string)
    requires ':' !in user && ':' !in verb && ':' !in path && ':' !in key
    requires ScopedKey(u, m, p, k) == ScopedKey(user, verb, path, key)
    ensures (u, m, p, k) == (user, verb, path, key)
  {
    hide Split;
    ScopedKeyShared(u, m, p, k, user, verb, path, key);
    PlainParts(user, verb, path, key);
    SplitNone(key, ':');
    assert |KeyParts(u, m, p, k)| == 4;
    SplitNone(u, ':');
    SplitNone(m, ':');
    SplitNone(p, ':');
    ScopedKeyInjective(u, m, p, k, user, verb, path, key);
  }
}
