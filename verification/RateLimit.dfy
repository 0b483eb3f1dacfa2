/** The login rate limiter. Time is in nanoseconds; the limiter compares whole seconds. */
module RateLimit {
  import opened Strings
  import opened Wrappers

  const NANOS := 1_000_000_000

  datatype Config = Config(maxAttempts: nat, windowSecs: nat, blockSecs: nat)

  // How long an exhausted window stays closed.
  function Span(cfg: Config): nat {
    cfg.windowSecs + cfg.blockSecs
  }

  datatype Record = Record(count: nat, windowStart: nat)

  datatype Reply = Accepted | Rejected(retryAfterSecs: nat)

  // now.duration_since(start).as_secs(), which never goes below zero
  function ElapsedSecs(start: nat, now: nat): nat {
    if now < start then 0 else (now - start) / NANOS
  }

  function Attempt(cfg: Config, entry: Option<Record>, now: nat): (Record, Reply) {
    var found := if entry.Some? then entry.value else Record(0, now);
    var current := if ElapsedSecs(found.windowStart, now) > Span(cfg) then Record(0, now) else found;
    var elapsed := ElapsedSecs(current.windowStart, now);
    if current.count < cfg.maxAttempts then (current.(count := current.count + 1), Accepted)
    else if elapsed < Span(cfg) then (current, Rejected(Span(cfg) - elapsed))
    else (Record(1, now), Accepted)
  }

  function Key(username: string, ip: string): string {
    username + ":" + ip
  }

  // Two logins share a record exactly when name and address fall into the same parts at their colons.
  lemma KeyShared(u1: string, ip1: string, u2: string, ip2: string)
    ensures Key(u1, ip1) == Key(u2, ip2) <==> Split(u1, ':') + Split(ip1, ':') == Split(u2, ':') + Split(ip2, ':')
  {
    hide Split;
    SplitConcat(u1, ip1, ':');
    SplitConcat(u2, ip2, ':');
    SplitInjective(Key(u1, ip1), Key(u2, ip2), ':');
  }

  // So names without a colon keep their records apart, whatever the addresses.
  lemma PlainNamesApart(u1: string, ip1: string, u2: string, ip2: string)
    requires ':' !in u1 && ':' !in u2
    ensures Key(u1, ip1) == Key(u2, ip2) <==> (u1, ip1) == (u2, ip2)
  {
    hide Split;
    KeyShared(u1, ip1, u2, ip2);
    SplitNone(u1, ':');
    SplitNone(u2, ':');
    SplitInjective(ip1, ip2, ':');
    var a, b := [u1] + Split(ip1, ':'), [u2] + Split(ip2, ':');
    assert a[0] == u1 && a[1..] == Split(ip1, ':') && b[0] == u2 && b[1..] == Split(ip2, ':');
  }

  class RateLimiter {
    const cfg: Config
    var attempts: map<string, Record>

    constructor (cfg: Config)
      ensures this.cfg == cfg && attempts == map[]
    {
      this.cfg := cfg;
      attempts := map[];
    }

    method CheckAndRecord(username: string, ip: string, now: nat) returns (reply: Reply)
      modifies `attempts
      ensures var key := Key(username, ip);
              var entry := if key in old(attempts) then Some(old(attempts)[key]) else None;
              && reply == Attempt(cfg, entry, now).1
              && attempts == old(attempts)[key := Attempt(cfg, entry, now).0]
    {
      var key := Key(username, ip);
      var entry := if key in attempts then attempts[key] else Record(0, now);
      if ElapsedSecs(entry.windowStart, now) > cfg.windowSecs + cfg.blockSecs {
        entry := Record(0, now);
      }
      var elapsed := ElapsedSecs(entry.windowStart, now);
      if entry.count >= cfg.maxAttempts {
        if elapsed < cfg.windowSecs + cfg.blockSecs {
          attempts := attempts[key := entry];
          return Rejected(cfg.windowSecs + cfg.blockSecs - elapsed);
        }
        entry := Record(0, now);
      }
      attempts := attempts[key := entry.(count := entry.count + 1)];
      return Accepted;
    }

    method Clear(username: string, ip: string)
      modifies `attempts
      ensures attempts == old(attempts) - {Key(username, ip)}
    {
      attempts := attempts - {Key(username, ip)};
    }
  }

  /******* Whole runs *******/

  datatype Op = Try(key: string, now: nat) | Forget(key: string)

  type Table = map<string, Record>

  function EntryOf(t: Table, key: string): Option<Record> {
    if key in t then Some(t[key]) else None
  }

  function Apply(cfg: Config, t: Table, op: Op): (Table, bool) {
    match op
    case Try(key, now) =>
      var (r, reply) := Attempt(cfg, EntryOf(t, key), now);
      (t[key := r], reply.Accepted?)
    case Forget(key) => (t - {key}, false)
  }

  function Run(cfg: Config, ops: seq<Op>): Table {
    if ops == [] then map[] else Apply(cfg, Run(cfg, ops[..|ops| - 1]), ops[|ops| - 1]).0
  }

  // How many attempts on `key` were accepted from operation `from` on.
  function AcceptedSince(cfg: Config, ops: seq<Op>, from: nat, key: string): nat
    decreases |ops|
  {
    if |ops| <= from then 0
    else
      var n := |ops| - 1;
      AcceptedSince(cfg, ops[..n], from, key) +
      if ops[n].Try? && ops[n].key == key && Apply(cfg, Run(cfg, ops[..n]), ops[n]).1 then 1 else 0
  }

  // With at least one attempt allowed, a stored record has counted between one and the limit.
  lemma {:induction false} CountsInRange(cfg: Config, ops: seq<Op>)
    requires cfg.maxAttempts >= 1
    ensures forall k :: k in Run(cfg, ops) ==> 1 <= Run(cfg, ops)[k].count <= cfg.maxAttempts
  {
    if ops == [] {
    } else {
      CountsInRange(cfg, ops[..|ops| - 1]);
    }
  }

  // Attempts on `key` after operation `from` all fall in [start, start + Span) and none clears it.
  ghost predicate InSpan(cfg: Config, ops: seq<Op>, from: nat, key: string, start: nat) {
    forall i :: from <= i < |ops| && ops[i].key == key ==>
                  ops[i].Try? && start <= ops[i].now < start + Span(cfg) * NANOS
  }

  // Either the window open at `from` still counts, or it was replaced once, by one that opened inside the span.
  ghost predicate Progress(cfg: Config, before: Option<Record>, now: Option<Record>, accepted: nat, start: nat) {
    var spent := if before.Some? then before.value.count else cfg.maxAttempts;
    || (now == before && accepted == 0)
    || (before.Some? && now.Some? && now.value.windowStart == before.value.windowStart &&
        now.value.count == before.value.count + accepted <= cfg.maxAttempts)
    || (now.Some? && now.value.windowStart >= start && now.value.count <= cfg.maxAttempts &&
        spent <= cfg.maxAttempts && accepted <= cfg.maxAttempts - spent + now.value.count)
  }

  lemma ElapsedInSpan(span: nat, start: nat, windowStart: nat, now: nat)
    requires windowStart >= start && now < start + span * NANOS
    ensures span == 0 || ElapsedSecs(windowStart, now) < span
  {
  }

  lemma AttemptProgress(cfg: Config, before: Option<Record>, entry: Option<Record>, accepted: nat, start: nat, now: nat)
    requires cfg.maxAttempts >= 1 && (before.Some? ==> 1 <= before.value.count <= cfg.maxAttempts)
    requires entry.Some? ==> 1 <= entry.value.count <= cfg.maxAttempts
    requires Progress(cfg, before, entry, accepted, start)
    requires start <= now < start + Span(cfg) * NANOS
    ensures var (r, reply) := Attempt(cfg, entry, now);
            Progress(cfg, before, Some(r), accepted + if reply.Accepted? then 1 else 0, start)
  {
    if entry.Some? && entry.value.windowStart >= start {
      ElapsedInSpan(Span(cfg), start, entry.value.windowStart, now);
    }
  }

  lemma {:induction false} SpanProgress(cfg: Config, ops: seq<Op>, from: nat, key: string, start: nat)
    requires cfg.maxAttempts >= 1 && from <= |ops| && InSpan(cfg, ops, from, key, start)
    ensures Progress(cfg, EntryOf(Run(cfg, ops[..from]), key), EntryOf(Run(cfg, ops), key),
                     AcceptedSince(cfg, ops, from, key), start)
    decreases |ops|
  {
    if from == |ops| {
      assert ops[..from] == ops;
    } else {
      var n := |ops| - 1;
      assert ops[..n][..from] == ops[..from];
      SpanProgress(cfg, ops[..n], from, key, start);
      CountsInRange(cfg, ops[..n]);
      CountsInRange(cfg, ops[..from]);
      if ops[n].key == key {
        AttemptProgress(cfg, EntryOf(Run(cfg, ops[..from]), key), EntryOf(Run(cfg, ops[..n]), key),
                        AcceptedSince(cfg, ops[..n], from, key), start, ops[n].now);
      }
    }
  }

  // In any span shorter than window + block without a clear, at most 2 * max - 1 attempts get through.
  lemma RateBound(cfg: Config, ops: seq<Op>, from: nat, key: string, start: nat)
    requires cfg.maxAttempts >= 1 && from <= |ops| && InSpan(cfg, ops, from, key, start)
    ensures AcceptedSince(cfg, ops, from, key) <= 2 * cfg.maxAttempts - 1
  {
    SpanProgress(cfg, ops, from, key, start);
    CountsInRange(cfg, ops[..from]);
  }

  /******* The bound is reached *******/

  function Burst(key: string, now: nat, count: nat): seq<Op> {
    seq(count, _ => Try(key, now))
  }

  lemma TrySnoc(cfg: Config, ops: seq<Op>, from: nat, key: string, now: nat)
    requires from <= |ops|
    ensures var (r, reply) := Attempt(cfg, EntryOf(Run(cfg, ops), key), now);
            var all := ops + [Try(key, now)];
            && EntryOf(Run(cfg, all), key) == Some(r)
            && AcceptedSince(cfg, all, from, key) ==
               AcceptedSince(cfg, ops, from, key) + if reply.Accepted? then 1 else 0
  {
    hide Attempt;
    assert (ops + [Try(key, now)])[..|ops|] == ops;
  }

  // A burst that still fits the open window is accepted whole.
  lemma {:induction false} BurstFits(cfg: Config, ops: seq<Op>, from: nat, key: string, now: nat, count: nat, entry: Record)
    requires from <= |ops| && EntryOf(Run(cfg, ops), key) == Some(entry)
    requires ElapsedSecs(entry.windowStart, now) <= Span(cfg)
    requires entry.count + count <= cfg.maxAttempts
    ensures var all := ops + Burst(key, now, count);
            && EntryOf(Run(cfg, all), key) == Some(entry.(count := entry.count + count))
            && AcceptedSince(cfg, all, from, key) == AcceptedSince(cfg, ops, from, key) + count
  {
    hide ElapsedSecs, Run, AcceptedSince;
    if count == 0 {
      assert ops + Burst(key, now, count) == ops;
    } else {
      var before := ops + Burst(key, now, count - 1);
      BurstFits(cfg, ops, from, key, now, count - 1, entry);
      TrySnoc(cfg, before, from, key, now);
      assert ops + Burst(key, now, count) == before + [Try(key, now)];
    }
  }

  lemma WholeSecs(secs: nat)
    ensures ElapsedSecs(0, secs * NANOS) == secs
    ensures secs >= 1 ==> ElapsedSecs(0, secs * NANOS - 1) == secs - 1
  {
  }

  function TightRun(cfg: Config, key: string, reset: nat): seq<Op>
    requires cfg.maxAttempts >= 1 && reset >= 1
  {
    [Try(key, 0)] + Burst(key, reset - 1, cfg.maxAttempts - 1) + [Try(key, reset)] + Burst(key, reset, cfg.maxAttempts - 1)
  }

  lemma TightRunCount(cfg: Config, key: string, reset: nat)
    requires cfg.maxAttempts >= 1 && Span(cfg) >= 1 && reset >= 1
    requires ElapsedSecs(0, reset - 1) == Span(cfg) - 1 && ElapsedSecs(0, reset) == Span(cfg)
    ensures AcceptedSince(cfg, TightRun(cfg, key, reset), 1, key) == 2 * cfg.maxAttempts - 1
  {
    hide ElapsedSecs, Run, AcceptedSince;
    var m, first := cfg.maxAttempts, [Try(key, 0)];
    FirstTry(cfg, key);
    BurstFits(cfg, first, 1, key, reset - 1, m - 1, Record(1, 0));
    var filled := first + Burst(key, reset - 1, m - 1);
    TrySnoc(cfg, filled, 1, key, reset);
    var renewed := filled + [Try(key, reset)];
    SameInstant(reset);
    BurstFits(cfg, renewed, 1, key, reset, m - 1, Record(1, reset));
    assert renewed + Burst(key, reset, m - 1) == TightRun(cfg, key, reset);
    NothingYet(cfg, first, 1, key);
  }

  lemma FirstTry(cfg: Config, key: string)
    requires cfg.maxAttempts >= 1
    ensures EntryOf(Run(cfg, [Try(key, 0)]), key) == Some(Record(1, 0))
  {
    assert [Try(key, 0)][..0] == [];
  }

  // One attempt opens a window; the rest of its allowance is used just before it expires, and the whole
  // allowance of the next window just after.
  lemma RateBoundIsTight(cfg: Config, key: string) returns (ops: seq<Op>, from: nat, start: nat)
    requires cfg.maxAttempts >= 1 && Span(cfg) >= 1
    ensures from <= |ops| && InSpan(cfg, ops, from, key, start)
    ensures AcceptedSince(cfg, ops, from, key) == 2 * cfg.maxAttempts - 1
  {
    hide AcceptedSince, ElapsedSecs;
    var reset := Span(cfg) * NANOS;
    WholeSecs(Span(cfg));
    TightRunCount(cfg, key, reset);
    ops, from, start := TightRun(cfg, key, reset), 1, reset - 1;
  }

  lemma SameInstant(now: nat)
    ensures ElapsedSecs(now, now) == 0
  {
  }

  lemma NothingYet(cfg: Config, ops: seq<Op>, from: nat, key: string)
    requires |ops| <= from
    ensures AcceptedSince(cfg, ops, from, key) == 0
  {
  }

  /******* Retry-After *******/

  // After a rejection, trying again d whole seconds later is rejected exactly while d is less than the
  // answered number of seconds.
  lemma RetryAfterIsExact(cfg: Config, entry: Option<Record>, now: nat, d: nat)
    requires cfg.maxAttempts >= 1 && (entry.Some? ==> entry.value.windowStart <= now)
    requires Attempt(cfg, entry, now).1.Rejected?
    ensures var (r, reply) := Attempt(cfg, entry, now);
            Attempt(cfg, Some(r), now + d * NANOS).1.Rejected? <==> d < reply.retryAfterSecs
  {
    var (r, reply) := Attempt(cfg, entry, now);
    LaterSecs(r.windowStart, now, d);
  }

  lemma LaterSecs(start: nat, now: nat, d: nat)
    requires start <= now
    ensures ElapsedSecs(start, now + d * NANOS) == ElapsedSecs(start, now) + d
  {
  }

  /******* The windows, read from the calls alone *******/

  function SecsBetween(start: nat, now: nat): nat {
    if now < start then 0 else (now - start) / 1_000_000_000
  }

  // The call that opened the window now current for `key`, if any since the last clear: every call that falls into no
  // open window opens one.
  ghost function Opening(cfg: Config, ops: seq<Op>, key: string): (j: Option<nat>)
    ensures j.Some? ==> j.value < |ops| && ops[j.value].Try? && ops[j.value].key == key
    decreases |ops|, 0
  {
    if ops == [] then None
    else
      var n := |ops| - 1;
      if ops[n].key != key then Opening(cfg, ops[..n], key)
      else if ops[n].Forget? then None
      else if FallsInto(cfg, ops[..n], key, ops[n].now) then Opening(cfg, ops[..n], key)
      else Some(n)
  }

  // A window takes calls for window + block seconds, and in that last second only while it is not full.
  ghost predicate FallsInto(cfg: Config, ops: seq<Op>, key: string, now: nat)
    decreases |ops|, 2
  {
    var j := Opening(cfg, ops, key);
    && j.Some?
    && var secs := SecsBetween(ops[j.value].now, now);
       || secs < cfg.windowSecs + cfg.blockSecs
       || (secs == cfg.windowSecs + cfg.blockSecs && Granted(cfg, ops, j.value, key) < cfg.maxAttempts)
  }

  // A call is granted if it opens a window or its window is not full.
  ghost predicate Grants(cfg: Config, ops: seq<Op>, key: string, now: nat)
    decreases |ops|, 3
  {
    FallsInto(cfg, ops, key, now) ==> Granted(cfg, ops, Opening(cfg, ops, key).value, key) < cfg.maxAttempts
  }

  // Calls on `key` granted from call `from` on.
  ghost function Granted(cfg: Config, ops: seq<Op>, from: nat, key: string): nat
    decreases |ops|, 1
  {
    if |ops| <= from then 0
    else
      var n := |ops| - 1;
      Granted(cfg, ops[..n], from, key) +
      if ops[n].Try? && ops[n].key == key && Grants(cfg, ops[..n], key, ops[n].now) then 1 else 0
  }

  // The record kept for `key` is the current window's opening time and the calls granted in it.
  ghost predicate Remembers(cfg: Config, ops: seq<Op>, key: string) {
    var j := Opening(cfg, ops, key);
    EntryOf(Run(cfg, ops), key) ==
    if j.None? then None else Some(Record(Granted(cfg, ops, j.value, key), ops[j.value].now))
  }

  lemma SameSecs(start: nat, now: nat)
    ensures ElapsedSecs(start, now) == SecsBetween(start, now)
  {
  }

  lemma AttemptFollows(cfg: Config, ops: seq<Op>, key: string, now: nat)
    requires cfg.maxAttempts >= 1 && Remembers(cfg, ops, key)
    requires EntryOf(Run(cfg, ops), key).Some? ==> EntryOf(Run(cfg, ops), key).value.count <= cfg.maxAttempts
    ensures var (r, reply) := Attempt(cfg, EntryOf(Run(cfg, ops), key), now);
            && (reply.Accepted? <==> Grants(cfg, ops, key, now))
            && r == if FallsInto(cfg, ops, key, now)
                    then Record(Granted(cfg, ops, Opening(cfg, ops, key).value, key) +
                                (if Grants(cfg, ops, key, now) then 1 else 0), ops[Opening(cfg, ops, key).value].now)
                    else Record(1, now)
  {
    hide ElapsedSecs, SecsBetween, Opening, Granted, Run;
    SameSecs(now, now);
    SameInstant(now);
    var j := Opening(cfg, ops, key);
    if j.Some? {
      SameSecs(ops[j.value].now, now);
    }
  }

  lemma GrantedSnoc(cfg: Config, ops: seq<Op>, from: nat, key: string)
    requires ops != [] && from < |ops|
    ensures var n := |ops| - 1;
            Granted(cfg, ops, from, key) ==
            Granted(cfg, ops[..n], from, key) +
            if ops[n].Try? && ops[n].key == key && Grants(cfg, ops[..n], key, ops[n].now) then 1 else 0
  {
    hide Grants;
  }

  lemma OpeningSnoc(cfg: Config, ops: seq<Op>, key: string)
    requires ops != []
    ensures var n := |ops| - 1;
            Opening(cfg, ops, key) ==
            if ops[n].key != key then Opening(cfg, ops[..n], key)
            else if ops[n].Forget? then None
            else if FallsInto(cfg, ops[..n], key, ops[n].now) then Opening(cfg, ops[..n], key)
            else Some(n)
  {
    hide FallsInto;
  }

  lemma {:induction false} RunRemembers(cfg: Config, ops: seq<Op>, key: string)
    requires cfg.maxAttempts >= 1
    ensures Remembers(cfg, ops, key)
  {
    if ops == [] {
    } else {
      var n := |ops| - 1;
      var before, op := ops[..n], ops[n];
      RunRemembers(cfg, before, key);
      OpeningSnoc(cfg, ops, key);
      CountsInRange(cfg, before);
      var j := Opening(cfg, ops, key);
      if j.Some? {
        GrantedSnoc(cfg, ops, j.value, key);
      }
      if op.key == key && op.Try? {
        AttemptFollows(cfg, before, key, op.now);
        assert j.Some? && j.value == n ==> Granted(cfg, before, n, key) == 0;
      }
      hide Attempt, Opening, Granted, FallsInto, Grants, Run;
      RunSnoc(cfg, ops);
    }
  }

  lemma RunSnoc(cfg: Config, ops: seq<Op>)
    requires ops != []
    ensures Run(cfg, ops) == Apply(cfg, Run(cfg, ops[..|ops| - 1]), ops[|ops| - 1]).0
  {
    hide Apply;
  }

  /** In every run, a call is accepted exactly when it opens a window or fewer than the allowed number were accepted in
      the window it falls into. */
  lemma AcceptedByWindow(cfg: Config, ops: seq<Op>, key: string, now: nat)
    requires cfg.maxAttempts >= 1
    ensures Attempt(cfg, EntryOf(Run(cfg, ops), key), now).1.Accepted? <==> Grants(cfg, ops, key, now)
    ensures forall from: nat :: Granted(cfg, ops, from, key) == AcceptedSince(cfg, ops, from, key)
  {
    RunRemembers(cfg, ops, key);
    CountsInRange(cfg, ops);
    AttemptFollows(cfg, ops, key, now);
    forall from: nat ensures Granted(cfg, ops, from, key) == AcceptedSince(cfg, ops, from, key) {
      GrantedIsAccepted(cfg, ops, from, key);
    }
  }

  lemma {:induction false} GrantedIsAccepted(cfg: Config, ops: seq<Op>, from: nat, key: string)
    requires cfg.maxAttempts >= 1
    ensures Granted(cfg, ops, from, key) == AcceptedSince(cfg, ops, from, key)
  {
    hide Attempt, Grants;
    if |ops| <= from {
    } else {
      var n := |ops| - 1;
      GrantedIsAccepted(cfg, ops[..n], from, key);
      if ops[n].Try? && ops[n].key == key {
        RunRemembers(cfg, ops[..n], key);
        CountsInRange(cfg, ops[..n]);
        AttemptFollows(cfg, ops[..n], key, ops[n].now);
      }
    }
  }

  /******* A fresh start *******/

  // No record, or one whose window opened more than window + block whole seconds before.
  ghost predicate StartsFresh(cfg: Config, entry: Option<Record>, now: nat) {
    entry.Some? ==> SecsBetween(entry.value.windowStart, now) > cfg.windowSecs + cfg.blockSecs
  }

  // Everything accepted so far in the span is in one window, opened in it; or nothing was tried yet.
  ghost predicate OneWindow(cfg: Config, before: Option<Record>, now: Option<Record>, accepted: nat, start: nat) {
    || (now == before && accepted == 0)
    || (now.Some? && now.value.windowStart >= start && accepted == now.value.count <= cfg.maxAttempts)
  }

  lemma FreshAttempt(cfg: Config, before: Option<Record>, entry: Option<Record>, accepted: nat, start: nat, now: nat)
    requires cfg.maxAttempts >= 1 && OneWindow(cfg, before, entry, accepted, start)
    requires start <= now < start + Span(cfg) * NANOS && StartsFresh(cfg, before, now)
    ensures var (r, reply) := Attempt(cfg, entry, now);
            OneWindow(cfg, before, Some(r), accepted + if reply.Accepted? then 1 else 0, start)
  {
    if entry.Some? && entry.value.windowStart >= start {
      ElapsedInSpan(Span(cfg), start, entry.value.windowStart, now);
    }
    if entry.Some? {
      SameSecs(entry.value.windowStart, now);
    }
    SameInstant(now);
    hide ElapsedSecs, SecsBetween;
  }

  lemma LaterIsFresh(cfg: Config, entry: Option<Record>, now: nat, later: nat)
    requires StartsFresh(cfg, entry, now) && now <= later
    ensures StartsFresh(cfg, entry, later)
  {
  }

  lemma {:induction false} FreshProgress(cfg: Config, ops: seq<Op>, from: nat, key: string, start: nat)
    requires cfg.maxAttempts >= 1 && from <= |ops| && InSpan(cfg, ops, from, key, start)
    requires StartsFresh(cfg, EntryOf(Run(cfg, ops[..from]), key), start)
    ensures OneWindow(cfg, EntryOf(Run(cfg, ops[..from]), key), EntryOf(Run(cfg, ops), key),
                      AcceptedSince(cfg, ops, from, key), start)
    decreases |ops|
  {
    hide StartsFresh, Attempt;
    if from == |ops| {
      assert ops[..from] == ops;
    } else {
      var n := |ops| - 1;
      assert ops[..n][..from] == ops[..from];
      FreshProgress(cfg, ops[..n], from, key, start);
      if ops[n].key == key {
        var before := EntryOf(Run(cfg, ops[..from]), key);
        LaterIsFresh(cfg, before, start, ops[n].now);
        FreshAttempt(cfg, before, EntryOf(Run(cfg, ops[..n]), key), AcceptedSince(cfg, ops[..n], from, key), start, ops[n].now);
      }
    }
  }

  // Such a span accepts no more than one window's allowance.
  lemma FreshSpanBound(cfg: Config, ops: seq<Op>, from: nat, key: string, start: nat)
    requires cfg.maxAttempts >= 1 && from <= |ops| && InSpan(cfg, ops, from, key, start)
    requires StartsFresh(cfg, EntryOf(Run(cfg, ops[..from]), key), start)
    ensures AcceptedSince(cfg, ops, from, key) <= cfg.maxAttempts
  {
    FreshProgress(cfg, ops, from, key, start);
  }
}
