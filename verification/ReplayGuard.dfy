/** The receive-side replay guard of federation.py: signature, freshness window, nonce cache. */
module ReplayGuard {
  import opened Common

  const DEFAULT_MAX_AGE: real := 300.0
  const DEFAULT_MAX_SKEW: real := 60.0
  const NONCE_TTL: real := DEFAULT_MAX_AGE + DEFAULT_MAX_SKEW + 60.0

  /** The unit separator joining sender and nonce in a cache key. */
  const SEPARATOR: char := 31 as char

  function Key(from_fqid: string, nonce: string): string {
    from_fqid + [SEPARATOR] + nonce
  }

  // ----- Nonce caches -----

  /** Rows that an eviction at `now` keeps. */
  function Live(seen: map<string, real>, ttl: real, now: real): map<string, real> {
    map k | k in seen && seen[k] >= now - ttl :: seen[k]
  }

  datatype CacheResult = CacheResult(seen: map<string, real>, added: bool)

  function CheckAndAddSpec(seen: map<string, real>, ttl: real, key: string, now: real): CacheResult {
    var live := Live(seen, ttl, now);
    if key in live then CacheResult(live, false) else CacheResult(live[key := now], true)
  }

  class NonceCache {
    const ttl: real
    var seen: map<string, real>

    constructor (ttl: real)
      ensures this.ttl == ttl && seen == map[]
    {
      this.ttl := ttl;
      seen := map[];
    }

    method Evict(now: real)
      modifies this
      ensures seen == Live(old(seen), ttl, now)
    {
      var cutoff := now - ttl;
      var todo := seen.Keys;
      while todo != {}
        invariant todo <= seen.Keys <= old(seen).Keys
        invariant forall k :: k in seen ==> seen[k] == old(seen)[k]
        invariant forall k :: k in old(seen) && k !in todo ==> (k in seen <==> old(seen)[k] >= cutoff)
        decreases |todo|
      {
        var k :| k in todo;
        todo := todo - {k};
        if seen[k] < cutoff { seen := seen - {k}; }
      }
    }

    method CheckAndAdd(from_fqid: string, nonce: string, now: real) returns (added: bool)
      modifies this
      ensures CacheResult(seen, added) == CheckAndAddSpec(old(seen), ttl, Key(from_fqid, nonce), now)
    {
      Evict(now);
      var key := Key(from_fqid, nonce);
      if key in seen { return false; }
      seen := seen[key := now];
      return true;
    }
  }

  /** The SQLite table: one DELETE and one INSERT OR IGNORE in a single write transaction.
      The table outlives the process, so closing and reopening the cache keeps it. */
  class DurableNonceCache {
    const ttl: real
    var table: map<string, real>

    constructor Open(file: map<string, real>, ttl: real)
      ensures this.ttl == ttl && table == file
    {
      this.ttl := ttl;
      table := file;
    }

    method CheckAndAdd(from_fqid: string, nonce: string, now: real) returns (added: bool)
      modifies this
      ensures CacheResult(table, added) == CheckAndAddSpec(old(table), ttl, Key(from_fqid, nonce), now)
    {
      var key := Key(from_fqid, nonce);
      table := map k | k in table && !(table[k] < now - ttl) :: table[k];
      var rowcount := 0;
      if key !in table {
        table := table[key := now];
        rowcount := 1;
      }
      return rowcount == 1;
    }
  }

  datatype Call = Call(key: string, now: real) | Restart

  /** Rows after the first `n` calls on the durable file; a restart reopens the same file. */
  function DurableRows(ttl: real, calls: seq<Call>, n: nat): map<string, real>
    requires n <= |calls|
  {
    if n == 0 then map[]
    else match calls[n - 1]
      case Call(k, now) => CheckAndAddSpec(DurableRows(ttl, calls, n - 1), ttl, k, now).seen
      case Restart => DurableRows(ttl, calls, n - 1)
  }

  /** The in-memory cache never sees a restart. */
  function Calls(calls: seq<Call>): (r: seq<Call>)
    ensures forall c :: c in r ==> c.Call?
    ensures |r| <= |calls|
  {
    if calls == [] then []
    else
      var front := Calls(calls[..|calls| - 1]);
      if calls[|calls| - 1].Call? then front + [calls[|calls| - 1]] else front
  }

  function MemoryRows(ttl: real, calls: seq<Call>): map<string, real>
    requires forall c :: c in calls ==> c.Call?
  {
    if calls == [] then map[]
    else
      var c := calls[|calls| - 1];
      CheckAndAddSpec(MemoryRows(ttl, calls[..|calls| - 1]), ttl, c.key, c.now).seen
  }

  /** Restarts cannot be seen: after any calls, with any clock, the durable rows are those
      of an in-memory cache that ran without interruption, so every later answer agrees. */
  lemma {:induction false} DurableEqualsMemory(ttl: real, calls: seq<Call>, n: nat)
    requires n <= |calls|
    ensures DurableRows(ttl, calls, n) == MemoryRows(ttl, Calls(calls[..n]))
  {
    if n > 0 {
      DurableEqualsMemory(ttl, calls, n - 1);
      assert calls[..n][..n - 1] == calls[..n - 1];
      if calls[n - 1].Call? {
        var front := Calls(calls[..n - 1]);
        assert Calls(calls[..n])[..|front|] == front;
      }
    }
  }

  datatype Use = Ask(from_fqid: string, nonce: string, now: real) | Reopen

  /** The answers to some uses of one cache from an empty start, and the rows it ends with. */
  function Told(ttl: real, uses: seq<Use>): (seq<bool>, map<string, real>) {
    if uses == [] then ([], map[])
    else
      var (answers, rows) := Told(ttl, uses[..|uses| - 1]);
      match uses[|uses| - 1]
      case Ask(f, n, now) =>
        var r := CheckAndAddSpec(rows, ttl, Key(f, n), now);
        (answers + [r.added], r.seen)
      case Reopen => (answers, rows)
  }

  /** Both caches through one sequence of uses, the durable one closed and opened anew at each
      restart: they give the same answers and hold the same rows. */
  method DriveBoth(ttl: real, uses: seq<Use>)
    returns (memory: seq<bool>, durable: seq<bool>, seen: map<string, real>, table: map<string, real>)
    ensures memory == durable && seen == table
    ensures (memory, seen) == Told(ttl, uses)
  {
    var inMemory := new NonceCache(ttl);
    var onFile := new DurableNonceCache.Open(map[], ttl);
    memory, durable := [], [];
    for i := 0 to |uses|
      invariant fresh(inMemory) && fresh(onFile) && inMemory.ttl == ttl && onFile.ttl == ttl
      invariant memory == durable && inMemory.seen == onFile.table
      invariant (memory, inMemory.seen) == Told(ttl, uses[..i])
    {
      assert uses[..i + 1][..i] == uses[..i];
      var use := uses[i];
      if use.Ask? {
        var a := inMemory.CheckAndAdd(use.from_fqid, use.nonce, use.now);
        var b := onFile.CheckAndAdd(use.from_fqid, use.nonce, use.now);
        memory, durable := memory + [a], durable + [b];
      } else {
        onFile := new DurableNonceCache.Open(onFile.table, ttl);
      }
    }
    assert uses[..|uses|] == uses;
    seen, table := inMemory.seen, onFile.table;
  }

  /** Whether call `i` on the shared file was told its key is fresh. */
  predicate Wins(ttl: real, calls: seq<Call>, i: nat)
    requires i < |calls| && calls[i].Call?
  {
    CheckAndAddSpec(DurableRows(ttl, calls, i), ttl, calls[i].key, calls[i].now).added
  }

  /** No call after `j` and before `n`, on whatever key, was late enough to evict what `j` recorded. */
  ghost predicate KeptUntil(ttl: real, calls: seq<Call>, j: nat, n: nat)
    requires j < n <= |calls| && calls[j].Call?
  {
    forall k :: j < k < n && calls[k].Call? ==> calls[j].now >= calls[k].now - ttl
  }

  /** Before call `n` the row of `key` is the one that call `j` won. */
  ghost predicate Owns(ttl: real, calls: seq<Call>, key: string, j: nat, n: nat)
    requires j < n <= |calls|
  {
    calls[j].Call? && calls[j].key == key && Wins(ttl, calls, j) && KeptUntil(ttl, calls, j, n)
  }

  lemma {:induction false} RowsAreOwned(ttl: real, calls: seq<Call>, key: string, n: nat)
    requires n <= |calls|
    ensures key in DurableRows(ttl, calls, n) <==> exists j :: 0 <= j < n && Owns(ttl, calls, key, j, n)
    ensures forall j :: 0 <= j < n && Owns(ttl, calls, key, j, n) ==>
              key in DurableRows(ttl, calls, n) && DurableRows(ttl, calls, n)[key] == calls[j].now
  {
    if n > 0 {
      var m := n - 1;
      RowsAreOwned(ttl, calls, key, m);
      OwnsNext(ttl, calls, key, m);
      if calls[m].Call? && calls[m].key == key && Wins(ttl, calls, m) { assert Owns(ttl, calls, key, m, n); }
      hide Owns;
      if j :| 0 <= j < m && Owns(ttl, calls, key, j, m) {
        assert Owns(ttl, calls, key, j, n) <==> calls[m].Call? ==> calls[j].now >= calls[m].now - ttl;
      }
    }
  }

  lemma OwnsNext(ttl: real, calls: seq<Call>, key: string, m: nat)
    requires m < |calls|
    ensures forall j :: 0 <= j < m ==>
              (Owns(ttl, calls, key, j, m + 1) <==>
               Owns(ttl, calls, key, j, m) && (calls[m].Call? ==> calls[j].now >= calls[m].now - ttl))
    ensures Owns(ttl, calls, key, m, m + 1) <==> calls[m].Call? && calls[m].key == key && Wins(ttl, calls, m)
  {
    hide Wins;
  }

  /** Under any clocks: a call is told its key is fresh exactly when no earlier call that was told so
      on that key is left unevicted by the calls after it, up to and with this one. */
  lemma WinsIff(ttl: real, calls: seq<Call>, i: nat)
    requires i < |calls| && calls[i].Call?
    ensures Wins(ttl, calls, i) <==>
            forall j :: 0 <= j < i && calls[j].Call? && calls[j].key == calls[i].key && Wins(ttl, calls, j)
              ==> !KeptUntil(ttl, calls, j, i + 1)
  {
    RowsAreOwned(ttl, calls, calls[i].key, i);
    OwnsNext(ttl, calls, calls[i].key, i);
  }

  /** Calls on one key, made by any processes in any order, whose clock readings spread
      over no more than the TTL: exactly the first to commit wins, whatever other keys do. */
  lemma ExactlyOneWinner(ttl: real, calls: seq<Call>, key: string)
    requires forall i, j :: 0 <= i < |calls| && 0 <= j < |calls| && calls[i].Call? && calls[j].Call?
               ==> calls[i].now <= calls[j].now + ttl
    ensures forall i :: 0 <= i < |calls| && calls[i].Call? && calls[i].key == key ==>
              (Wins(ttl, calls, i) <==> forall j :: 0 <= j < i && calls[j].Call? ==> calls[j].key != key)
  {
    forall i | 0 <= i < |calls| && calls[i].Call? && calls[i].key == key
      ensures Wins(ttl, calls, i) <==> forall j :: 0 <= j < i && calls[j].Call? ==> calls[j].key != key
    {
      RowsInWindow(ttl, calls, key, i);
    }
  }

  lemma {:induction false} RowsInWindow(ttl: real, calls: seq<Call>, key: string, n: nat)
    requires n <= |calls|
    requires forall i, j :: 0 <= i < |calls| && 0 <= j < |calls| && calls[i].Call? && calls[j].Call?
               ==> calls[i].now <= calls[j].now + ttl
    ensures key in DurableRows(ttl, calls, n) <==> exists j :: 0 <= j < n && calls[j].Call? && calls[j].key == key
    ensures key in DurableRows(ttl, calls, n) ==>
              exists j :: 0 <= j < n && calls[j].Call? && calls[j].now == DurableRows(ttl, calls, n)[key]
  {
    if n > 0 {
      RowsInWindow(ttl, calls, key, n - 1);
      assert calls[n - 1].Call? ==> calls[n - 1].key == calls[n - 1].key;
    }
  }

  // ----- Freshness and the accept gate -----

  datatype Limits = Limits(maxAge: real, maxSkew: real, ttl: real)

  const DEFAULTS := Limits(DEFAULT_MAX_AGE, DEFAULT_MAX_SKEW, NONCE_TTL)

  datatype Verdict = Accepted(envelope: Envelope) | SignatureError | StaleError | ReplayError

  predicate Fresh(env: Envelope, limits: Limits, now: real) {
    env.created.Some? && -limits.maxSkew <= now - env.created.value <= limits.maxAge
  }

  /** One delivery attempt: the bytes, what the verifier says of them, and the two clocks
      read while it is processed (freshness first, cache second). */
  datatype Attempt = Attempt(signed: SignedEnvelope, valid: bool, freshClock: real, cacheClock: real) {
    function CacheKey(): string { Key(signed.envelope.from_fqid, signed.envelope.nonce) }

    /** Reaches the cache: signed, verified and fresh. */
    predicate Admissible(limits: Limits) {
      signed.IsSigned() && valid && Fresh(signed.envelope, limits, freshClock)
    }
  }

  method CheckFreshness(env: Envelope, limits: Limits, now: real) returns (stale: bool)
    ensures stale <==> !Fresh(env, limits, now)
  {
    if env.created == None { return true; }
    var age := now - env.created.value;
    if age > limits.maxAge { return true; }
    if age < -limits.maxSkew { return true; }
    return false;
  }

  function AcceptSpec(seen: map<string, real>, limits: Limits, a: Attempt): (map<string, real>, Verdict) {
    if !(a.signed.IsSigned() && a.valid) then (seen, SignatureError)
    else if !Fresh(a.signed.envelope, limits, a.freshClock) then (seen, StaleError)
    else
      var c := CheckAndAddSpec(seen, limits.ttl, a.CacheKey(), a.cacheClock);
      (c.seen, if c.added then Accepted(a.signed.envelope) else ReplayError)
  }

  /** Either cache serves the gate. */
  datatype Cache = Memory(memory: NonceCache) | Durable(durable: DurableNonceCache) {
    function Store(): object {
      match this case Memory(m) => m case Durable(d) => d
    }

    function Ttl(): real {
      match this case Memory(m) => m.ttl case Durable(d) => d.ttl
    }

    function Rows(): map<string, real>
      reads Store()
    {
      match this case Memory(m) => m.seen case Durable(d) => d.table
    }

    method CheckAndAdd(from_fqid: string, nonce: string, now: real) returns (added: bool)
      modifies Store()
      ensures CacheResult(Rows(), added) == CheckAndAddSpec(old(Rows()), Ttl(), Key(from_fqid, nonce), now)
    {
      match this
      case Memory(m) => added := m.CheckAndAdd(from_fqid, nonce, now);
      case Durable(d) => added := d.CheckAndAdd(from_fqid, nonce, now);
    }
  }

  method AcceptSigned(a: Attempt, limits: Limits, cache: Cache) returns (v: Verdict)
    requires cache.Ttl() == limits.ttl
    modifies cache.Store()
    ensures (cache.Rows(), v) == AcceptSpec(old(cache.Rows()), limits, a)
  {
    if !a.signed.IsSigned() { return SignatureError; }
    if !a.valid { return SignatureError; }
    var env := a.signed.envelope;
    var stale := CheckFreshness(env, limits, a.freshClock);
    if stale { return StaleError; }
    var added := cache.CheckAndAdd(env.from_fqid, env.nonce, a.cacheClock);
    if !added { return ReplayError; }
    return Accepted(env);
  }

  predicate Authentic(a: Attempt) {
    a.signed.signature != "" && a.valid
  }

  /** Neither older than the maximum age nor further ahead than the skew. */
  predicate Timely(env: Envelope, limits: Limits, now: real) {
    env.created.Some? && now - env.created.value <= limits.maxAge && env.created.value - now <= limits.maxSkew
  }

  /** The key of an attempt has a row no older than the TTL. */
  predicate IsSeen(seen: map<string, real>, limits: Limits, a: Attempt) {
    var key := a.signed.envelope.from_fqid + [SEPARATOR] + a.signed.envelope.nonce;
    key in seen && seen[key] >= a.cacheClock - limits.ttl
  }

  /** The gate on every attempt and every cache: what each verdict means, and which rows it leaves. */
  lemma VerdictIff(seen: map<string, real>, limits: Limits, a: Attempt)
    ensures var (rows, v) := AcceptSpec(seen, limits, a);
            var env := a.signed.envelope;
            var reaches := Authentic(a) && Timely(env, limits, a.freshClock);
            && (v == SignatureError <==> !Authentic(a))
            && (v == StaleError <==> Authentic(a) && !Timely(env, limits, a.freshClock))
            && (v == ReplayError <==> reaches && IsSeen(seen, limits, a))
            && (v == Accepted(env) <==> reaches && !IsSeen(seen, limits, a))
            && (v.Accepted? ==> v.envelope == env)
            && (!reaches ==> rows == seen)
            && (reaches ==> forall k :: k in rows <==>
                  (k in seen && seen[k] >= a.cacheClock - limits.ttl) || (v.Accepted? && k == a.CacheKey()))
            && (forall k :: k in rows ==>
                  if v.Accepted? && k == a.CacheKey() then rows[k] == a.cacheClock else k in seen && rows[k] == seen[k])
  {
  }

  // ----- Whole runs -----

  /** The cache after the first `n` attempts of a run. */
  function Seen(limits: Limits, run: seq<Attempt>, n: nat): map<string, real>
    requires n <= |run|
  {
    if n == 0 then map[] else AcceptSpec(Seen(limits, run, n - 1), limits, run[n - 1]).0
  }

  function VerdictAt(limits: Limits, run: seq<Attempt>, i: nat): Verdict
    requires i < |run|
  {
    AcceptSpec(Seen(limits, run, i), limits, run[i]).1
  }

  predicate AcceptedAt(limits: Limits, run: seq<Attempt>, i: nat)
    requires i < |run|
  {
    VerdictAt(limits, run, i).Accepted?
  }

  /** No attempt that reached the cache in run[i+1..n] could evict what attempt `i` recorded. */
  predicate Undisturbed(limits: Limits, run: seq<Attempt>, i: nat, n: nat)
    requires i < n <= |run|
  {
    forall m :: i < m < n && run[m].Admissible(limits) ==> run[m].cacheClock <= run[i].cacheClock + limits.ttl
  }

  /** Attempt `i` was accepted with this key and clock and nothing has evicted it before `n`. */
  predicate Recorded(limits: Limits, run: seq<Attempt>, i: nat, n: nat, key: string, ts: real)
    requires i < n <= |run|
  {
    AcceptedAt(limits, run, i) && run[i].CacheKey() == key && run[i].cacheClock == ts
    && Undisturbed(limits, run, i, n)
  }

  ghost predicate SomeRecorded(limits: Limits, run: seq<Attempt>, n: nat, key: string, ts: real)
    requires n <= |run|
  {
    exists i :: 0 <= i < n && Recorded(limits, run, i, n, key, ts)
  }

  lemma RecordedStep(limits: Limits, run: seq<Attempt>, n: nat, key: string, ts: real)
    requires 0 < n <= |run|
    ensures SomeRecorded(limits, run, n, key, ts) <==>
            || (AcceptedAt(limits, run, n - 1) && run[n - 1].CacheKey() == key && run[n - 1].cacheClock == ts)
            || (SomeRecorded(limits, run, n - 1, key, ts)
                && (run[n - 1].Admissible(limits) ==> run[n - 1].cacheClock <= ts + limits.ttl))
  {
    if AcceptedAt(limits, run, n - 1) && run[n - 1].CacheKey() == key && run[n - 1].cacheClock == ts {
      assert Recorded(limits, run, n - 1, n, key, ts);
    }
    var k := n - 1;
    if i :| 0 <= i < k && Recorded(limits, run, i, k, key, ts) {
      if run[n - 1].Admissible(limits) ==> run[n - 1].cacheClock <= ts + limits.ttl {
        assert Recorded(limits, run, i, n, key, ts);
      }
    }
    if i :| 0 <= i < n - 1 && Recorded(limits, run, i, n, key, ts) {
      assert Recorded(limits, run, i, n - 1, key, ts);
    }
  }

  /** The cache holds exactly the keys of accepted attempts that nothing has evicted since:
      a forged or stale envelope never enters it and never evicts anything. */
  lemma {:induction false} SeenExactly(limits: Limits, run: seq<Attempt>, n: nat, key: string, ts: real)
    requires n <= |run|
    ensures (key in Seen(limits, run, n) && Seen(limits, run, n)[key] == ts) <==>
            SomeRecorded(limits, run, n, key, ts)
  {
    if n > 0 {
      SeenExactly(limits, run, n - 1, key, ts);
      RecordedStep(limits, run, n, key, ts);
      SeenFunctional(limits, run, n - 1, key, ts);
    }
  }

  /** What one more attempt does to one row. */
  lemma SeenFunctional(limits: Limits, run: seq<Attempt>, n: nat, key: string, ts: real)
    requires n < |run|
    ensures var s, s' := Seen(limits, run, n), Seen(limits, run, n + 1);
            (key in s' && s'[key] == ts) <==>
            || (AcceptedAt(limits, run, n) && run[n].CacheKey() == key && run[n].cacheClock == ts)
            || (key in s && s[key] == ts && (run[n].Admissible(limits) ==> run[n].cacheClock <= ts + limits.ttl))
  {
  }

  /** Over any run and any clocks: an attempt is accepted exactly when it is signed, verified and
      timely, and no earlier accepted attempt on its key is left unevicted by the admissible attempts
      after it, up to and with this one. */
  lemma AcceptedIff(limits: Limits, run: seq<Attempt>, i: nat)
    requires i < |run|
    ensures AcceptedAt(limits, run, i) <==>
            && Authentic(run[i]) && Timely(run[i].signed.envelope, limits, run[i].freshClock)
            && forall j :: 0 <= j < i && AcceptedAt(limits, run, j) && run[j].CacheKey() == run[i].CacheKey()
                 ==> !Undisturbed(limits, run, j, i + 1)
  {
    var seen, key := Seen(limits, run, i), run[i].CacheKey();
    VerdictIff(seen, limits, run[i]);
    if run[i].Admissible(limits) {
      UndisturbedNext(limits, run, i);
      if key in seen { SeenExactly(limits, run, i, key, seen[key]); }
      forall j | 0 <= j < i && AcceptedAt(limits, run, j) && run[j].CacheKey() == key && Undisturbed(limits, run, j, i)
        ensures key in seen && seen[key] == run[j].cacheClock
      {
        assert Recorded(limits, run, j, i, key, run[j].cacheClock);
        SeenExactly(limits, run, i, key, run[j].cacheClock);
      }
    }
  }

  lemma UndisturbedNext(limits: Limits, run: seq<Attempt>, i: nat)
    requires i < |run| && run[i].Admissible(limits)
    ensures forall j :: 0 <= j < i ==>
              (Undisturbed(limits, run, j, i + 1) <==>
               Undisturbed(limits, run, j, i) && run[i].cacheClock <= run[j].cacheClock + limits.ttl)
  {
  }

  /** Clock readings of a run: the cache clock is read after the freshness clock and at most
      `gap` later, and attempts reach the cache in clock order up to `jitter` (a thread may
      read its clock before another that takes the lock first). */
  predicate Clocked(run: seq<Attempt>, gap: real, jitter: real) {
    && (forall i :: 0 <= i < |run| ==> run[i].freshClock <= run[i].cacheClock <= run[i].freshClock + gap)
    && (forall i, j :: 0 <= i < j < |run| ==> run[i].cacheClock <= run[j].cacheClock + jitter)
  }

  /** Two attempts carry the same envelope and both are accepted. */
  predicate DoubleAccept(limits: Limits, run: seq<Attempt>, i: nat, j: nat)
    requires i < j < |run|
  {
    AcceptedAt(limits, run, i) && AcceptedAt(limits, run, j) && run[i].signed.envelope == run[j].signed.envelope
  }

  ghost predicate ReplaySafe(limits: Limits, gap: real, jitter: real) {
    forall run, i, j :: 0 <= i < j < |run| && Clocked(run, gap, jitter) ==> !DoubleAccept(limits, run, i, j)
  }

  /** Two accepts of one key are more than a TTL apart on the cache clock, up to the jitter. */
  lemma AcceptsFarApart(limits: Limits, run: seq<Attempt>, i: nat, j: nat, gap: real, jitter: real)
    requires i < j < |run| && Clocked(run, gap, jitter)
    requires AcceptedAt(limits, run, i) && AcceptedAt(limits, run, j) && run[i].CacheKey() == run[j].CacheKey()
    ensures jitter >= 0.0 ==> run[j].cacheClock + jitter > run[i].cacheClock + limits.ttl
  {
    if jitter >= 0.0 && run[j].cacheClock + jitter <= run[i].cacheClock + limits.ttl {
      assert Recorded(limits, run, i, j, run[i].CacheKey(), run[i].cacheClock);
      SeenExactly(limits, run, j, run[i].CacheKey(), run[i].cacheClock);
      assert false;
    }
  }

  /** At most once, and exactly when: no clocked run accepts an envelope twice if and only if
      the window, the clock gap and the jitter fit in the TTL. */
  lemma ReplaySafeIff(limits: Limits, gap: real, jitter: real)
    requires limits.maxAge >= 0.0 && limits.maxSkew >= 0.0 && gap >= 0.0 && jitter >= 0.0
    ensures ReplaySafe(limits, gap, jitter) <==>
            limits.maxAge + limits.maxSkew + gap + jitter <= limits.ttl
  {
    if limits.maxAge + limits.maxSkew + gap + jitter <= limits.ttl {
      forall run: seq<Attempt>, i, j | 0 <= i < j < |run| && Clocked(run, gap, jitter)
        ensures !DoubleAccept(limits, run, i, j)
      {
        if DoubleAccept(limits, run, i, j) {
          AcceptsFarApart(limits, run, i, j, gap, jitter);
          assert false;
        }
      }
    } else {
      ShortTtlDoubleAccepts(limits, gap, jitter);
    }
  }

  function Probe(nonce: string, created: real): SignedEnvelope {
    SignedEnvelope(
      Envelope("id", nonce, "a@o.r", "b@o.r", Some(created), "text/plain", "hi", None, None, map[], None),
      "sig")
  }

  /** A run that accepts one envelope twice: as early as the skew allows, then as late as the
      age allows, with another sender's attempt in between that carries the latest clock. */
  lemma ShortTtlDoubleAccepts(limits: Limits, gap: real, jitter: real)
    requires limits.maxAge >= 0.0 && limits.maxSkew >= 0.0 && gap >= 0.0 && jitter >= 0.0
    requires limits.maxAge + limits.maxSkew + gap + jitter > limits.ttl
    ensures exists run :: |run| == 3 && Clocked(run, gap, jitter) && DoubleAccept(limits, run, 0, 2)
  {
    var late := limits.maxAge + gap;
    var first := Attempt(Probe("n", 0.0), true, -limits.maxSkew, -limits.maxSkew);
    var other := Attempt(Probe("m", late + jitter), true, late + jitter, late + jitter);
    var again := Attempt(Probe("n", 0.0), true, limits.maxAge, late);
    var run := [first, other, again];
    var n, m := first.CacheKey(), other.CacheKey();
    assert n[|n| - 1] != m[|m| - 1];
    assert Seen(limits, run, 0) == map[];
    assert Seen(limits, run, 1) == map[n := -limits.maxSkew];
    assert Seen(limits, run, 2) == map[m := late + jitter];
    assert Seen(limits, run, 2) == AcceptSpec(Seen(limits, run, 1), limits, other).0;
    assert AcceptedAt(limits, run, 0) && AcceptedAt(limits, run, 2);
    assert Clocked(run, gap, jitter) && DoubleAccept(limits, run, 0, 2);
  }

  /** The default constants leave exactly sixty seconds for the clock gap and the jitter. */
  lemma DefaultSlack(gap: real, jitter: real)
    requires gap >= 0.0 && jitter >= 0.0
    ensures ReplaySafe(DEFAULTS, gap, jitter) <==> gap + jitter <= 60.0
  {
    ReplaySafeIff(DEFAULTS, gap, jitter);
  }

  // ----- Cache keys -----

  lemma KeyParts(f: string, n: string, f': string, n': string)
    requires SEPARATOR !in f && SEPARATOR !in n && Key(f', n') == Key(f, n)
    ensures f' == f && n' == n
  {
    var k := Key(f, n);
    assert forall i :: 0 <= i < |k| && i != |f| ==> k[i] != SEPARATOR;
    assert k[|f'|] == SEPARATOR;
    assert f' == k[..|f|] == f && n' == k[|f| + 1..] == n;
  }

  /** A key names one (sender, nonce) pair exactly when neither part holds the separator;
      otherwise a different pair is refused as its replay. */
  lemma KeyNamesOnePairIff(f: string, n: string)
    ensures (forall f', n' :: Key(f', n') == Key(f, n) ==> f' == f && n' == n) <==>
            SEPARATOR !in f && SEPARATOR !in n
  {
    if SEPARATOR !in f && SEPARATOR !in n {
      forall f', n' | Key(f', n') == Key(f, n) ensures f' == f && n' == n { KeyParts(f, n, f', n'); }
    } else if SEPARATOR in f {
      var i :| 0 <= i < |f| && f[i] == SEPARATOR;
      var f', n' := f[..i], f[i + 1..] + [SEPARATOR] + n;
      assert f == f[..i] + [SEPARATOR] + f[i + 1..];
      assert Key(f', n') == Key(f, n) && |f'| != |f|;
    } else {
      var i :| 0 <= i < |n| && n[i] == SEPARATOR;
      var f', n' := f + [SEPARATOR] + n[..i], n[i + 1..];
      assert n == n[..i] + [SEPARATOR] + n[i + 1..];
      assert Key(f', n') == Key(f, n) && |f'| != |f|;
    }
  }
}
