/** The per-client rate limiters, sharded by a hash of the address and evicted when they expire,
    against the plain map that never evicts anything. */
module RateLimiter {

  /** `limiter` names the token bucket; a fresh one gets a fresh name. */
  datatype Client = Client(limiter: nat, lastSeen: int)

  type Shard = map<string, Client>

  /** The clock readings of one lookup, in the order they are taken. */
  datatype Readings = Readings(check: int, evict: int, stamp: int)

  predicate InOrder(r: Readings) { r.check <= r.evict <= r.stamp }

  predicate Expired(c: Client, now: int, expireTime: int) { now - c.lastSeen > expireTime }

  predicate Hit(m: Shard, ip: string, now: int, expireTime: int) {
    ip in m && !Expired(m[ip], now, expireTime)
  }

  // ---------- the reference: one map, nothing is ever evicted ----------

  /** An address is known as long as it was last seen no longer than the expire time ago. */
  predicate Known(m: Shard, ip: string, now: int, expireTime: int) {
    ip in m && now <= m[ip].lastSeen + expireTime
  }

  function Answer(m: Shard, ip: string, r: Readings, expireTime: int, newest: nat): Client {
    Client(if Known(m, ip, r.check, expireTime) then m[ip].limiter else newest, r.stamp)
  }

  function Remember(m: Shard, ip: string, r: Readings, expireTime: int, newest: nat): Shard {
    m[ip := Answer(m, ip, r, expireTime, newest)]
  }

  // ---------- one shard ----------

  function Evict(m: Shard, now: int, expireTime: int): Shard {
    map ip | ip in m && !Expired(m[ip], now, expireTime) :: m[ip]
  }

  function Replaced(rest: Shard, ip: string, r: Readings, expireTime: int, limit: nat, newest: nat): Shard {
    (if |rest| >= limit then Evict(rest, r.evict, expireTime) else rest)[ip := Client(newest, r.stamp)]
  }

  /** An expired entry is dropped and replaced; the others are swept when the shard is full. */
  function Lookup(m: Shard, ip: string, r: Readings, expireTime: int, limit: nat, newest: nat): Shard {
    if Hit(m, ip, r.check, expireTime) then m[ip := m[ip].(lastSeen := r.stamp)]
    else Replaced(m - {ip}, ip, r, expireTime, limit, newest)
  }

  // ---------- the limiter ----------

  /** `created` limiters so far; a shard's clock bounds every reading used under its lock so far. */
  datatype State = State(shards: seq<Shard>, created: nat, clocks: seq<int>)

  predicate StateOk(c: Config, s: State) { c.numShards > 0 && |s.shards| == |s.clocks| == c.numShards }

  datatype Config = Config(hash: string -> nat, numShards: nat, maxSize: nat, expireTime: int)

  predicate ConfigOk(c: Config) { c.numShards > 0 }

  function Index(c: Config, ip: string): nat
    requires ConfigOk(c)
  {
    c.hash(ip) % c.numShards
  }

  datatype Op =
    | Get(ip: string, r: Readings)
    | Clean(shard: nat, now: int)   // one shard of a cleanup pass; `now` was read when the pass began

  function Max(a: int, b: int): int { if a < b then b else a }

  /** Only lookups under the same lock are ordered; those in other shards may overlap this one. */
  predicate Enabled(c: Config, s: State, op: Op)
    requires StateOk(c, s)
  {
    match op
    case Get(ip, r) => InOrder(r) && s.clocks[Index(c, ip)] <= r.check
    case Clean(shard, _) => shard < |s.shards|
  }

  function Apply(c: Config, s: State, op: Op): (s': State)
    requires StateOk(c, s) && Enabled(c, s, op)
    ensures StateOk(c, s')
  {
    match op
    case Get(ip, r) =>
      var i := Index(c, ip);
      State(s.shards[i := Lookup(s.shards[i], ip, r, c.expireTime, c.maxSize / c.numShards, s.created)],
            if Hit(s.shards[i], ip, r.check, c.expireTime) then s.created else s.created + 1, s.clocks[i := r.stamp])
    case Clean(shard, now) =>
      s.(shards := s.shards[shard := Evict(s.shards[shard], now, c.expireTime)],
         clocks := s.clocks[shard := Max(s.clocks[shard], now)])
  }

  function Returned(c: Config, s: State, op: Op): Client
    requires StateOk(c, s) && Enabled(c, s, op) && op.Get?
  {
    var i := Index(c, op.ip);
    Apply(c, s, op).shards[i][op.ip]
  }

  /** What the limiter hands out along a run, and what the reference would. */
  function Answers(c: Config, s: State, ops: seq<Op>): seq<Client>
    requires StateOk(c, s) && ValidOps(c, s, ops)
    decreases |ops|
  {
    if ops == [] then []
    else (if ops[0].Get? then [Returned(c, s, ops[0])] else []) + Answers(c, Apply(c, s, ops[0]), ops[1..])
  }

  predicate ValidOps(c: Config, s: State, ops: seq<Op>)
    requires StateOk(c, s)
    decreases |ops|
  {
    ops == [] || (Enabled(c, s, ops[0]) && ValidOps(c, Apply(c, s, ops[0]), ops[1..]))
  }

  function ReferenceAnswers(m: Shard, created: nat, ops: seq<Op>, expireTime: int): seq<Client>
    decreases |ops|
  {
    if ops == [] then []
    else match ops[0]
      case Clean(_, _) => ReferenceAnswers(m, created, ops[1..], expireTime)
      case Get(ip, r) =>
        [Answer(m, ip, r, expireTime, created)] +
        ReferenceAnswers(Remember(m, ip, r, expireTime, created),
                         if Known(m, ip, r.check, expireTime) then created else created + 1, ops[1..], expireTime)
  }

  // ---------- eviction cannot be observed ----------

  /** An entry lives only in the shard of its hash and agrees with the reference. */
  ghost predicate Placed(c: Config, shards: seq<Shard>, m: Shard)
    requires ConfigOk(c)
  {
    forall i, ip :: 0 <= i < |shards| && ip in shards[i] ==> i == Index(c, ip) && ip in m && shards[i][ip] == m[ip]
  }

  /** What the reference has and the shards do not has expired for good. */
  ghost predicate OnlyExpiredLost(c: Config, shards: seq<Shard>, m: Shard, clocks: seq<int>)
    requires ConfigOk(c) && |shards| == |clocks| == c.numShards
  {
    forall ip :: ip in m && ip !in shards[Index(c, ip)] ==> Expired(m[ip], clocks[Index(c, ip)], c.expireTime)
  }

  ghost predicate Mirrors(c: Config, s: State, m: Shard) {
    StateOk(c, s) && Placed(c, s.shards, m) && OnlyExpiredLost(c, s.shards, m, s.clocks)
  }

  /** A lookup leaves the other entries of its shard alone, except that expired ones may go. */
  lemma OtherEntries(m: Shard, ip: string, r: Readings, expireTime: int, limit: nat, newest: nat, other: string)
    requires other != ip
    ensures var m' := Lookup(m, ip, r, expireTime, limit, newest);
      && (other in m' ==> other in m && m'[other] == m[other])
      && (other in m && other !in m' ==> Expired(m[other], r.evict, expireTime))
  {
  }

  lemma GetAnswers(c: Config, s: State, m: Shard, ip: string, r: Readings)
    requires Mirrors(c, s, m) && Enabled(c, s, Get(ip, r))
    ensures Hit(s.shards[Index(c, ip)], ip, r.check, c.expireTime) == Known(m, ip, r.check, c.expireTime)
    ensures Returned(c, s, Get(ip, r)) == Answer(m, ip, r, c.expireTime, s.created)
  {
  }

  lemma PlacedAfter(c: Config, shards: seq<Shard>, m: Shard, ip: string, shard': Shard, client: Client)
    requires ConfigOk(c) && |shards| == c.numShards && Placed(c, shards, m)
    requires ip in shard' && shard'[ip] == client
    requires forall other :: other in shard' && other != ip ==>
      other in shards[Index(c, ip)] && shard'[other] == shards[Index(c, ip)][other]
    ensures Placed(c, shards[Index(c, ip) := shard'], m[ip := client])
  {
  }

  lemma GetPlaces(c: Config, s: State, m: Shard, ip: string, r: Readings)
    requires Mirrors(c, s, m) && Enabled(c, s, Get(ip, r))
    ensures Placed(c, Apply(c, s, Get(ip, r)).shards, Remember(m, ip, r, c.expireTime, s.created))
  {
    GetAnswers(c, s, m, ip, r);
    var shard := s.shards[Index(c, ip)];
    var shard' := Lookup(shard, ip, r, c.expireTime, c.maxSize / c.numShards, s.created);
    forall other | other in shard' && other != ip ensures other in shard && shard'[other] == shard[other] {
      OtherEntries(shard, ip, r, c.expireTime, c.maxSize / c.numShards, s.created, other);
    }
    PlacedAfter(c, s.shards, m, ip, shard', Answer(m, ip, r, c.expireTime, s.created));
  }

  lemma LostAfter(c: Config, shards: seq<Shard>, clocks: seq<int>, m: Shard, ip: string, shard': Shard, client: Client,
                  clock: int)
    requires ConfigOk(c) && |shards| == |clocks| == c.numShards && OnlyExpiredLost(c, shards, m, clocks)
    requires ip in shard' && clocks[Index(c, ip)] <= clock
    requires forall other :: other in m && other in shards[Index(c, ip)] && other !in shard' ==>
      Expired(m[other], clock, c.expireTime)
    ensures OnlyExpiredLost(c, shards[Index(c, ip) := shard'], m[ip := client], clocks[Index(c, ip) := clock])
  {
    var at, m', clocks' := Index(c, ip), m[ip := client], clocks[Index(c, ip) := clock];
    forall other | other in m' && other !in shards[at := shard'][Index(c, other)]
      ensures Expired(m'[other], clocks'[Index(c, other)], c.expireTime)
    {
      assert other != ip && m'[other] == m[other];
      if Index(c, other) == at {
        assert other in shards[at] || Expired(m[other], clocks[at], c.expireTime);
      }
    }
  }

  lemma GetLosesExpired(c: Config, s: State, m: Shard, ip: string, r: Readings)
    requires Mirrors(c, s, m) && Enabled(c, s, Get(ip, r))
    ensures OnlyExpiredLost(c, Apply(c, s, Get(ip, r)).shards, Remember(m, ip, r, c.expireTime, s.created),
                            Apply(c, s, Get(ip, r)).clocks)
  {
    var shard := s.shards[Index(c, ip)];
    var shard' := Lookup(shard, ip, r, c.expireTime, c.maxSize / c.numShards, s.created);
    forall other | other in m && other in shard && other !in shard' ensures Expired(m[other], r.stamp, c.expireTime) {
      if other != ip {
        OtherEntries(shard, ip, r, c.expireTime, c.maxSize / c.numShards, s.created, other);
      }
    }
    LostAfter(c, s.shards, s.clocks, m, ip, shard', Answer(m, ip, r, c.expireTime, s.created), r.stamp);
  }

  lemma CleanMirrors(c: Config, s: State, m: Shard, shard: nat, now: int)
    requires Mirrors(c, s, m) && Enabled(c, s, Clean(shard, now))
    ensures Mirrors(c, Apply(c, s, Clean(shard, now)), m)
  {
  }

  /** An empty limiter, at some time. */
  function Empty(c: Config, start: int): (s: State)
    ensures ConfigOk(c) ==> StateOk(c, s)
  {
    State(seq(c.numShards, _ => map[]), 0, seq(c.numShards, _ => start))
  }

  function End(c: Config, s: State, ops: seq<Op>): (end: State)
    requires StateOk(c, s) && ValidOps(c, s, ops)
    ensures StateOk(c, end)
    decreases |ops|
  {
    if ops == [] then s else End(c, Apply(c, s, ops[0]), ops[1..])
  }

  /** What the map that never evicts holds at the end. */
  function ReferenceEnd(m: Shard, created: nat, ops: seq<Op>, expireTime: int): Shard
    decreases |ops|
  {
    if ops == [] then m
    else match ops[0]
      case Clean(_, _) => ReferenceEnd(m, created, ops[1..], expireTime)
      case Get(ip, r) =>
        ReferenceEnd(Remember(m, ip, r, expireTime, created),
                     if Known(m, ip, r.check, expireTime) then created else created + 1, ops[1..], expireTime)
  }

  lemma {:induction false} AnswersMirror(c: Config, s: State, m: Shard, ops: seq<Op>)
    requires Mirrors(c, s, m) && ValidOps(c, s, ops)
    ensures Answers(c, s, ops) == ReferenceAnswers(m, s.created, ops, c.expireTime)
    ensures Mirrors(c, End(c, s, ops), ReferenceEnd(m, s.created, ops, c.expireTime))
    decreases |ops|
  {
    if ops != [] {
      match ops[0]
      case Get(ip, r) =>
        GetAnswers(c, s, m, ip, r);
        GetPlaces(c, s, m, ip, r);
        GetLosesExpired(c, s, m, ip, r);
        AnswersMirror(c, Apply(c, s, ops[0]), Remember(m, ip, r, c.expireTime, s.created), ops[1..]);
      case Clean(shard, now) =>
        CleanMirrors(c, s, m, shard, now);
        AnswersMirror(c, Apply(c, s, ops[0]), m, ops[1..]);
    }
  }

  /** For any hash, any sizes and any interleaving of lookups, evictions and cleanups in which the
      clock does not run backwards under any one lock, every client gets the limiter it would get
      from the map that never evicts: the same one, or a fresh one at exactly the same lookups. */
  lemma EvictionIsUnobservable(c: Config, start: int, ops: seq<Op>)
    requires ConfigOk(c) && ValidOps(c, Empty(c, start), ops)
    ensures Answers(c, Empty(c, start), ops) == ReferenceAnswers(map[], 0, ops, c.expireTime)
  {
    AnswersMirror(c, Empty(c, start), map[], ops);
  }

  /** At the end of every run each address has at most one entry, in the shard of its hash, and it
      is the entry of the map that never evicts. */
  lemma EntriesStayInTheirShard(c: Config, start: int, ops: seq<Op>, i: nat, ip: string)
    requires ConfigOk(c) && ValidOps(c, Empty(c, start), ops)
    requires i < c.numShards && ip in End(c, Empty(c, start), ops).shards[i]
    ensures var end, m := End(c, Empty(c, start), ops), ReferenceEnd(map[], 0, ops, c.expireTime);
      i == Index(c, ip) && ip in m && end.shards[i][ip] == m[ip]
  {
    AnswersMirror(c, Empty(c, start), map[], ops);
  }

  /** Lookups under different locks may overlap in any way; only those under one lock follow each
      other. */
  lemma OverlapIsAllowed(c: Config, start: int, a: string, ra: Readings, b: string, rb: Readings)
    requires ConfigOk(c) && start <= ra.check && start <= rb.check
    ensures ValidOps(c, Empty(c, start), [Get(a, ra), Get(b, rb)]) <==>
      && ra.check <= ra.evict <= ra.stamp && rb.check <= rb.evict <= rb.stamp
      && (Index(c, a) == Index(c, b) ==> ra.stamp <= rb.check)
  {
    var ops := [Get(a, ra), Get(b, rb)];
    assert ops[1..] == [ops[1]] && [ops[1]][1..] == [];
    if Enabled(c, Empty(c, start), ops[0]) {
      var s := Apply(c, Empty(c, start), ops[0]);
      assert ValidOps(c, s, [ops[1]]) <==> Enabled(c, s, ops[1]);
    }
  }

  /** A clock that runs backwards is what the claim excludes: an entry evicted at a late reading
      is still wanted at an earlier one. */
  lemma BackwardClockIsObservable(m: Shard, ip: string, late: int, early: int, expireTime: int)
    requires ip in m && Expired(m[ip], late, expireTime) && !Expired(m[ip], early, expireTime)
    ensures !Hit(Evict(m, late, expireTime), ip, early, expireTime) && Hit(m, ip, early, expireTime) && early < late
  {
  }

  // ---------- the code ----------

  class IPRateLimiter {
    const config: Config
    var shards: array<Shard>
    var created: nat
    ghost var clocks: seq<int>

    ghost predicate Valid() reads this { config.numShards > 0 && shards.Length == |clocks| == config.numShards }

    ghost function Current(): State reads this, shards { State(shards[..], created, clocks) }

    constructor (config: Config, start: int)
      requires ConfigOk(config)
      ensures Valid() && fresh(shards) && this.config == config && Current() == Empty(config, start)
    {
      this.config := config;
      shards := new Shard[config.numShards](_ => map[]);
      created, clocks := 0, seq(config.numShards, _ => start);
    }

    method EvictExpired(i: nat, now: int)
      requires Valid() && i < shards.Length
      modifies shards
      ensures shards[..] == old(shards[..])[i := Evict(old(shards[i]), now, config.expireTime)]
    {
      var rest := shards[i].Keys;
      while rest != {}
        invariant rest <= old(shards[i]).Keys
        invariant shards[i] == old(shards[i]) -
          set ip | ip in old(shards[i]).Keys - rest && Expired(old(shards[i])[ip], now, config.expireTime)
        invariant shards[..] == old(shards[..])[i := shards[i]]
        decreases rest
      {
        var ip :| ip in rest;
        if now - shards[i][ip].lastSeen > config.expireTime {
          shards[i] := shards[i] - {ip};
        }
        rest := rest - {ip};
      }
      assert shards[i] == Evict(old(shards[i]), now, config.expireTime);
    }

    /** The end of a lookup that found nothing usable. */
    method CreateClient(i: nat, ip: string, r: Readings) returns (client: Client)
      requires Valid() && i < shards.Length && ip !in shards[i]
      modifies this`created, shards
      ensures client == Client(old(created), r.stamp) && created == old(created) + 1
      ensures shards[..] == old(shards[..])[i := Replaced(old(shards[i]), ip, r, config.expireTime,
                                                          config.maxSize / config.numShards, old(created))]
    {
      if |shards[i]| >= config.maxSize / config.numShards {
        EvictExpired(i, r.evict);
      }
      client := Client(created, r.stamp);
      created := created + 1;
      shards[i] := shards[i][ip := client];
    }

    method GetClientLimiter(ip: string, r: Readings) returns (client: Client)
      requires Valid() && Enabled(config, Current(), Get(ip, r))
      modifies this`created, this`clocks, shards
      ensures Valid() && shards == old(shards) && Current() == Apply(config, old(Current()), Get(ip, r))
      ensures client == Returned(config, old(Current()), Get(ip, r))
    {
      var i := config.hash(ip) % config.numShards;
      clocks := clocks[i := r.stamp];
      if ip in shards[i] {
        if r.check - shards[i][ip].lastSeen > config.expireTime {
          shards[i] := shards[i] - {ip};
        } else {
          client := shards[i][ip].(lastSeen := r.stamp);
          shards[i] := shards[i][ip := client];
          return;
        }
      }
      assert shards[i] == old(shards[i]) - {ip};
      client := CreateClient(i, ip, r);
    }

    /** One shard of `cleanupAllShards`, under that shard's lock. */
    method CleanShard(i: nat, now: int)
      requires Valid() && i < shards.Length
      modifies this`clocks, shards
      ensures Valid() && shards == old(shards) && Current() == Apply(config, old(Current()), Clean(i, now))
    {
      EvictExpired(i, now);
      clocks := clocks[i := Max(clocks[i], now)];
    }
  }
}
