/** The forwarding backend's pool of per-destination sockets. */
module Forward {
  import opened Bytes
  import opened Net
  import Codec
  import Egress
  import Lru
  import Relay
  import Sets

  const IDLE_TTL: nat := 60_000_000_000
  const PER_SESSION_CAP: nat := 128
  const GLOBAL_CAP: nat := 512

  datatype Key = Key(sid: Codec.SessionId, dest: SocketAddr)

  /** Pooled sockets by their last use. */
  type Pool = map<Key, Instant>

  datatype Config = Config(echo: bool, policy: Egress.Policy)

  datatype Action = Drop | Echo(sid: Codec.SessionId, payload: seq<byte>) | Send(key: Key, datagram: seq<byte>) | Unopened

  function Live(pool: Pool, now: Instant): Pool { map k | k in pool && Since(now, pool[k]) <= IDLE_TTL :: pool[k] }

  function SessionKeys(pool: Pool, sid: Codec.SessionId): (ks: set<Key>)
    ensures ks <= pool.Keys
  {
    set k | k in pool && k.sid == sid
  }

  /** At the global cap one least recently used socket goes. */
  ghost predicate GlobalRoom(before: Pool, after: Pool) {
    if |before| >= GLOBAL_CAP then exists k :: Lru.IsOldest(before, before.Keys, k) && after == before - {k}
    else after == before
  }

  /** At the session cap its least recently used sockets go. */
  ghost predicate SessionRoom(before: Pool, sid: Codec.SessionId, after: Pool) {
    Lru.Trimmed(before, SessionKeys(before, sid), PER_SESSION_CAP - 1, after)
  }

  ghost predicate MadeRoom(before: Pool, sid: Codec.SessionId, after: Pool) {
    exists mid :: GlobalRoom(before, mid) && SessionRoom(mid, sid, after)
  }

  /** One relay message; `opens` is the outcome of binding and connecting a new socket. */
  ghost predicate Handled(cfg: Config, before: Pool, sid: Codec.SessionId, slot: seq<byte>, now: Instant, opens: bool,
                          after: Pool, action: Action) {
    var live, f := Live(before, now), Relay.DecodeRelay(slot);
    if f.Err? || Egress.Denied(f.value.dest, cfg.policy) then after == live && action == Drop
    else if cfg.echo then after == live && action == Echo(sid, Relay.EncodeRelay(f.value).value)
    else Forwarded(live, Key(sid, f.value.dest), f.value.payload, now, opens, after, action)
  }

  ghost predicate Forwarded(live: Pool, key: Key, datagram: seq<byte>, now: Instant, opens: bool, after: Pool, action: Action) {
    if key in live then after == live[key := now] && action == Send(key, datagram)
    else
      exists room ::
        && MadeRoom(live, key.sid, room)
        && if opens then after == room[key := now] && action == Send(key, datagram) else after == room && action == Unopened
  }

  class Forwarder {
    const cfg: Config
    var sockets: Pool

    constructor (cfg: Config)
      ensures this.cfg == cfg && sockets == map[]
    {
      this.cfg := cfg;
      sockets := map[];
    }

    method Handle(sid: Codec.SessionId, slot: seq<byte>, now: Instant, opens: bool) returns (action: Action)
      modifies this`sockets
      ensures Handled(cfg, old(sockets), sid, slot, now, opens, sockets, action)
    {
      hide Relay.DecodeRelay, Relay.EncodeRelay, Egress.Denied, MadeRoom;
      PruneIdle(now);
      var f := Relay.DecodeRelay(slot);
      if f.Err? {
        return Drop;
      }
      if Egress.Denied(f.value.dest, cfg.policy) {
        return Drop;
      }
      if cfg.echo {
        Relay.EncodeOfDecode(slot);
        return Echo(sid, Relay.EncodeRelay(f.value).value);
      }
      var key := Key(sid, f.value.dest);
      if key !in sockets {
        MakeRoomFor(sid);
        if !opens {
          return Unopened;
        }
      }
      sockets := sockets[key := now];
      return Send(key, f.value.payload);
    }

    method PruneIdle(now: Instant)
      modifies this`sockets
      ensures sockets == Live(old(sockets), now)
    {
      var keys := sockets.Keys;
      var stale: set<Key> := {};
      while keys != {}
        invariant sockets == old(sockets) && keys <= sockets.Keys
        invariant stale == set k | k in sockets.Keys - keys && Since(now, sockets[k]) > IDLE_TTL
        decreases |keys|
      {
        var k :| k in keys;
        keys := keys - {k};
        if Since(now, sockets[k]) > IDLE_TTL {
          stale := stale + {k};
        }
      }
      sockets := sockets - stale;
    }

    method MakeRoomFor(sid: Codec.SessionId)
      modifies this`sockets
      ensures MadeRoom(old(sockets), sid, sockets)
    {
      if |sockets| >= GLOBAL_CAP {
        assert |sockets.Keys| > 0;
        var oldest := Lru.FindOldest(sockets, sockets.Keys);
        sockets := sockets - {oldest};
      }
      ghost var mid := sockets;
      TrimSession(sid);
      assert GlobalRoom(old(sockets), mid);
    }

    method TrimSession(sid: Codec.SessionId)
      modifies this`sockets
      ensures SessionRoom(old(sockets), sid, sockets)
    {
      hide Lru.Trimmed;
      ghost var start := sockets;
      var mine := SessionKeys(sockets, sid);
      while |mine| >= PER_SESSION_CAP
        invariant mine == SessionKeys(sockets, sid) && Leads(start, sockets, sid)
        decreases |mine|
      {
        var oldest := Lru.FindOldest(sockets, mine);
        LeadsOn(start, sockets, sid, oldest);
        sockets := sockets - {oldest};
        assert SessionKeys(sockets, sid) == mine - {oldest};
        mine := SessionKeys(sockets, sid);
      }
      Lru.NothingToTrim(sockets, mine, PER_SESSION_CAP - 1);
    }

    method OnSessionClosed(sid: Codec.SessionId)
      modifies this`sockets
      ensures sockets == WithoutSession(old(sockets), sid)
    {
      sockets := sockets - SessionKeys(sockets, sid);
    }

    method Shutdown()
      modifies this`sockets
      ensures sockets == map[]
    {
      sockets := map[];
    }
  }

  function WithoutSession(pool: Pool, sid: Codec.SessionId): Pool { map k | k in pool && k.sid != sid :: pool[k] }

  /** Trimming session `sid` of `m` is trimming it in `start`. */
  ghost predicate Leads(start: Pool, m: Pool, sid: Codec.SessionId) {
    forall after | SessionRoom(m, sid, after) :: SessionRoom(start, sid, after)
  }

  lemma LeadsOn(start: Pool, m: Pool, sid: Codec.SessionId, k: Key)
    requires Leads(start, m, sid) && |SessionKeys(m, sid)| >= PER_SESSION_CAP && Lru.IsOldest(m, SessionKeys(m, sid), k)
    ensures Leads(start, m - {k}, sid)
  {
    hide Lru.Trimmed;
    assert SessionKeys(m - {k}, sid) == SessionKeys(m, sid) - {k};
    forall after | SessionRoom(m - {k}, sid, after) ensures SessionRoom(start, sid, after) {
      Lru.TrimOne(m, SessionKeys(m, sid), PER_SESSION_CAP - 1, k, after);
    }
  }

  // ---------------------------------------------------------------------
  // Runs
  // ---------------------------------------------------------------------

  /** Both caps hold and no pooled destination is one the policy refuses. */
  ghost predicate PoolOk(pool: Pool, policy: Egress.Policy) {
    && |pool| <= GLOBAL_CAP
    && (forall sid :: |SessionKeys(pool, sid)| <= PER_SESSION_CAP)
    && (forall k | k in pool :: !Egress.Denied(k.dest, policy))
  }

  lemma SmallerOk(pool: Pool, part: Pool, policy: Egress.Policy)
    requires PoolOk(pool, policy) && part.Keys <= pool.Keys
    ensures PoolOk(part, policy)
  {
    hide Egress.Denied;
    Sets.SubsetSize(part.Keys, pool.Keys);
    forall sid ensures |SessionKeys(part, sid)| <= PER_SESSION_CAP {
      Sets.SubsetSize(SessionKeys(part, sid), SessionKeys(pool, sid));
    }
  }

  lemma GlobalRoomSize(live: Pool, mid: Pool)
    requires |live| <= GLOBAL_CAP && GlobalRoom(live, mid)
    ensures mid.Keys <= live.Keys && |mid| < GLOBAL_CAP
  {
    if |live| >= GLOBAL_CAP {
      var k :| Lru.IsOldest(live, live.Keys, k) && mid == live - {k};
      assert mid.Keys == live.Keys - {k};
    }
  }

  lemma SessionRoomSize(mid: Pool, sid: Codec.SessionId, room: Pool)
    requires SessionRoom(mid, sid, room)
    ensures room.Keys <= mid.Keys && |SessionKeys(room, sid)| < PER_SESSION_CAP
  {
    assert SessionKeys(room, sid) == SessionKeys(mid, sid) * room.Keys;
  }

  /** After making room there is space for one more socket under each cap. */
  lemma RoomIsEnough(live: Pool, sid: Codec.SessionId, room: Pool)
    requires |live| <= GLOBAL_CAP && MadeRoom(live, sid, room)
    ensures room.Keys <= live.Keys && |room| < GLOBAL_CAP && |SessionKeys(room, sid)| < PER_SESSION_CAP
  {
    hide GlobalRoom, SessionRoom, SessionKeys;
    var mid :| GlobalRoom(live, mid) && SessionRoom(mid, sid, room);
    GlobalRoomSize(live, mid);
    SessionRoomSize(mid, sid, room);
    Sets.SubsetSize(room.Keys, mid.Keys);
  }

  lemma AddedKeys(room: Pool, key: Key, now: Instant, sid: Codec.SessionId)
    ensures SessionKeys(room[key := now], sid) == SessionKeys(room, sid) + if sid == key.sid then {key} else {}
  {}

  lemma AddOneOk(room: Pool, key: Key, now: Instant, policy: Egress.Policy)
    requires PoolOk(room, policy) && !Egress.Denied(key.dest, policy)
    requires key in room || (|room| < GLOBAL_CAP && |SessionKeys(room, key.sid)| < PER_SESSION_CAP)
    ensures PoolOk(room[key := now], policy)
  {
    var after := room[key := now];
    hide Egress.Denied;
    assert after.Keys == room.Keys + {key};
    if key in room { assert key in SessionKeys(room, key.sid); }
    forall sid ensures |SessionKeys(after, sid)| <= PER_SESSION_CAP {
      hide SessionKeys;
      AddedKeys(room, key, now, sid);
      if sid == key.sid { Sets.OneMore(SessionKeys(room, sid), key); }
    }
  }

  lemma HandledKeepsOk(cfg: Config, before: Pool, sid: Codec.SessionId, slot: seq<byte>, now: Instant, opens: bool,
                       after: Pool, action: Action)
    requires PoolOk(before, cfg.policy) && Handled(cfg, before, sid, slot, now, opens, after, action)
    ensures PoolOk(after, cfg.policy)
  {
    hide Relay.DecodeRelay, Relay.EncodeRelay, Egress.Denied, PoolOk, MadeRoom;
    var live, f := Live(before, now), Relay.DecodeRelay(slot);
    assert live.Keys <= before.Keys;
    SmallerOk(before, live, cfg.policy);
    if f.Ok? && !Egress.Denied(f.value.dest, cfg.policy) && !cfg.echo {
      var key := Key(sid, f.value.dest);
      if key in live {
        AddOneOk(live, key, now, cfg.policy);
      } else {
        var room :| MadeRoom(live, sid, room) && after == if opens then room[key := now] else room;
        PoolSize(live, cfg.policy);
        RoomIsEnough(live, sid, room);
        SmallerOk(live, room, cfg.policy);
        AddOneOk(room, key, now, cfg.policy);
      }
    }
  }

  lemma PoolSize(pool: Pool, policy: Egress.Policy)
    requires PoolOk(pool, policy)
    ensures |pool| <= GLOBAL_CAP
  {}

  datatype Op =
    | Datagram(sid: Codec.SessionId, slot: seq<byte>, now: Instant, opens: bool)
    | Closed(sid: Codec.SessionId)
    | Stopped

  ghost predicate Follows(cfg: Config, before: Pool, op: Op, after: Pool) {
    match op
    case Datagram(sid, slot, now, opens) => exists action :: Handled(cfg, before, sid, slot, now, opens, after, action)
    case Closed(sid) => after == WithoutSession(before, sid)
    case Stopped => after == map[]
  }

  ghost predicate IsRun(cfg: Config, ops: seq<Op>, pools: seq<Pool>) {
    && |pools| == |ops| + 1 && pools[0] == map[]
    && forall i | 0 <= i < |ops| :: Follows(cfg, pools[i], ops[i], pools[i + 1])
  }

  lemma FollowsKeepsOk(cfg: Config, before: Pool, op: Op, after: Pool)
    requires PoolOk(before, cfg.policy) && Follows(cfg, before, op, after)
    ensures PoolOk(after, cfg.policy)
  {
    hide PoolOk, Handled;
    match op {
      case Datagram(sid, slot, now, opens) =>
        var action :| Handled(cfg, before, sid, slot, now, opens, after, action);
        HandledKeepsOk(cfg, before, sid, slot, now, opens, after, action);
      case Closed(sid) => SmallerOk(before, after, cfg.policy);
      case Stopped => SmallerOk(before, after, cfg.policy);
    }
  }

  /** In every run, whatever the sockets do, both caps hold and no refused destination is pooled. */
  lemma {:induction false} AlwaysOk(cfg: Config, ops: seq<Op>, pools: seq<Pool>, n: nat)
    requires IsRun(cfg, ops, pools) && n <= |ops|
    ensures PoolOk(pools[n], cfg.policy)
  {
    hide PoolOk, Follows;
    if n == 0 {
      EmptyOk(cfg.policy);
    } else {
      AlwaysOk(cfg, ops, pools, n - 1);
      FollowsKeepsOk(cfg, pools[n - 1], ops[n - 1], pools[n - 1 + 1]);
    }
  }

  lemma EmptyOk(policy: Egress.Policy)
    ensures PoolOk(map[], policy)
  {
    forall sid ensures |SessionKeys(map[], sid)| <= PER_SESSION_CAP { assert SessionKeys(map[], sid) == {}; }
  }

  // ---------------------------------------------------------------------
  // Who is evicted
  // ---------------------------------------------------------------------

  /** `gone` left a pool at the global cap as its least recently used socket. */
  ghost predicate GlobalVictim(live: Pool, gone: Key) {
    |live| >= GLOBAL_CAP && Lru.IsOldest(live, live.Keys, gone)
  }

  /** `gone` left a session at its cap, no newer than any socket the session had and kept. */
  ghost predicate SessionVictim(live: Pool, sid: Codec.SessionId, gone: Key, after: Pool) {
    && gone.sid == sid && gone in live && |SessionKeys(live, sid)| >= PER_SESSION_CAP
    && forall kept | kept in SessionKeys(live, sid) && kept in after :: live[gone] <= live[kept]
  }

  lemma RoomVictims(live: Pool, sid: Codec.SessionId, room: Pool, gone: Key)
    requires MadeRoom(live, sid, room) && gone in live && gone !in room
    ensures GlobalVictim(live, gone) || SessionVictim(live, sid, gone, room)
  {
    var mid :| GlobalRoom(live, mid) && SessionRoom(mid, sid, room);
    if gone in mid {
      var mine := SessionKeys(mid, sid);
      assert gone in mine;
      if |mine| < PER_SESSION_CAP { NobodyGone(mid, mine, room, gone); }
      Sets.SubsetSize(mine, SessionKeys(live, sid));
      forall kept | kept in SessionKeys(live, sid) && kept in room ensures live[gone] <= live[kept] {
        assert kept in mine * room.Keys && gone in mid.Keys - room.Keys;
      }
    }
  }

  lemma NobodyGone(mid: Pool, mine: set<Key>, room: Pool, gone: Key)
    requires mine <= mid.Keys && |mine| < PER_SESSION_CAP && Lru.Trimmed(mid, mine, PER_SESSION_CAP - 1, room)
    requires gone in mid
    ensures gone in room
  {
    Sets.SameSize(mine * room.Keys, mine);
  }

  /**
   * A socket that is not idle is lost to another datagram only at a cap, and then
   * as a least recently used candidate; another session's socket only at the global cap.
   */
  lemma EvictionIsLru(cfg: Config, before: Pool, sid: Codec.SessionId, slot: seq<byte>, now: Instant, opens: bool,
                      after: Pool, action: Action, gone: Key)
    requires Handled(cfg, before, sid, slot, now, opens, after, action)
    requires gone in Live(before, now) && gone !in after
    ensures GlobalVictim(Live(before, now), gone) || SessionVictim(Live(before, now), sid, gone, after)
  {
    hide Relay.DecodeRelay, Relay.EncodeRelay, Egress.Denied, MadeRoom, GlobalVictim;
    var live, f := Live(before, now), Relay.DecodeRelay(slot);
    var key := Key(sid, f.value.dest);
    var room :| MadeRoom(live, sid, room) && after == if opens then room[key := now] else room;
    RoomVictims(live, sid, room, gone);
  }

  // ---------------------------------------------------------------------
  // What is sent, and who stays
  // ---------------------------------------------------------------------

  /** The session has a socket for this destination, used within the last minute. */
  ghost predicate Pooled(pool: Pool, key: Key, now: Instant) {
    key in pool && Since(now, pool[key]) <= 60_000_000_000
  }

  /**
   * A framed datagram is dropped exactly when its destination is refused. Otherwise echo mode
   * returns the frame without its padding, and forwarding sends exactly that datagram to exactly that
   * destination, on a pooled socket or on one that opens, whose last use is then now.
   */
  lemma ForwardsExactly(cfg: Config, before: Pool, sid: Codec.SessionId, f: Relay.Frame, padding: seq<byte>, now: Instant,
                        opens: bool, after: Pool, action: Action)
    requires Relay.EncodeRelay(f).Ok?
    requires Handled(cfg, before, sid, Relay.EncodeRelay(f).value + padding, now, opens, after, action)
    ensures action == Drop <==> Egress.Denied(f.dest, cfg.policy)
    ensures action != Drop && cfg.echo ==> action == Echo(sid, Relay.EncodeRelay(f).value)
    ensures var key := Key(sid, f.dest);
            action != Drop && !cfg.echo ==>
              if Pooled(before, key, now) || opens then action == Send(key, f.payload) && key in after && after[key] == now
              else action == Unopened && key !in after
  {
    hide Relay.DecodeRelay, Relay.EncodeRelay, Egress.Denied, MadeRoom;
    Relay.DecodeOfEncode(f, padding);
    var live, key := Live(before, now), Key(sid, f.dest);
    if !Egress.Denied(f.dest, cfg.policy) && !cfg.echo && key !in live {
      var room :| MadeRoom(live, sid, room) && if opens then after == room[key := now] && action == Send(key, f.payload)
                                              else after == room && action == Unopened;
      RoomIsPart(live, sid, room);
    }
  }

  /** What does not decode is dropped. */
  lemma JunkIsDropped(cfg: Config, before: Pool, sid: Codec.SessionId, slot: seq<byte>, now: Instant,
                      opens: bool, after: Pool, action: Action)
    requires Relay.DecodeRelay(slot).Err? && Handled(cfg, before, sid, slot, now, opens, after, action)
    ensures action == Drop && forall k :: k in after <==> Pooled(before, k, now)
  {
    hide Relay.DecodeRelay;
  }

  lemma RoomIsPart(live: Pool, sid: Codec.SessionId, room: Pool)
    requires MadeRoom(live, sid, room)
    ensures forall k | k in room :: k in live && room[k] == live[k]
  {
    var mid :| GlobalRoom(live, mid) && SessionRoom(mid, sid, room);
    if |live| >= GLOBAL_CAP {
      var k :| Lru.IsOldest(live, live.Keys, k) && mid == live - {k};
    }
  }

  /**
   * After any datagram a socket is in the pool with its old last use only if that lies within
   * the last minute; and one whose last use does is lost only as a victim of a cap.
   */
  lemma WhoStays(cfg: Config, before: Pool, sid: Codec.SessionId, slot: seq<byte>, now: Instant, opens: bool,
                 after: Pool, action: Action, k: Key)
    requires Handled(cfg, before, sid, slot, now, opens, after, action)
    ensures k in after ==> (after[k] == now && action.Send? && k == action.key) || (Pooled(before, k, now) && after[k] == before[k])
    ensures Pooled(before, k, now) && k !in after
            ==> GlobalVictim(Live(before, now), k) || SessionVictim(Live(before, now), sid, k, after)
  {
    hide Relay.DecodeRelay, Relay.EncodeRelay, Egress.Denied, MadeRoom, GlobalVictim, SessionVictim;
    var live, f := Live(before, now), Relay.DecodeRelay(slot);
    if Pooled(before, k, now) && k !in after { EvictionIsLru(cfg, before, sid, slot, now, opens, after, action, k); }
    if f.Ok? && !Egress.Denied(f.value.dest, cfg.policy) && !cfg.echo && Key(sid, f.value.dest) !in live {
      var key := Key(sid, f.value.dest);
      var room :| MadeRoom(live, sid, room) && if opens then after == room[key := now] && action == Send(key, f.value.payload)
                                              else after == room && action == Unopened;
      RoomIsPart(live, sid, room);
    }
  }
}
