/** The sharded tables of the server. The shards, 256 maps behind 256 locks each, refine the two
    flat tables of ConnectionTables. */
module ConnectionServer {
  import opened Common
  import opened ConnectionTables

  /* ---------- hashing ---------- */

  const SHARDS: nat := 256

  /** One byte of a serial number folded into a hash: an octet takes what fits of the sum. */
  function Mixed(hash: bv8, octet: byte): bv8 {
    hash ^ ((octet as int + 1) % 256) as bv8
  }

  function Mix(hash: bv8, value: nat, bytes: nat): bv8
    decreases bytes
  {
    if bytes == 0 then hash else Mix(Mixed(hash, value % 256), value / 256, bytes - 1)
  }

  function MacHash(value: u64): (h: nat)
    ensures h < SHARDS
  {
    Mix(0, value, 6) as nat
  }

  method HashMac(value: u64) returns (h: nat)
    ensures h == MacHash(value)
  {
    var hash: bv8 := 0;
    var rest: nat := value;
    var i := 6;
    while i > 0
      invariant 0 <= i <= 6 && Mix(0, value, 6) == Mix(hash, rest, i)
    {
      hash := Mixed(hash, rest % 256);
      rest := rest / 256;
      i := i - 1;
    }
    h := hash as nat;
  }

  /** The hash of six octets, the lowest first. */
  lemma HashOfOctets(a: byte, b: byte, c: byte, d: byte, e: byte, f: byte)
    ensures var value := a + 0x100 * (b + 0x100 * (c + 0x100 * (d + 0x100 * (e + 0x100 * f))));
      MacHash(value) == Mixed(Mixed(Mixed(Mixed(Mixed(Mixed(0, a), b), c), d), e), f) as nat
  {
    var high: nat := d + 0x100 * (e + 0x100 * f);
    MixThree(0, a, b, c, high, 6);
    MixThree(Mixed(Mixed(Mixed(0, a), b), c), d, e, f, 0, 3);
    MixNothing(Mixed(Mixed(Mixed(Mixed(Mixed(Mixed(0, a), b), c), d), e), f), 0);
    hide Mix, Mixed;
  }

  lemma MixThree(hash: bv8, a: byte, b: byte, c: byte, rest: nat, bytes: nat)
    requires bytes >= 3
    ensures Mix(hash, a + 0x100 * (b + 0x100 * (c + 0x100 * rest)), bytes)
         == Mix(Mixed(Mixed(Mixed(hash, a), b), c), rest, bytes - 3)
  {
    hide Mix, Mixed;
    MixLowest(hash, a, b + 0x100 * (c + 0x100 * rest), bytes);
    MixLowest(Mixed(hash, a), b, c + 0x100 * rest, bytes - 1);
    MixLowest(Mixed(Mixed(hash, a), b), c, rest, bytes - 2);
  }

  lemma MixNothing(hash: bv8, value: nat)
    ensures Mix(hash, value, 0) == hash
  {
  }

  lemma MixLowest(hash: bv8, lowest: byte, rest: nat, bytes: nat)
    requires bytes > 0
    ensures Mix(hash, lowest + 0x100 * rest, bytes) == Mix(Mixed(hash, lowest), rest, bytes - 1)
  {
    MixTurn(hash, lowest, rest, bytes);
    hide Mix, Mixed;
  }

  /** Each octet is raised by one, as an octet, and all are put together by exclusive or. */
  lemma HashSamples()
    ensures MacHash(0) == 0 && MacHash(1) == 3 && MacHash(0xFF) == 1 && MacHash(0x0102_0304_0506) == 1
    ensures MacHash(0x8000_0000_0000) == 0x80
  {
    HashOfOctets(0, 0, 0, 0, 0, 0);
    HashOfOctets(1, 0, 0, 0, 0, 0);
    HashOfOctets(0xFF, 0, 0, 0, 0, 0);
    HashOfOctets(6, 5, 4, 3, 2, 1);
    HashOfOctets(0, 0, 0, 0, 0, 0x80);
    hide MacHash;
  }

  function Power(bytes: nat): nat {
    if bytes == 0 then 1 else 256 * Power(bytes - 1)
  }

  /** The six octets of a serial number decide its shard: what lies above them does not. */
  lemma MacHashIsOfSixOctets(value: u64)
    ensures MacHash(value) == MacHash(value % 0x1_0000_0000_0000)
  {
    hide Mix;
    assert Power(6) == 0x1_0000_0000_0000;
    hide Power;
    var low, high := value % 0x1_0000_0000_0000, value / 0x1_0000_0000_0000;
    MixOfLow(0, low, high, 6);
  }

  lemma {:induction false} MixOfLow(hash: bv8, low: nat, high: nat, bytes: nat)
    ensures Mix(hash, low + high * Power(bytes), bytes) == Mix(hash, low, bytes)
    decreases bytes
  {
    if bytes > 0 {
      hide Mix, Mixed;
      var above := high * Power(bytes - 1);
      Regrouped(high, Power(bytes - 1));
      assert low + high * Power(bytes) == low + 256 * above;
      hide Power;
      MixTurn(hash, low, above, bytes);
      MixTurn(hash, low, 0, bytes);
      MixOfLow(Mixed(hash, low % 256), low / 256, high, bytes - 1);
    }
  }

  lemma Regrouped(high: nat, power: nat)
    ensures high * (256 * power) == 256 * (high * power)
  {
  }

  lemma MixTurn(hash: bv8, low: nat, above: nat, bytes: nat)
    requires bytes > 0
    ensures Mix(hash, low + 256 * above, bytes) == Mix(Mixed(hash, low % 256), low / 256 + above, bytes - 1)
  {
    OneOctet(low, above);
    hide Mixed;
  }

  lemma OneOctet(low: nat, above: nat)
    ensures (low + 256 * above) % 256 == low % 256
    ensures (low + 256 * above) / 256 == low / 256 + above
  {
  }

  function SessionHash(value: u64): (h: nat)
    ensures h < SHARDS
  {
    value % SHARDS
  }

  /* ---------- shards ---------- */

  type Shard = map<u64, Connection>

  function Put(m: map<u64, Connection>, k: u64, c: Connection): Shard {
    m[k := c]
  }

  function Without(m: map<u64, Connection>, k: u64): Shard {
    m - {k}
  }

  /** Shards hold the entries of a flat table, each under the hash of its key. */
  ghost predicate Refines(shards: seq<Shard>, flat: map<u64, Connection>, hash: u64 -> nat) {
    && |shards| == SHARDS
    && (forall k: u64 :: hash(k) < SHARDS)
    && (forall k: u64 | k in flat :: k in shards[hash(k)] && shards[hash(k)][k] == flat[k])
    && (forall i, k: u64 | 0 <= i < SHARDS && k in shards[i] :: hash(k) == i && k in flat)
  }

  lemma RefinesLookup(shards: seq<Shard>, flat: map<u64, Connection>, hash: u64 -> nat, k: u64)
    requires Refines(shards, flat, hash)
    ensures hash(k) < |shards|
    ensures k in flat <==> k in shards[hash(k)]
    ensures k in flat ==> shards[hash(k)][k] == flat[k]
  {
  }

  lemma RefinesInsert(shards: seq<Shard>, flat: map<u64, Connection>, hash: u64 -> nat, k: u64, c: Connection)
    requires Refines(shards, flat, hash)
    ensures Refines(shards[hash(k) := Put(shards[hash(k)], k, c)], Put(flat, k, c), hash)
  {
  }

  lemma RefinesRemove(shards: seq<Shard>, flat: map<u64, Connection>, hash: u64 -> nat, k: u64)
    requires Refines(shards, flat, hash)
    ensures Refines(shards[hash(k) := Without(shards[hash(k)], k)], Without(flat, k), hash)
  {
  }

  class Server {
    const sessionShards: array<Shard>
    const deviceShards: array<Shard>
    var cleanup: seq<(u64, u64)>
    var dead: set<u64>
    ghost var sessions: map<u64, Connection>
    ghost var devices: map<u64, Connection>

    ghost predicate Valid()
      reads this, sessionShards, deviceShards
    {
      && sessionShards != deviceShards
      && Refines(sessionShards[..], sessions, SessionHash)
      && Refines(deviceShards[..], devices, MacHash)
    }

    ghost function State(): Tables
      reads this
    {
      Tables(sessions, devices, cleanup, dead)
    }

    constructor ()
      ensures Valid() && fresh(sessionShards) && fresh(deviceShards)
      ensures State() == Tables(map[], map[], [], {}) && Filed(State())
    {
      sessionShards := new Shard[SHARDS](_ => map[]);
      deviceShards := new Shard[SHARDS](_ => map[]);
      cleanup, dead := [], {};
      sessions, devices := map[], map[];
    }

    /** EndConnection, and with it the destructor of a connection. */
    method EndConnection(c: Connection)
      requires Valid()
      modifies this`cleanup, this`dead
      ensures Valid() && State() == Ended(old(State()), c)
      ensures cleanup == old(cleanup) + if c.sessionId in old(dead) then [] else [(c.sessionId, c.serial)]
      ensures dead == old(dead) + {c.sessionId}
    {
      hide Refines;
      if c.sessionId !in dead {
        dead := dead + {c.sessionId};
        AddCleanupSession(c.sessionId, c.serial);
      }
    }

    method AddCleanupSession(sessionId: u64, serial: u64)
      modifies this`cleanup
      ensures cleanup == old(cleanup) + [(sessionId, serial)]
    {
      cleanup := cleanup + [(sessionId, serial)];
    }

    method AddConnection(c: Connection)
      requires Valid()
      modifies this`sessions, sessionShards
      ensures Valid() && State() == WithConnection(old(State()), c)
      ensures sessions == if c.sessionId in old(sessions) then old(sessions) else old(sessions)[c.sessionId := c]
    {
      hide Refines;
      var h := SessionHash(c.sessionId);
      RefinesLookup(sessionShards[..], sessions, SessionHash, c.sessionId);
      if c.sessionId !in sessionShards[h] {
        RefinesInsert(sessionShards[..], sessions, SessionHash, c.sessionId, c);
        ghost var shards := sessionShards[..][h := Put(sessionShards[h], c.sessionId, c)];
        sessionShards[h] := Put(sessionShards[h], c.sessionId, c);
        assert sessionShards[..] == shards;
        sessions := Put(sessions, c.sessionId, c);
      }
    }

    /** The connect message, which changes the connection where it is. */
    method Introduce(sessionId: u64, serial: u64)
      requires Valid()
      modifies this`sessions, sessionShards
      ensures Valid() && State() == WithSerial(old(State()), sessionId, serial)
      ensures forall k :: k in sessions <==> k in old(sessions)
      ensures forall k | k in sessions ::
        sessions[k] == if k == sessionId then Connection(sessionId, serial) else old(sessions)[k]
    {
      hide Refines;
      var h := SessionHash(sessionId);
      RefinesLookup(sessionShards[..], sessions, SessionHash, sessionId);
      if sessionId in sessionShards[h] {
        var c := Connection(sessionId, serial);
        RefinesInsert(sessionShards[..], sessions, SessionHash, sessionId, c);
        ghost var shards := sessionShards[..][h := Put(sessionShards[h], sessionId, c)];
        sessionShards[h] := Put(sessionShards[h], sessionId, c);
        assert sessionShards[..] == shards;
        sessions := Put(sessions, sessionId, c);
      }
    }

    /** Taking a session out of its shard. */
    method EraseSession(sessionId: u64)
      requires Valid()
      modifies this`sessions, sessionShards
      ensures Valid() && sessions == old(sessions) - {sessionId}
    {
      hide Refines;
      var h := SessionHash(sessionId);
      RefinesLookup(sessionShards[..], sessions, SessionHash, sessionId);
      RefinesRemove(sessionShards[..], sessions, SessionHash, sessionId);
      ghost var shards := sessionShards[..][h := Without(sessionShards[h], sessionId)];
      sessionShards[h] := Without(sessionShards[h], sessionId);
      assert sessionShards[..] == shards;
      sessions := Without(sessions, sessionId);
    }

    method FindSession(sessionId: u64) returns (found: Option<Connection>)
      requires Valid()
      ensures found == if sessionId in sessions then Some(sessions[sessionId]) else None
    {
      hide Refines;
      RefinesLookup(sessionShards[..], sessions, SessionHash, sessionId);
      var shard := sessionShards[SessionHash(sessionId)];
      found := if sessionId in shard then Some(shard[sessionId]) else None;
    }

    /** The start of every lookup by serial number. */
    method FindDevice(serial: u64) returns (found: Option<Connection>)
      requires Valid()
      ensures found == if serial in devices then Some(devices[serial]) else None
    {
      hide Refines;
      var h := HashMac(serial);
      RefinesLookup(deviceShards[..], devices, MacHash, serial);
      var shard := deviceShards[h];
      found := if serial in shard then Some(shard[serial]) else None;
    }

    method EraseDevice(serial: u64)
      requires Valid()
      modifies this`devices, deviceShards
      ensures Valid() && devices == old(devices) - {serial}
    {
      hide Refines;
      var h := HashMac(serial);
      RefinesLookup(deviceShards[..], devices, MacHash, serial);
      RefinesRemove(deviceShards[..], devices, MacHash, serial);
      ghost var shards := deviceShards[..][h := Without(deviceShards[h], serial)];
      deviceShards[h] := Without(deviceShards[h], serial);
      assert deviceShards[..] == shards;
      devices := Without(devices, serial);
    }

    method StoreDevice(serial: u64, c: Connection)
      requires Valid()
      modifies this`devices, deviceShards
      ensures Valid() && devices == old(devices)[serial := c]
    {
      hide Refines;
      var h := HashMac(serial);
      RefinesLookup(deviceShards[..], devices, MacHash, serial);
      RefinesInsert(deviceShards[..], devices, MacHash, serial, c);
      ghost var shards := deviceShards[..][h := Put(deviceShards[h], serial, c)];
      deviceShards[h] := Put(deviceShards[h], serial, c);
      assert deviceShards[..] == shards;
      devices := Put(devices, serial, c);
    }

    method StartSession(sessionId: u64, serial: u64)
      requires Valid()
      modifies this, sessionShards, deviceShards
      ensures Valid() && State() == AfterStartSession(old(State()), sessionId, serial)
      ensures sessionId !in old(sessions) ==> State() == old(State())
      ensures sessionId in old(sessions) ==>
        && sessions == old(sessions) - {sessionId} && devices == old(devices)[serial := old(sessions)[sessionId]]
        && (serial !in old(devices) ==> cleanup == old(cleanup) && dead == old(dead))
      ensures sessionId in old(sessions) && serial in old(devices) ==>
        var replaced := old(devices)[serial];
        && dead == old(dead) + {replaced.sessionId}
        && cleanup == old(cleanup) + if replaced.sessionId in old(dead) then []
          else [(replaced.sessionId, replaced.serial)]
    {
      hide Refines;
      var hint := FindSession(sessionId);
      if hint == None {
        return;
      }
      EraseSession(sessionId);
      var replaced := FindDevice(serial);
      StoreDevice(serial, hint.value);
      if replaced.Some? {
        EndConnection(replaced.value);
      }
    }

    method EndSession(sessionId: u64, serial: u64) returns (ended: bool)
      requires Valid()
      modifies this, sessionShards, deviceShards
      ensures Valid() && State() == AfterEndSession(old(State()), sessionId, serial)
      ensures sessions == old(sessions) - {sessionId} && devices == old(devices) - if ended then {serial} else {}
      ensures sessionId in old(sessions) ==> old(sessions)[sessionId].sessionId in dead
      ensures ended ==> sessionId in dead
      ensures ended <==> serial in old(devices) && old(devices)[serial].sessionId == sessionId
    {
      hide Refines;
      var dropped := FindSession(sessionId);
      EraseSession(sessionId);
      if dropped.Some? {
        EndConnection(dropped.value);
      }
      var hint := FindDevice(serial);
      if hint == None || hint.value.sessionId != sessionId {
        return false;
      }
      EraseDevice(serial);
      EndConnection(hint.value);
      return true;
    }

    method Disconnect(serial: u64) returns (known: bool)
      requires Valid()
      modifies this, sessionShards, deviceShards
      ensures Valid() && State() == AfterDisconnect(old(State()), serial)
      ensures known <==> serial in old(devices)
      ensures known ==>
        var dropped := old(devices)[serial];
        && devices == old(devices) - {serial} && sessions == old(sessions) - {dropped.sessionId}
        && dropped.sessionId in dead
        && (dropped.sessionId !in old(dead) && dropped.sessionId !in old(sessions) ==>
              cleanup == old(cleanup) + [(dropped.sessionId, dropped.serial)])
    {
      hide Refines;
      var hint := FindDevice(serial);
      if hint == None {
        return false;
      }
      var connection := hint.value;
      EraseDevice(serial);
      var dropped := FindSession(connection.sessionId);
      EraseSession(connection.sessionId);
      if dropped.Some? {
        EndConnection(dropped.value);
      }
      EndConnection(connection);
      return true;
    }

    /** The cleanup thread, until its queue is empty. Dropping a live connection queues another
        entry, and still it ends. */
    method CleanupSessions()
      requires Valid() && Filed(State())
      modifies this, sessionShards, deviceShards
      ensures Valid() && Filed(State())
      ensures cleanup == []
      ensures sessions == SessionsLeft(old(State())) && devices == DevicesLeft(old(State()))
    {
      hide Refines, SessionsLeft, DevicesLeft, Filed, AfterEndSession, Work;
      while cleanup != []
        invariant Valid() && Filed(State())
        invariant SessionsLeft(State()) == SessionsLeft(old(State()))
        invariant DevicesLeft(State()) == DevicesLeft(old(State()))
        decreases Work(State())
      {
        TurnKeeps(State());
        TurnWorks(State());
        var session := cleanup[0];
        cleanup := cleanup[1..];
        var _ := EndSession(session.0, session.1);
      }
      NothingQueued(State());
    }

    /** The inner loop of a zombie pass: one shard, with its lock held. */
    method SweepShard(shard: Shard, lastContact: map<u64, nat>, now: nat) returns (ghost added: seq<(u64, u64)>)
      modifies this`cleanup
      ensures cleanup == old(cleanup) + added
      ensures forall e: (u64, u64) :: e in added <==> InShard(dead, shard, shard.Keys, lastContact, now, e)
    {
      added := [];
      var keys := shard.Keys;
      while keys != {}
        invariant keys <= shard.Keys && cleanup == old(cleanup) + added
        invariant forall e: (u64, u64) :: e in added <==> InShard(dead, shard, shard.Keys - keys, lastContact, now, e)
        decreases keys
      {
        var key :| key in keys;
        var device := shard[key];
        var last := if device.sessionId in lastContact then lastContact[device.sessionId] else 0;
        if device.sessionId in dead {
          AddCleanupSession(device.sessionId, device.serial);
          added := added + [(device.sessionId, device.serial)];
        } else if now > last && now - last > SESSION_TIMEOUT {
          AddCleanupSession(device.sessionId, device.serial);
          added := added + [(device.sessionId, device.serial)];
        }
        keys := keys - {key};
      }
    }

    /** A zombie pass: first the devices, then the sessions, shard by shard. A shard whose lock it
        does not get in time is left for the next pass. */
    method ZombiePass(deviceLocks: set<nat>, sessionLocks: set<nat>, lastContact: map<u64, nat>, now: nat)
      returns (ghost added: seq<(u64, u64)>)
      requires Valid()
      modifies this`cleanup
      ensures cleanup == old(cleanup) + added
      ensures Found(old(State()), Under(devices, MacHash, deviceLocks), Under(sessions, SessionHash, sessionLocks),
                    lastContact, now, added)
    {
      hide Refines, Stale;
      var i := 0;
      added := [];
      while i < SHARDS
        invariant i <= SHARDS && cleanup == old(cleanup) + added
        invariant forall e: (u64, u64) :: e in added <==>
          FoundIn(dead, devices, MacHash, deviceLocks, i, lastContact, now, e)
      {
        ShardPart(dead, deviceShards[..], devices, MacHash, deviceLocks, i, lastContact, now);
        if i in deviceLocks {
          ghost var earlier := added;
          ghost var more := SweepShard(deviceShards[i], lastContact, now);
          added := earlier + more;
        }
        i := i + 1;
      }
      ghost var first := added;
      i := 0;
      while i < SHARDS
        invariant i <= SHARDS && cleanup == old(cleanup) + added
        invariant forall e: (u64, u64) ::
          e in added <==> e in first || FoundIn(dead, sessions, SessionHash, sessionLocks, i, lastContact, now, e)
      {
        ShardPart(dead, sessionShards[..], sessions, SessionHash, sessionLocks, i, lastContact, now);
        if i in sessionLocks {
          ghost var earlier := added;
          ghost var more := SweepShard(sessionShards[i], lastContact, now);
          added := earlier + more;
        }
        i := i + 1;
      }
    }

    /** A pass and then a full drain, with no other steps. */
    method PassAndDrain(deviceLocks: set<nat>, sessionLocks: set<nat>, lastContact: map<u64, nat>, now: nat)
      requires Valid() && Filed(State())
      modifies this, sessionShards, deviceShards
      ensures Valid() && Filed(State()) && cleanup == []
      ensures forall k :: k in sessions <==>
        && k in old(sessions) && k !in Queued(old(State()))
        && !(SessionHash(k) in sessionLocks && Stale(old(dead), lastContact, now, old(sessions)[k]))
      ensures forall s :: s in devices <==>
        && s in old(devices) && (old(devices)[s].sessionId, s) !in old(cleanup)
        && !(MacHash(s) in deviceLocks && Stale(old(dead), lastContact, now, old(devices)[s]))
      ensures forall k | k in sessions :: sessions[k] == old(sessions)[k]
      ensures forall s | s in devices :: devices[s] == old(devices)[s]
    {
      hide Refines, Stale, Found, SessionsLeft, DevicesLeft, Queued, MacHash, SessionHash;
      ghost var ds, ss := Under(devices, MacHash, deviceLocks), Under(sessions, SessionHash, sessionLocks);
      ghost var added := ZombiePass(deviceLocks, sessionLocks, lastContact, now);
      PassThenDrain(old(State()), ds, ss, lastContact, now, added);
      CleanupSessions();
    }
  }

  /** The keys of a table in the shards whose lock is held. */
  function Under(flat: map<u64, Connection>, hash: u64 -> nat, locks: set<nat>): set<u64> {
    set k | k in flat && hash(k) in locks
  }

  /** The entry e is that of a stale connection in one of the first n shards of a table. */
  ghost predicate FoundIn(dead: set<u64>, flat: map<u64, Connection>, hash: u64 -> nat, locks: set<nat>, n: nat,
                          lastContact: map<u64, nat>, now: nat, e: (u64, u64)) {
    exists k | k in flat ::
      && hash(k) < n && hash(k) in locks
      && Stale(dead, lastContact, now, flat[k]) && e == (flat[k].sessionId, flat[k].serial)
  }

  /** The entry e is that of a stale connection of a shard, under one of some keys. */
  ghost predicate InShard(dead: set<u64>, shard: Shard, keys: set<u64>, lastContact: map<u64, nat>, now: nat,
                          e: (u64, u64))
    requires keys <= shard.Keys
  {
    exists k | k in keys :: Stale(dead, lastContact, now, shard[k]) && e == (shard[k].sessionId, shard[k].serial)
  }

  lemma ShardPart(dead: set<u64>, shards: seq<Shard>, flat: map<u64, Connection>, hash: u64 -> nat, locks: set<nat>,
                  n: nat, lastContact: map<u64, nat>, now: nat)
    requires Refines(shards, flat, hash) && n < SHARDS
    ensures |shards| == SHARDS
    ensures forall e: (u64, u64) :: FoundIn(dead, flat, hash, locks, n + 1, lastContact, now, e) <==>
      || FoundIn(dead, flat, hash, locks, n, lastContact, now, e)
      || (n in locks && InShard(dead, shards[n], shards[n].Keys, lastContact, now, e))
  {
    forall e: (u64, u64)
      ensures FoundIn(dead, flat, hash, locks, n + 1, lastContact, now, e) <==>
        || FoundIn(dead, flat, hash, locks, n, lastContact, now, e)
        || (n in locks && InShard(dead, shards[n], shards[n].Keys, lastContact, now, e))
    {
      ShardPartAt(dead, shards, flat, hash, locks, n, lastContact, now, e);
    }
  }

  lemma ShardPartAt(dead: set<u64>, shards: seq<Shard>, flat: map<u64, Connection>, hash: u64 -> nat, locks: set<nat>,
                    n: nat, lastContact: map<u64, nat>, now: nat, e: (u64, u64))
    requires Refines(shards, flat, hash) && n < SHARDS
    ensures FoundIn(dead, flat, hash, locks, n + 1, lastContact, now, e) <==>
      || FoundIn(dead, flat, hash, locks, n, lastContact, now, e)
      || (n in locks && InShard(dead, shards[n], shards[n].Keys, lastContact, now, e))
  {
    hide Stale;
    forall k: u64
      ensures k in shards[n] <==> k in flat && hash(k) == n
      ensures k in shards[n] ==> shards[n][k] == flat[k]
    {
      RefinesLookup(shards, flat, hash, k);
    }
  }
}
