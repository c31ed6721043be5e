/** The two connection tables and the cleanup queue, as values: each function is what happens
    under one lock. */
module ConnectionTables {
  import opened Common

  /** A connection: the session it was opened for, and the device it speaks for, which is 0 until its
      connect message. */
  datatype Connection = Connection(sessionId: u64, serial: u64)

  /** Connections whose device has not introduced itself are in `sessions`, by session; the others
      are in `devices`, by serial number. A connection that has ended is in `dead`. */
  datatype Tables = Tables(sessions: map<u64, Connection>, devices: map<u64, Connection>,
                           queue: seq<(u64, u64)>, dead: set<u64>)

  /** Ending a connection, once: it is marked dead and its cleanup is queued. The destructor of a
      connection does the same, so dropping the last reference to a live one queues a cleanup. */
  function Ended(t: Tables, c: Connection): (r: Tables)
    ensures r.sessions == t.sessions && r.devices == t.devices
    ensures t.queue <= r.queue && c.sessionId in r.dead
  {
    if c.sessionId in t.dead then t
    else t.(dead := t.dead + {c.sessionId}, queue := t.queue + [(c.sessionId, c.serial)])
  }

  function WithConnection(t: Tables, c: Connection): (r: Tables)
    ensures r.devices == t.devices && c.sessionId in r.sessions && r.queue == t.queue
  {
    if c.sessionId in t.sessions then t else t.(sessions := t.sessions[c.sessionId := c])
  }

  /** The connect message tells which device a connection speaks for. */
  function WithSerial(t: Tables, sessionId: u64, serial: u64): (r: Tables)
    ensures r.devices == t.devices && r.sessions.Keys == t.sessions.Keys && r.queue == t.queue
  {
    if sessionId in t.sessions then t.(sessions := t.sessions[sessionId := Connection(sessionId, serial)]) else t
  }

  function WithoutSession(t: Tables, sessionId: u64): (r: Tables)
    ensures r.sessions == t.sessions - {sessionId} && r.devices == t.devices
  {
    if sessionId in t.sessions then Ended(t.(sessions := t.sessions - {sessionId}), t.sessions[sessionId]) else t
  }

  /** The connection that was under this serial number, if any, is dropped. */
  function WithDevice(t: Tables, serial: u64, c: Connection): (r: Tables)
    ensures r.sessions == t.sessions && r.devices == t.devices[serial := c]
  {
    var placed := t.(devices := t.devices[serial := c]);
    if serial in t.devices then Ended(placed, t.devices[serial]) else placed
  }

  /** The device is removed only while it is still this session that is there. */
  function WithoutDevice(t: Tables, sessionId: u64, serial: u64): (r: Tables)
    ensures r.sessions == t.sessions
    ensures r.devices
         == if serial in t.devices && t.devices[serial].sessionId == sessionId then t.devices - {serial} else t.devices
  {
    if serial in t.devices && t.devices[serial].sessionId == sessionId
    then Ended(t.(devices := t.devices - {serial}), t.devices[serial])
    else t
  }

  function AfterEndSession(t: Tables, sessionId: u64, serial: u64): Tables {
    WithoutDevice(WithoutSession(t, sessionId), sessionId, serial)
  }

  function AfterStartSession(t: Tables, sessionId: u64, serial: u64): Tables {
    if sessionId in t.sessions
    then WithDevice(t.(sessions := t.sessions - {sessionId}), serial, t.sessions[sessionId])
    else t
  }

  function AfterDisconnect(t: Tables, serial: u64): Tables {
    if serial in t.devices
    then var c := t.devices[serial];
         Ended(WithoutSession(t.(devices := t.devices - {serial}), c.sessionId), c)
    else t
  }

  /** One turn of the cleanup thread. */
  function AfterTurn(t: Tables): Tables
    requires t.queue != []
  {
    AfterEndSession(t.(queue := t.queue[1..]), t.queue[0].0, t.queue[0].1)
  }

  /* ---------- what the tables always satisfy ---------- */

  /** Connections are filed under their own names, and no session is in both tables. */
  ghost predicate Filed(t: Tables) {
    && (forall k | k in t.sessions :: t.sessions[k].sessionId == k)
    && (forall s | s in t.devices :: t.devices[s].serial == s)
    && (forall s | s in t.devices :: t.devices[s].sessionId !in t.sessions)
    && (forall r, s | r in t.devices && s in t.devices && t.devices[r].sessionId == t.devices[s].sessionId :: r == s)
  }

  /** Sessions of connections in a table that have not ended. */
  function Alive(t: Tables): set<u64> {
    (set k | k in t.sessions :: t.sessions[k].sessionId) + (set s | s in t.devices :: t.devices[s].sessionId) - t.dead
  }

  /** Every entry names a connection to end or one that is gone: two for a live connection, as
      dropping it queues another entry, and one for each entry queued. */
  function Work(t: Tables): nat {
    |t.queue| + 2 * |Alive(t)|
  }

  lemma EndedWork(t: Tables, next: Tables, c: Connection)
    requires next.queue == t.queue && next.dead == t.dead && Alive(next) <= Alive(t)
    requires c.sessionId in Alive(t) || c.sessionId in t.dead
    ensures Work(Ended(next, c)) <= Work(t)
    ensures Alive(Ended(next, c)) <= Alive(t)
  {
    if c.sessionId !in next.dead {
      var ended := Ended(next, c);
      assert Alive(ended) <= Alive(t) - {c.sessionId};
      Smaller(Alive(ended), Alive(t) - {c.sessionId});
    } else {
      Smaller(Alive(next), Alive(t));
    }
  }

  lemma Smaller(a: set<u64>, b: set<u64>)
    requires a <= b
    ensures |a| <= |b|
  {
    var rest := b - a;
    assert b == a + rest;
  }

  /** Cleaning up gets somewhere although dropping a live connection queues another entry. */
  lemma TurnWorks(t: Tables)
    requires t.queue != []
    ensures Work(AfterTurn(t)) < Work(t)
  {
    var sessionId, serial := t.queue[0].0, t.queue[0].1;
    var popped := t.(queue := t.queue[1..]);
    assert Alive(popped) == Alive(t);
    var first := WithoutSession(popped, sessionId);
    if sessionId in popped.sessions {
      var next := popped.(sessions := popped.sessions - {sessionId});
      assert Alive(next) <= Alive(popped);
      EndedWork(popped, next, popped.sessions[sessionId]);
    }
    if serial in first.devices && first.devices[serial].sessionId == sessionId {
      var next := first.(devices := first.devices - {serial});
      assert Alive(next) <= Alive(first);
      EndedWork(first, next, first.devices[serial]);
    }
  }

  /* ---------- what a full drain leaves ---------- */

  function Queued(t: Tables): set<u64> {
    set e | e in t.queue :: e.0
  }

  /** Connections no queued entry names. */
  function SessionsLeft(t: Tables): map<u64, Connection> {
    map k | k in t.sessions && k !in Queued(t) :: t.sessions[k]
  }

  function DevicesLeft(t: Tables): map<u64, Connection> {
    map s | s in t.devices && (t.devices[s].sessionId, s) !in t.queue :: t.devices[s]
  }

  /** One turn keeps the tables filed, and what will be left in the end. */
  lemma TurnKeeps(t: Tables)
    requires Filed(t) && t.queue != []
    ensures Filed(AfterTurn(t))
    ensures SessionsLeft(AfterTurn(t)) == SessionsLeft(t)
    ensures DevicesLeft(AfterTurn(t)) == DevicesLeft(t)
  {
    var sessionId, serial := t.queue[0].0, t.queue[0].1;
    var next := AfterTurn(t);
    assert t.queue == [(sessionId, serial)] + t.queue[1..];
    assert next.sessions == t.sessions - {sessionId};
    assert next.queue == t.queue[1..] || next.queue == t.queue[1..] + [(sessionId, serial)]
        || (sessionId in t.sessions && next.queue == t.queue[1..] + [(sessionId, t.sessions[sessionId].serial)]);
    forall k
      ensures k in Queued(t) || k == sessionId <==> k in Queued(next) || k == sessionId
    {
    }
  }

  lemma NothingQueued(t: Tables)
    requires t.queue == []
    ensures SessionsLeft(t) == t.sessions && DevicesLeft(t) == t.devices
  {
  }

  /* ---------- a zombie pass ---------- */

  const SESSION_TIMEOUT: nat := 600

  /** Dead, or not heard of for too long. A connection never heard of has last contact 0. */
  predicate Stale(dead: set<u64>, lastContact: map<u64, nat>, now: nat, c: Connection) {
    var last := if c.sessionId in lastContact then lastContact[c.sessionId] else 0;
    c.sessionId in dead || (now > last && now - last > SESSION_TIMEOUT)
  }

  /** The entries a pass adds are those of the stale connections among the ones it looks at: the
      devices in `ds` and the sessions in `ss`. */
  ghost predicate Found(t: Tables, ds: set<u64>, ss: set<u64>, lastContact: map<u64, nat>, now: nat,
                        added: seq<(u64, u64)>)
  {
    forall e: (u64, u64) :: e in added <==>
      || (exists s | s in t.devices && s in ds ::
            Stale(t.dead, lastContact, now, t.devices[s]) && e == (t.devices[s].sessionId, t.devices[s].serial))
      || (exists k | k in t.sessions && k in ss ::
            Stale(t.dead, lastContact, now, t.sessions[k]) && e == (t.sessions[k].sessionId, t.sessions[k].serial))
  }

  /** A pass and then a full drain: what that pass found dead or idle among the connections it looks
      at, and what was already queued, is in neither table; everything else is where it was. */
  lemma PassThenDrain(t: Tables, ds: set<u64>, ss: set<u64>, lastContact: map<u64, nat>, now: nat,
                      added: seq<(u64, u64)>)
    requires Filed(t) && Found(t, ds, ss, lastContact, now, added)
    ensures var after := t.(queue := t.queue + added);
      && (forall k :: k in SessionsLeft(after) <==>
            && k in t.sessions && k !in Queued(t)
            && !(k in ss && Stale(t.dead, lastContact, now, t.sessions[k])))
      && (forall s :: s in DevicesLeft(after) <==>
            && s in t.devices && (t.devices[s].sessionId, s) !in t.queue
            && !(s in ds && Stale(t.dead, lastContact, now, t.devices[s])))
      && (forall k | k in SessionsLeft(after) :: SessionsLeft(after)[k] == t.sessions[k])
      && (forall s | s in DevicesLeft(after) :: DevicesLeft(after)[s] == t.devices[s])
  {
    var after := t.(queue := t.queue + added);
    forall k | k in t.sessions
      ensures k in Queued(after) <==> k in Queued(t) || (k in ss && Stale(t.dead, lastContact, now, t.sessions[k]))
    {
      if k in ss && Stale(t.dead, lastContact, now, t.sessions[k]) {
        assert (t.sessions[k].sessionId, t.sessions[k].serial) in added;
        assert (k, t.sessions[k].serial) in after.queue;
      }
      if k in Queued(t) {
        var e :| e in t.queue && e.0 == k;
        assert e in after.queue;
      }
    }
    forall s | s in t.devices
      ensures (t.devices[s].sessionId, s) in after.queue <==>
              (t.devices[s].sessionId, s) in t.queue || (s in ds && Stale(t.dead, lastContact, now, t.devices[s]))
    {
      if s in ds && Stale(t.dead, lastContact, now, t.devices[s]) {
        assert (t.devices[s].sessionId, t.devices[s].serial) in added;
      }
    }
  }

  /** Whom a pass finds: whoever has ended, and whoever was last heard of more than 600 seconds ago, or
      never; nobody else. */
  lemma WhomAPassFinds(t: Tables, ds: set<u64>, ss: set<u64>, lastContact: map<u64, nat>, now: nat,
                       added: seq<(u64, u64)>)
    requires Filed(t) && Found(t, ds, ss, lastContact, now, added)
    ensures forall s | s in t.devices && s in ds ::
      var k := t.devices[s].sessionId;
      var last := if k in lastContact then lastContact[k] else 0;
      (k, s) in added <==> k in t.dead || now > last + 600
    ensures forall k | k in t.sessions && k in ss ::
      var last := if k in lastContact then lastContact[k] else 0;
      (k, t.sessions[k].serial) in added <==> k in t.dead || now > last + 600
    ensures forall e | e in added ::
      (e.1 in t.devices && e.1 in ds && t.devices[e.1].sessionId == e.0)
      || (e.0 in t.sessions && e.0 in ss && t.sessions[e.0].serial == e.1)
  {
  }
}
