/** The table of accounting sessions, fed by accounting and authentication messages, and the
    packets built from it when an access point goes away. */
module RadiusSessions {
  import opened Common
  import opened RadiusWire
  import opened RadiusPacket
  import opened RadiusReading
  import opened RadiusStops
  import RadiusOutput

  /* ---------- constants ---------- */

  const DISCONNECT_REQUEST: byte := 40

  /** Seconds without a message after which a session is dropped. */
  const SESSION_TIMEOUT: nat := 600

  /* ---------- the table ---------- */

  datatype Session = Session(serialNumber: Octets, destination: Octets, started: nat, lastTransaction: nat,
                             fields: Fields, nasId: Octets, proxyInterface: Octets, counters: Counters,
                             secret: Octets, accountingPacket: Image)

  type Sessions = map<Octets, Session>

  type Table = map<Octets, Sessions>

  datatype Notification = Notification(destination: Octets, serialNumber: Octets, packet: Image, secret: Octets)

  /** The name a message gives its session: session id followed by multi-session id. */
  function IndexOf(r: Reading): Octets {
    r.fields.sessionId + r.fields.multiSessionId
  }

  function SessionsOf(t: Table, serialNumber: Octets): Sessions {
    if serialNumber in t then t[serialNumber] else map[]
  }

  predicate Tracked(t: Table, serialNumber: Octets, index: Octets) {
    serialNumber in t && index in t[serialNumber]
  }

  predicate FiledUnder(s: Session, serialNumber: Octets, index: Octets) {
    s.serialNumber == serialNumber && s.fields.sessionId + s.fields.multiSessionId == index
  }

  /** Each session sits under its own serial number and under its own name. */
  ghost predicate Filed(t: Table) {
    forall serialNumber, index | Tracked(t, serialNumber, index) ::
      FiledUnder(t[serialNumber][index], serialNumber, index)
  }

  /** A session is dropped when the unsigned time since its last message exceeds the timeout. */
  predicate Expired(lastTransaction: nat, now: nat) {
    now < lastTransaction || now - lastTransaction > SESSION_TIMEOUT
  }

  /* ---------- what each message does to the table ---------- */

  /** The count of output packets goes over the output octets, and output packets are never set. */
  function Stored(c: Counters): Counters {
    c.(outputOctets := c.outputPackets, outputPackets := 0)
  }

  /** The session that an accounting message opens. */
  function Opened(n: Notification, r: Reading, now: nat): Session {
    Session(n.serialNumber, n.destination, now, now, r.fields, [], r.proxyInterface, Stored(r.counters), n.secret,
            n.packet)
  }

  /** The session after another accounting message. */
  function Updated(s: Session, n: Notification, r: Reading, now: nat): Session {
    s.(accountingPacket := n.packet, destination := n.destination, lastTransaction := now,
       counters := Stored(r.counters))
  }

  /** The session that an authentication message opens. */
  function Announced(n: Notification, r: Reading, now: nat): Session {
    Session(n.serialNumber, [], now, now, r.fields, r.nasId, r.proxyInterface, NO_COUNTERS, n.secret, NoPacket())
  }

  ghost function AfterAccounting(t: Table, n: Notification, now: nat): Table
    requires Readable(n.packet, OfAccounting)
  {
    match ReadingIn(n.packet, OfAccounting)
    case None => t
    case Some(r) =>
      var m, index := SessionsOf(t, n.serialNumber), IndexOf(r);
      t[n.serialNumber :=
        if index !in m then
          if r.status != STATUS_START && r.status != STATUS_INTERIM then m
          else m[index := Opened(n, r, now)]
        else if r.status == STATUS_STOP then m - {index}
        else m[index := Updated(m[index], n, r, now)]]
  }

  ghost function AfterAuthentication(t: Table, n: Notification, now: nat): Table
    requires Readable(n.packet, OfAuthentication)
  {
    match ReadingIn(n.packet, OfAuthentication)
    case None => t
    case Some(r) =>
      var m, index := SessionsOf(t, n.serialNumber), IndexOf(r);
      t[n.serialNumber :=
        if index !in m then m[index := Announced(n, r, now)]
        else m[index := m[index].(lastTransaction := now)]]
  }

  function Kept(m: Sessions, now: nat): Sessions {
    map index | index in m && !Expired(m[index].lastTransaction, now) :: m[index]
  }

  function AfterCollection(t: Table, now: nat): Table {
    map serialNumber | serialNumber in t && Kept(t[serialNumber], now) != map[] :: Kept(t[serialNumber], now)
  }

  /* ---------- whole runs ---------- */

  datatype Event =
    | Accounting(n: Notification, now: nat)
    | Authentication(n: Notification, now: nat)
    | ApDisconnect(serialNumber: Octets)
    | Collection(now: nat)

  /** What the loop for a message reads of it is in the buffer. */
  ghost predicate Processable(e: Event) {
    match e
    case Accounting(n, _) => Readable(n.packet, OfAccounting)
    case Authentication(n, _) => Readable(n.packet, OfAuthentication)
    case _ => true
  }

  ghost predicate AllProcessable(events: seq<Event>) {
    forall e | e in events :: Processable(e)
  }

  ghost function Step(t: Table, e: Event): Table
    requires Processable(e)
  {
    match e
    case Accounting(n, now) => AfterAccounting(t, n, now)
    case Authentication(n, now) => AfterAuthentication(t, n, now)
    case ApDisconnect(serialNumber) => t - {serialNumber}
    case Collection(now) => AfterCollection(t, now)
  }

  ghost function Run(events: seq<Event>): Table
    requires AllProcessable(events)
  {
    if events == [] then map[]
    else Step(Run(events[..|events| - 1]), events[|events| - 1])
  }

  /** One session on its own, if it is tracked at all. */
  ghost function Alone(s: Option<Session>, e: Event, serialNumber: Octets, index: Octets): Option<Session>
    requires Processable(e)
  {
    match e
    case Accounting(n, now) =>
      (match ReadingIn(n.packet, OfAccounting)
       case None => s
       case Some(r) =>
         if n.serialNumber != serialNumber || IndexOf(r) != index then s
         else if s.None? then
           if r.status == STATUS_START || r.status == STATUS_INTERIM then Some(Opened(n, r, now)) else None
         else if r.status == STATUS_STOP then None
         else Some(Updated(s.value, n, r, now)))
    case Authentication(n, now) =>
      (match ReadingIn(n.packet, OfAuthentication)
       case None => s
       case Some(r) =>
         if n.serialNumber != serialNumber || IndexOf(r) != index then s
         else if s.None? then Some(Announced(n, r, now))
         else Some(s.value.(lastTransaction := now)))
    case ApDisconnect(gone) => if gone == serialNumber then None else s
    case Collection(now) => if s.Some? && Expired(s.value.lastTransaction, now) then None else s
  }

  ghost function AloneAfter(events: seq<Event>, serialNumber: Octets, index: Octets): Option<Session>
    requires AllProcessable(events)
  {
    if events == [] then None
    else Alone(AloneAfter(events[..|events| - 1], serialNumber, index), events[|events| - 1], serialNumber, index)
  }

  function View(t: Table, serialNumber: Octets, index: Octets): Option<Session> {
    if Tracked(t, serialNumber, index) then Some(t[serialNumber][index]) else None
  }

  /** Over every run the nested table is nothing but its sessions side by side: each of them, with
      all its fields, is exactly what it would be if it were alone. */
  lemma {:induction false} TableIsItsSessions(events: seq<Event>, serialNumber: Octets, index: Octets)
    requires AllProcessable(events)
    ensures View(Run(events), serialNumber, index) == AloneAfter(events, serialNumber, index)
  {
    if events != [] {
      var before := events[..|events| - 1];
      TableIsItsSessions(before, serialNumber, index);
      StepIsAlone(Run(before), events[|events| - 1], serialNumber, index);
    }
  }

  lemma StepIsAlone(t: Table, e: Event, serialNumber: Octets, index: Octets)
    requires Processable(e)
    ensures View(Step(t, e), serialNumber, index) == Alone(View(t, serialNumber, index), e, serialNumber, index)
  {
    hide Readable, IndexOf, ReadingIn, NoPacket, Stored;
    if e.Collection? && Tracked(t, serialNumber, index) && !Expired(t[serialNumber][index].lastTransaction, e.now) {
      assert index in Kept(t[serialNumber], e.now);
    }
  }

  /** Over every run each session sits under its own serial number and name. */
  lemma {:induction false} AlwaysFiled(events: seq<Event>)
    requires AllProcessable(events)
    ensures Filed(Run(events))
  {
    if events != [] {
      AlwaysFiled(events[..|events| - 1]);
      StepKeepsFiled(Run(events[..|events| - 1]), events[|events| - 1]);
    }
  }

  lemma StepKeepsFiled(t: Table, e: Event)
    requires Processable(e)
    requires Filed(t)
    ensures Filed(Step(t, e))
  {
    hide Processable, Step, Alone, FiledUnder;
    forall serialNumber, index | Tracked(Step(t, e), serialNumber, index)
      ensures FiledUnder(Step(t, e)[serialNumber][index], serialNumber, index)
    {
      StepIsAlone(t, e, serialNumber, index);
      AloneIsFiled(View(t, serialNumber, index), e, serialNumber, index);
    }
  }

  lemma AloneIsFiled(s: Option<Session>, e: Event, serialNumber: Octets, index: Octets)
    requires Processable(e)
    requires s.Some? ==> FiledUnder(s.value, serialNumber, index)
    ensures var t := Alone(s, e, serialNumber, index);
      t.Some? ==> FiledUnder(t.value, serialNumber, index)
  {
    hide Readable, ReadingIn, NoPacket, Stored;
  }

  /** An accounting message of a session. */
  ghost predicate Addressed(e: Event, serialNumber: Octets, index: Octets)
    requires Processable(e)
  {
    && e.Accounting? && e.n.serialNumber == serialNumber
    && ReadingIn(e.n.packet, OfAccounting).Some?
    && IndexOf(ReadingIn(e.n.packet, OfAccounting).value) == index
  }

  /** The last accounting message of a session. */
  ghost predicate LastAddressed(events: seq<Event>, k: nat, serialNumber: Octets, index: Octets)
    requires AllProcessable(events)
  {
    && k < |events| && Addressed(events[k], serialNumber, index)
    && forall j | k < j < |events| :: !Addressed(events[j], serialNumber, index)
  }

  /** A session that has only seen authentication messages. */
  predicate OnlyAnnounced(s: Session) {
    s.accountingPacket == NoPacket() && s.destination == [] && s.counters == NO_COUNTERS
  }

  /** What a session holds of an accounting message, which is no Stop. */
  ghost predicate Holds(s: Session, e: Event)
    requires Processable(e) && e.Accounting? && ReadingIn(e.n.packet, OfAccounting).Some?
  {
    var r := ReadingIn(e.n.packet, OfAccounting).value;
    && s.accountingPacket == e.n.packet && s.destination == e.n.destination && s.counters == Stored(r.counters)
    && r.status != STATUS_STOP
  }

  ghost predicate HoldsLast(s: Session, events: seq<Event>, serialNumber: Octets, index: Octets)
    requires AllProcessable(events)
  {
    exists k :: HoldsAt(s, events, k, serialNumber, index)
  }

  ghost predicate HoldsAt(s: Session, events: seq<Event>, k: nat, serialNumber: Octets, index: Octets)
    requires AllProcessable(events)
  {
    LastAddressed(events, k, serialNumber, index) && Holds(s, events[k])
  }

  /** Over every run: what a tracked session holds, packet, destination and counters, is that of its
      last accounting message, which is no Stop; or the session has only been announced. */
  lemma {:induction false} SessionIsOfLastMessage(events: seq<Event>, serialNumber: Octets, index: Octets)
    requires AllProcessable(events) && Tracked(Run(events), serialNumber, index)
    ensures var s := Run(events)[serialNumber][index];
      OnlyAnnounced(s) || HoldsLast(s, events, serialNumber, index)
  {
    TableIsItsSessions(events, serialNumber, index);
    AloneHoldsLast(events, serialNumber, index);
    hide Run, AloneAfter, HoldsLast, OnlyAnnounced;
  }

  lemma {:induction false} AloneHoldsLast(events: seq<Event>, serialNumber: Octets, index: Octets)
    requires AllProcessable(events)
    ensures var s := AloneAfter(events, serialNumber, index);
      s.Some? ==> OnlyAnnounced(s.value) || HoldsLast(s.value, events, serialNumber, index)
  {
    hide Processable, Addressed, Holds, HoldsAt, NoPacket, Alone;
    if events != [] {
      var some, last := events[..|events| - 1], events[|events| - 1];
      AloneHoldsLast(some, serialNumber, index);
      var s, t := AloneAfter(some, serialNumber, index), AloneAfter(events, serialNumber, index);
      AloneStep(s, last, serialNumber, index);
      if t.Some? && Addressed(last, serialNumber, index) {
        LastHolds(t.value, events, serialNumber, index);
      } else if s.Some? && t.Some? && HoldsLast(s.value, some, serialNumber, index) {
        var k :| HoldsAt(s.value, some, k, serialNumber, index);
        HoldsOn(s.value, t.value, events, k, serialNumber, index);
      }
    }
  }

  lemma LastHolds(t: Session, events: seq<Event>, serialNumber: Octets, index: Octets)
    requires AllProcessable(events) && events != [] && Addressed(events[|events| - 1], serialNumber, index)
    requires Holds(t, events[|events| - 1])
    ensures HoldsAt(t, events, |events| - 1, serialNumber, index)
  {
  }

  lemma HoldsOn(s: Session, t: Session, events: seq<Event>, k: nat, serialNumber: Octets, index: Octets)
    requires AllProcessable(events) && events != [] && !Addressed(events[|events| - 1], serialNumber, index)
    requires AllProcessable(events[..|events| - 1]) && HoldsAt(s, events[..|events| - 1], k, serialNumber, index)
    requires SameHeld(s, t)
    ensures HoldsAt(t, events, k, serialNumber, index)
  {
    hide ReadingIn, Processable, IndexOf;
    var some := events[..|events| - 1];
    assert forall j | 0 <= j < |some| :: events[j] == some[j];
  }

  /** Two sessions hold the same. */
  predicate SameHeld(s: Session, t: Session) {
    t.accountingPacket == s.accountingPacket && t.destination == s.destination && t.counters == s.counters
  }

  lemma AloneStep(s: Option<Session>, e: Event, serialNumber: Octets, index: Octets)
    requires Processable(e)
    ensures var t := Alone(s, e, serialNumber, index);
      && (Addressed(e, serialNumber, index) ==>
            e.Accounting? && ReadingIn(e.n.packet, OfAccounting).Some? && (t.Some? ==> Holds(t.value, e)))
      && (!Addressed(e, serialNumber, index) && t.Some? ==>
            if s.Some? then SameHeld(s.value, t.value) else OnlyAnnounced(t.value))
  {
    hide Readable, ReadingIn, NoPacket, IndexOf, Stored;
  }

  ghost function OutputPacketsOf(e: Event): nat
    requires Processable(e) && e.Accounting? && ReadingIn(e.n.packet, OfAccounting).Some?
  {
    ReadingIn(e.n.packet, OfAccounting).value.counters.outputPackets
  }

  ghost predicate IsOutputPackets(count: nat, events: seq<Event>, k: nat, serialNumber: Octets, index: Octets)
    requires AllProcessable(events)
  {
    LastAddressed(events, k, serialNumber, index) && count == OutputPacketsOf(events[k])
  }

  /** Over every run: the field for output packets is never set, and the one for output octets holds
      the output packets of the last accounting message. */
  lemma OutputOctetsArePackets(events: seq<Event>, serialNumber: Octets, index: Octets)
    requires AllProcessable(events) && Tracked(Run(events), serialNumber, index)
    ensures var c := Run(events)[serialNumber][index].counters;
      && c.outputPackets == 0
      && (c.outputOctets == 0 || exists k :: IsOutputPackets(c.outputOctets, events, k, serialNumber, index))
  {
    SessionIsOfLastMessage(events, serialNumber, index);
    var s := Run(events)[serialNumber][index];
    hide Run, OnlyAnnounced, HoldsAt, IsOutputPackets, AllProcessable;
    if OnlyAnnounced(s) {
      AnnouncedCounters(s);
    } else {
      var k :| HoldsAt(s, events, k, serialNumber, index);
      HeldCounters(s, events, k, serialNumber, index);
    }
  }

  lemma AnnouncedCounters(s: Session)
    requires OnlyAnnounced(s)
    ensures s.counters == NO_COUNTERS
  {
  }

  lemma HeldCounters(s: Session, events: seq<Event>, k: nat, serialNumber: Octets, index: Octets)
    requires AllProcessable(events) && HoldsAt(s, events, k, serialNumber, index)
    ensures s.counters.outputPackets == 0
    ensures IsOutputPackets(s.counters.outputOctets, events, k, serialNumber, index)
  {
    hide ReadingIn, Readable, IndexOf, AllProcessable;
  }

  /** What the loop for a message read of it. */
  ghost function Read(e: Event): Option<Reading>
    requires Processable(e)
  {
    match e
    case Accounting(n, _) => ReadingIn(n.packet, OfAccounting)
    case Authentication(n, _) => ReadingIn(n.packet, OfAuthentication)
    case _ => None
  }

  /** A message of a session, of either kind. */
  ghost predicate Touches(e: Event, serialNumber: Octets, index: Octets)
    requires Processable(e)
  {
    && (e.Accounting? || e.Authentication?) && e.n.serialNumber == serialNumber
    && Read(e).Some? && IndexOf(Read(e).value) == index
  }

  /** The last message of a session. */
  ghost predicate LastTouching(events: seq<Event>, k: nat, serialNumber: Octets, index: Octets)
    requires AllProcessable(events)
  {
    && k < |events| && Touches(events[k], serialNumber, index)
    && forall j | k < j < |events| :: !Touches(events[j], serialNumber, index)
  }

  /** The message that made a session, which has been tracked ever since. */
  ghost predicate OpenedBy(events: seq<Event>, o: nat, serialNumber: Octets, index: Octets)
    requires AllProcessable(events)
  {
    && o < |events| && Touches(events[o], serialNumber, index)
    && !TrackedThen(events, o, serialNumber, index)
    && forall j | o < j <= |events| :: TrackedThen(events, j, serialNumber, index)
  }

  /** A session is tracked after the first j events. */
  ghost predicate TrackedThen(events: seq<Event>, j: nat, serialNumber: Octets, index: Octets)
    requires AllProcessable(events) && j <= |events|
  {
    Tracked(Run(events[..j]), serialNumber, index)
  }

  /** What a session keeps of the message that made it. */
  ghost predicate Keeps(s: Session, e: Event)
    requires Processable(e) && Read(e).Some?
  {
    && s.started == e.now && s.secret == e.n.secret && s.serialNumber == e.n.serialNumber
    && s.fields == Read(e).value.fields && s.nasId == Read(e).value.nasId
    && s.proxyInterface == Read(e).value.proxyInterface
  }

  ghost predicate HeardAt(moment: nat, events: seq<Event>, k: nat, serialNumber: Octets, index: Octets)
    requires AllProcessable(events)
  {
    LastTouching(events, k, serialNumber, index) && moment == events[k].now
  }

  /** The moment of the last message of a session. */
  ghost predicate LastHeard(moment: nat, events: seq<Event>, serialNumber: Octets, index: Octets)
    requires AllProcessable(events)
  {
    exists k :: HeardAt(moment, events, k, serialNumber, index)
  }

  ghost predicate KeptSince(s: Session, events: seq<Event>, o: nat, serialNumber: Octets, index: Octets)
    requires AllProcessable(events)
  {
    OpenedBy(events, o, serialNumber, index) && Keeps(s, events[o])
  }

  /** Over every run, from the messages alone: the time of a tracked session is that of its last message of
      either kind; and when it started, its secret and what describes it are of the message that made it. */
  lemma {:induction false} SessionRemembers(events: seq<Event>, serialNumber: Octets, index: Octets)
    requires AllProcessable(events) && Tracked(Run(events), serialNumber, index)
    ensures var s := Run(events)[serialNumber][index];
      && LastHeard(s.lastTransaction, events, serialNumber, index)
      && (exists o :: KeptSince(s, events, o, serialNumber, index))
  {
    hide Processable, Step, Touches, Keeps, Read, HeardAt, KeptSince, Alone;
    if events != [] {
      var some, e := events[..|events| - 1], events[|events| - 1];
      var t := Run(some);
      StepIsAlone(t, e, serialNumber, index);
      AloneRemembers(View(t, serialNumber, index), e, serialNumber, index);
      assert events[..|some|] == some && events[..|events|] == events;
      var after := Run(events)[serialNumber][index];
      if Tracked(t, serialNumber, index) {
        SessionRemembers(some, serialNumber, index);
        var before := t[serialNumber][index];
        var k :| HeardAt(before.lastTransaction, some, k, serialNumber, index);
        var o :| KeptSince(before, some, o, serialNumber, index);
        HeardOn(before, after, events, k, serialNumber, index);
        KeptOn(before, after, events, o, serialNumber, index);
      } else {
        HeardFirst(after, events, serialNumber, index);
        KeptFirst(after, events, serialNumber, index);
      }
    }
  }

  /** One message, or one other event, seen by one session. */
  lemma AloneRemembers(s: Option<Session>, e: Event, serialNumber: Octets, index: Octets)
    requires Processable(e)
    ensures var t := Alone(s, e, serialNumber, index);
      t.Some? ==>
        && (Touches(e, serialNumber, index) ==> t.value.lastTransaction == e.now)
        && (!Touches(e, serialNumber, index) ==> s.Some? && t.value.lastTransaction == s.value.lastTransaction)
        && (s.Some? ==> SameOrigin(s.value, t.value))
        && (s.None? ==> Touches(e, serialNumber, index) && Keeps(t.value, e))
  {
    if s.Some? {
      LaterRemembers(s.value, e, serialNumber, index);
    } else {
      FirstRemembers(e, serialNumber, index);
    }
    hide Alone, Touches, Keeps, SameOrigin;
  }

  lemma LaterRemembers(s: Session, e: Event, serialNumber: Octets, index: Octets)
    requires Processable(e)
    ensures var t := Alone(Some(s), e, serialNumber, index);
      t.Some? ==>
        && t.value.lastTransaction == (if Touches(e, serialNumber, index) then e.now else s.lastTransaction)
        && SameOrigin(s, t.value)
  {
    hide Readable, ReadingIn, NoPacket, IndexOf, Stored, Expired;
  }

  lemma FirstRemembers(e: Event, serialNumber: Octets, index: Octets)
    requires Processable(e)
    ensures var t := Alone(None, e, serialNumber, index);
      t.Some? ==> Touches(e, serialNumber, index) && t.value.lastTransaction == e.now && Keeps(t.value, e)
  {
    if e.Accounting? && Read(e).Some? {
      NoNasId(e.n.packet);
    }
    hide Readable, ReadingIn, NoPacket, IndexOf, Stored, Expired;
  }

  /** The loop of accounting messages does not read the identifier of a NAS. */
  lemma NoNasId(p: Image)
    requires Readable(p, OfAccounting) && ReadingIn(p, OfAccounting).Some?
    ensures ReadingIn(p, OfAccounting).value.nasId == []
  {
    hide FieldsOf, CountersOf, Interface, Status;
  }

  predicate SameOrigin(s: Session, t: Session) {
    && t.started == s.started && t.secret == s.secret && t.serialNumber == s.serialNumber
    && t.fields == s.fields && t.nasId == s.nasId && t.proxyInterface == s.proxyInterface
  }

  lemma HeardFirst(t: Session, events: seq<Event>, serialNumber: Octets, index: Octets)
    requires AllProcessable(events) && events != [] && Touches(events[|events| - 1], serialNumber, index)
    requires t.lastTransaction == events[|events| - 1].now
    ensures HeardAt(t.lastTransaction, events, |events| - 1, serialNumber, index)
  {
  }

  lemma HeardOn(s: Session, t: Session, events: seq<Event>, k: nat, serialNumber: Octets, index: Octets)
    requires AllProcessable(events) && events != [] && AllProcessable(events[..|events| - 1])
    requires HeardAt(s.lastTransaction, events[..|events| - 1], k, serialNumber, index)
    requires Touches(events[|events| - 1], serialNumber, index) ==> t.lastTransaction == events[|events| - 1].now
    requires !Touches(events[|events| - 1], serialNumber, index) ==> t.lastTransaction == s.lastTransaction
    ensures LastHeard(t.lastTransaction, events, serialNumber, index)
  {
    hide Processable, Touches;
    var some := events[..|events| - 1];
    assert forall j | 0 <= j < |some| :: events[j] == some[j];
    if Touches(events[|events| - 1], serialNumber, index) {
      HeardFirst(t, events, serialNumber, index);
    } else {
      assert HeardAt(t.lastTransaction, events, k, serialNumber, index);
    }
  }

  lemma KeptFirst(t: Session, events: seq<Event>, serialNumber: Octets, index: Octets)
    requires AllProcessable(events) && events != [] && Touches(events[|events| - 1], serialNumber, index)
    requires Tracked(Run(events), serialNumber, index)
    requires !Tracked(Run(events[..|events| - 1]), serialNumber, index) && Keeps(t, events[|events| - 1])
    ensures KeptSince(t, events, |events| - 1, serialNumber, index)
  {
    hide Processable, Touches, Keeps, Run;
    assert events[..|events|] == events;
  }

  lemma KeptOn(s: Session, t: Session, events: seq<Event>, o: nat, serialNumber: Octets, index: Octets)
    requires AllProcessable(events) && events != [] && AllProcessable(events[..|events| - 1])
    requires KeptSince(s, events[..|events| - 1], o, serialNumber, index) && SameOrigin(s, t)
    requires Tracked(Run(events), serialNumber, index)
    ensures KeptSince(t, events, o, serialNumber, index)
  {
    hide Processable, Touches, Run, Read;
    OpenedOn(events, o, serialNumber, index);
    hide OpenedBy;
    assert events[..|events| - 1][o] == events[o];
  }

  lemma OpenedOn(events: seq<Event>, o: nat, serialNumber: Octets, index: Octets)
    requires AllProcessable(events) && events != [] && AllProcessable(events[..|events| - 1])
    requires OpenedBy(events[..|events| - 1], o, serialNumber, index) && Tracked(Run(events), serialNumber, index)
    ensures OpenedBy(events, o, serialNumber, index) && o < |events| - 1
  {
    hide Run, Processable, Touches, TrackedThen;
    var some := events[..|events| - 1];
    assert some[o] == events[o] && some[o] in some;
    forall j | 0 <= j <= |some|
      ensures TrackedThen(events, j, serialNumber, index) <==> TrackedThen(some, j, serialNumber, index)
    {
      TrackedInFront(events, j, serialNumber, index);
    }
    TrackedInTheEnd(events, serialNumber, index);
  }

  lemma TrackedInFront(events: seq<Event>, j: nat, serialNumber: Octets, index: Octets)
    requires AllProcessable(events) && j < |events| && AllProcessable(events[..|events| - 1])
    ensures TrackedThen(events, j, serialNumber, index)
       <==> TrackedThen(events[..|events| - 1], j, serialNumber, index)
  {
    hide Run, Processable;
    assert events[..|events| - 1][..j] == events[..j];
  }

  lemma TrackedInTheEnd(events: seq<Event>, serialNumber: Octets, index: Octets)
    requires AllProcessable(events)
    ensures TrackedThen(events, |events|, serialNumber, index) <==> Tracked(Run(events), serialNumber, index)
  {
    hide Run, Processable;
    assert events[..|events|] == events;
  }

  /** So a collection drops a session if and only if its last message is more than 600 seconds away, or in
      the future. */
  lemma UnheardAreDropped(events: seq<Event>, now: nat, serialNumber: Octets, index: Octets)
    requires AllProcessable(events) && Tracked(Run(events), serialNumber, index)
    ensures AllProcessable(events + [Collection(now)])
    ensures exists moment: nat ::
      && LastHeard(moment, events, serialNumber, index)
      && (Tracked(Run(events + [Collection(now)]), serialNumber, index) <==> moment <= now <= moment + 600)
  {
    SessionRemembers(events, serialNumber, index);
    DroppedIfExpired(events, now, serialNumber, index);
    hide Run, AllProcessable, LastHeard, Processable, Tracked;
    assert LastHeard(Run(events)[serialNumber][index].lastTransaction, events, serialNumber, index);
  }

  lemma DroppedIfExpired(events: seq<Event>, now: nat, serialNumber: Octets, index: Octets)
    requires AllProcessable(events) && Tracked(Run(events), serialNumber, index)
    ensures AllProcessable(events + [Collection(now)])
    ensures Tracked(Run(events + [Collection(now)]), serialNumber, index)
       <==> !Expired(Run(events)[serialNumber][index].lastTransaction, now)
  {
    var all := events + [Collection(now)];
    assert all[..|events|] == events;
    CollectionIsExact(Run(events), now);
    assert Run(all) == AfterCollection(Run(events), now);
  }

  /** Whether a session is tracked after one more event, in terms of the event: an accounting message with
      status 1 or 3, or an authentication, makes it, one with status 2 ends it. */
  lemma TrackedAfter(events: seq<Event>, e: Event, serialNumber: Octets, index: Octets)
    requires AllProcessable(events + [e]) && AllProcessable(events)
    ensures Processable(e)
    ensures var before := Tracked(Run(events), serialNumber, index);
      Tracked(Run(events + [e]), serialNumber, index)
      <==> match e {
             case Accounting(_, _) =>
               if !Touches(e, serialNumber, index) then before
               else if before then Read(e).value.status != 2 else Read(e).value.status in [1, 3]
             case Authentication(_, _) => before || Touches(e, serialNumber, index)
             case ApDisconnect(gone) => before && gone != serialNumber
             case Collection(now) => before && !Expired(Run(events)[serialNumber][index].lastTransaction, now)
           }
  {
    var all := events + [e];
    assert e in all;
    assert all[..|events|] == events;
    assert Run(all) == Step(Run(events), e);
    StepIsAlone(Run(events), e, serialNumber, index);
    hide Run, Step, ReadingIn, Readable, NoPacket;
  }

  /** A collection leaves no device without sessions, and keeps exactly the sessions in time. */
  lemma CollectionIsExact(t: Table, now: nat)
    ensures forall serialNumber | serialNumber in AfterCollection(t, now) ::
      AfterCollection(t, now)[serialNumber] != map[]
    ensures forall serialNumber, index ::
      Tracked(AfterCollection(t, now), serialNumber, index)
      <==> Tracked(t, serialNumber, index) && !Expired(t[serialNumber][index].lastTransaction, now)
    ensures forall serialNumber, index | Tracked(AfterCollection(t, now), serialNumber, index) ::
      AfterCollection(t, now)[serialNumber][index] == t[serialNumber][index]
  {
    forall serialNumber, index | Tracked(t, serialNumber, index)
      && !Expired(t[serialNumber][index].lastTransaction, now)
      ensures Tracked(AfterCollection(t, now), serialNumber, index)
    {
      assert index in Kept(t[serialNumber], now);
    }
  }

  /* ---------- sessions can be stopped ---------- */

  ghost predicate StopsFit(t: Table) {
    forall serialNumber, index | Tracked(t, serialNumber, index) :: StopFits(t[serialNumber][index].accountingPacket)
  }

  /** Over every run of messages whose packets leave room for a Stop, so do those of all sessions,
      also of those that only an authentication made. */
  lemma {:induction false} SessionsCanStop(events: seq<Event>)
    requires AllProcessable(events)
    requires forall e | e in events && e.Accounting? :: StopFits(e.n.packet)
    ensures StopsFit(Run(events))
  {
    if events != [] {
      SessionsCanStop(events[..|events| - 1]);
      StepKeepsStops(Run(events[..|events| - 1]), events[|events| - 1]);
    }
  }

  lemma StepKeepsStops(t: Table, e: Event)
    requires Processable(e)
    requires StopsFit(t) && (e.Accounting? ==> StopFits(e.n.packet))
    ensures StopsFit(Step(t, e))
  {
    NoPacketFits();
    hide StopFits, NoPacket, Readable, ReadingIn;
    forall serialNumber, index | Tracked(Step(t, e), serialNumber, index)
      ensures StopFits(Step(t, e)[serialNumber][index].accountingPacket)
    {
      assert Tracked(t, serialNumber, index) || e.Accounting? || e.Authentication?;
    }
  }

  /** Over every run of messages whose statuses have their octets: what is built for a tracked session
      is read as a Stop if and only if the packet it holds has exactly one visible Acct-Status-Type. */
  lemma SessionsThatStop(events: seq<Event>, serialNumber: Octets, index: Octets,
                         time: nat, route: Route, md5: Octets -> Digest, q: Image)
    requires AllProcessable(events) && Tracked(Run(events), serialNumber, index) && time < TWO_32
    requires var p := Run(events)[serialNumber][index].accountingPacket;
      StopFits(p) && LastFits(ImageContents(p)) && IsBuilt(p, time, route, md5, q)
    ensures ReadsAsStop(q) <==> OneStatus(ImageContents(Run(events)[serialNumber][index].accountingPacket))
  {
    var s := Run(events)[serialNumber][index];
    SessionIsOfLastMessage(events, serialNumber, index);
    hide Run, OnlyAnnounced, HoldsAt, AllProcessable, StopFits, IsBuilt, ReadsAsStop, LastSpot, LastFits;
    hide OneStatus, CanSayStop;
    StopReadsIfItCan(s.accountingPacket, time, route, md5, q);
    if OnlyAnnounced(s) {
      AnnouncedHasNone(s);
    } else {
      var k :| HoldsAt(s, events, k, serialNumber, index);
      HeldIsNoStop(s, events, k, serialNumber, index);
      NoStopSaysOne(s.accountingPacket);
    }
  }

  lemma AnnouncedHasNone(s: Session)
    requires OnlyAnnounced(s) && StopFits(s.accountingPacket) && LastFits(ImageContents(s.accountingPacket))
    ensures !CanSayStop(ImageContents(s.accountingPacket)) && !OneStatus(ImageContents(s.accountingPacket))
  {
    NoPacketFits();
  }

  lemma HeldIsNoStop(s: Session, events: seq<Event>, k: nat, serialNumber: Octets, index: Octets)
    requires AllProcessable(events) && HoldsAt(s, events, k, serialNumber, index)
    ensures Readable(s.accountingPacket, OfAccounting) && ReadingIn(s.accountingPacket, OfAccounting).Some?
    ensures ReadingIn(s.accountingPacket, OfAccounting).value.status != STATUS_STOP
  {
    assert Processable(events[k]);
    hide ReadingIn, Readable, IndexOf, AllProcessable;
  }

  /** Of a message that the tracker does not read as a Stop, it takes one status to make it say so. */
  lemma NoStopSaysOne(p: Image)
    requires StopFits(p) && LastFits(ImageContents(p)) && Readable(p, OfAccounting)
    requires ReadingIn(p, OfAccounting).Some? && ReadingIn(p, OfAccounting).value.status != STATUS_STOP
    ensures CanSayStop(ImageContents(p)) <==> OneStatus(ImageContents(p))
  {
    StatusRead(p);
    hide StopFits, LastSpot, FieldsOf, CountersOf, Interface, Field, ImageContents, Status, Has, Spot;
  }

  /** A session that an authentication made is tracked, and what is built for it is no Stop. */
  lemma AnnouncedGetsNoStop(n: Notification, now: nat, time: nat, route: Route, md5: Octets -> Digest, q: Image)
    requires Readable(n.packet, OfAuthentication) && ReadingIn(n.packet, OfAuthentication).Some? && time < TWO_32
    requires StopFits(NoPacket()) && IsBuilt(NoPacket(), time, route, md5, q)
    ensures var events, index := [Authentication(n, now)], IndexOf(ReadingIn(n.packet, OfAuthentication).value);
      && AllProcessable(events) && Tracked(Run(events), n.serialNumber, index)
      && Run(events)[n.serialNumber][index].accountingPacket == NoPacket()
      && q.code == 0 && !ReadsAsStop(q)
  {
    NoPacketGetsNoStop(time, route, md5, q);
    var events := [Authentication(n, now)];
    assert events[..0] == [];
    assert Run(events) == Step(map[], events[0]);
    hide ReadingIn, IsBuilt, ReadsAsStop, StopFits, NoPacket;
  }

  /** An accounting message with a status of 1 and nothing else. */
  function StartPacket(): Image {
    Image(4, 0, 26, ZEROS, seq(AREA_SIZE, i => if i == 0 then 40 else if i == 1 then 6 else if i == 5 then 1 else 0),
          [Descriptor(ACCT_STATUS_TYPE, 2, 4)], 26, true)
  }

  /** One with no attribute at all. */
  function SilentPacket(): Image {
    NoPacket().(code := 4, rawLength := 20, valid := true)
  }

  lemma SilentIsRead()
    ensures Readable(SilentPacket(), OfAccounting)
    ensures var r := ReadingIn(SilentPacket(), OfAccounting);
      r.Some? && r.value.fields == NO_FIELDS && r.value.status == 0
    ensures StopFits(SilentPacket()) && LastFits(ImageContents(SilentPacket()))
    ensures !CanSayStop(ImageContents(SilentPacket()))
  {
    assert ImageArea(SilentPacket()) == [];
  }

  /** A Start, and then a message without status: the session holds the second, which cannot be made to
      say Stop. */
  lemma SilentMessageIsHeld(serialNumber: Octets)
    ensures var events := [Accounting(Notification([], serialNumber, StartPacket(), []), 0),
                           Accounting(Notification([], serialNumber, SilentPacket(), []), 1)];
      && AllProcessable(events) && Tracked(Run(events), serialNumber, [])
      && Run(events)[serialNumber][[]].accountingPacket == SilentPacket()
    ensures StopFits(SilentPacket()) && LastFits(ImageContents(SilentPacket()))
    ensures !CanSayStop(ImageContents(SilentPacket()))
  {
    StartIsRead();
    SilentIsRead();
    hide StartPacket, SilentPacket, ReadingIn, Readable, StopFits, LastFits, CanSayStop;
    var first := Accounting(Notification([], serialNumber, StartPacket(), []), 0);
    var second := Accounting(Notification([], serialNumber, SilentPacket(), []), 1);
    assert [first, second][..1] == [first] && [first][..0] == [];
    assert Run([first]) == Step(map[], first);
    assert Tracked(Run([first]), serialNumber, []);
    assert Run([first, second]) == Step(Run([first]), second);
  }

  lemma StartIsRead()
    ensures Readable(StartPacket(), OfAccounting)
    ensures var r := ReadingIn(StartPacket(), OfAccounting);
      r.Some? && r.value.fields == NO_FIELDS && r.value.status == STATUS_START
  {
    OneStatusIsRead(StartPacket().attributes, Descriptor(ACCT_STATUS_TYPE, 2, 4));
    hide ReadingOf, Textual, Numeric;
  }

  lemma OneStatusIsRead(bytes: Octets, d: Descriptor)
    requires d.kind == ACCT_STATUS_TYPE && d.pos + 3 < |bytes|
    ensures Legible(bytes, [d], OfAccounting) && Copies([d], OfAccounting)
    ensures ReadingOf(bytes, [d], OfAccounting).fields == NO_FIELDS
    ensures ReadingOf(bytes, [d], OfAccounting).status == bytes[d.pos + 3]
  {
    assert [] + [d] == [d];
    assert ReadingOf(bytes, [], OfAccounting) == Reading(NO_FIELDS, [], [], 0, NO_COUNTERS);
    hide ReadingOf;
    ReadingOfMore(bytes, [], d, OfAccounting);
  }

  /* ---------- Disconnect-Requests ---------- */

  /** "0.0.0.0" */
  const ANY_ADDRESS: Octets := [48, 46, 48, 46, 48, 46, 48]

  /** "3799" */
  const COA_PORT: Octets := [51, 55, 57, 57]

  function ProxyState(s: Session): Octets {
    var colon := [RadiusOutput.COLON];
    s.serialNumber + colon + ANY_ADDRESS + colon + COA_PORT + colon + s.proxyInterface
  }

  function Optional(kind: byte, value: Value): seq<Attribute> {
    if value == [] then [] else [Attribute(kind, value)]
  }

  /** The values of a session and the proxy state made from it each fit an attribute. */
  predicate ValuesFit(s: Session) {
    && |s.fields.userName| <= 253 && |s.fields.calledStationId| <= 253 && |s.fields.callingStationId| <= 253
    && |s.nasId| <= 253 && |s.fields.sessionId| <= 253 && |s.fields.multiSessionId| <= 253
    && |ProxyState(s)| <= 253
  }

  function Stations(s: Session): seq<Attribute>
    requires ValuesFit(s)
  {
    Optional(CALLED_STATION_ID, s.fields.calledStationId)
    + Optional(CALLING_STATION_ID, s.fields.callingStationId)
    + Optional(NAS_IDENTIFIER, s.nasId)
  }

  function SessionIds(s: Session): seq<Attribute>
    requires ValuesFit(s)
  {
    Optional(ACCT_SESSION_ID, s.fields.sessionId) + Optional(ACCT_MULTI_SESSION_ID, s.fields.multiSessionId)
  }

  function Head(s: Session): seq<Attribute>
    requires ValuesFit(s)
  {
    [Attribute(AUTH_USERNAME, s.fields.userName), Attribute(NAS_IP, [127, 0, 0, 1])]
  }

  /** The attributes that name a session in a Disconnect-Request. */
  function DisconnectList(s: Session): seq<Attribute>
    requires ValuesFit(s)
  {
    Head(s) + Stations(s) + SessionIds(s) + [Attribute(PROXY_STATE, ProxyState(s))]
  }

  method AppendOptional(packet: Packet, kind: byte, value: Value)
    requires packet.WellFormed() && |packet.Area()| + 2 + |value| < AREA_SIZE
    modifies packet`size, packet`rawLength, packet`valid, packet`attrs, packet.attributes
    ensures packet.WellFormed() && packet.Contents() == old(packet.Contents()) + Optional(kind, value)
    ensures |packet.Area()| <= old(|packet.Area()|) + 2 + |value|
  {
    if value != [] {
      packet.AppendAttribute(kind, value);
    }
  }

  method AppendTwo(packet: Packet, kind: byte, value: Value, nextKind: byte, nextValue: Value)
    requires packet.WellFormed() && |packet.Area()| + 510 < AREA_SIZE
    modifies packet`size, packet`rawLength, packet`valid, packet`attrs, packet.attributes
    ensures packet.WellFormed() && |packet.Area()| <= old(|packet.Area()|) + 510
    ensures packet.Contents() == old(packet.Contents()) + (Optional(kind, value) + Optional(nextKind, nextValue))
  {
    hide Decode, Layout, Visible, Optional;
    AppendOptional(packet, kind, value);
    AppendOptional(packet, nextKind, nextValue);
  }

  method AppendStations(packet: Packet, s: Session)
    requires ValuesFit(s) && packet.WellFormed() && |packet.Area()| < 1024
    modifies packet`size, packet`rawLength, packet`valid, packet`attrs, packet.attributes
    ensures packet.WellFormed() && packet.Contents() == old(packet.Contents()) + Stations(s)
    ensures |packet.Area()| <= old(|packet.Area()|) + 3 * 255
  {
    hide Decode, Layout, Visible, Optional, ProxyState;
    AppendTwo(packet, CALLED_STATION_ID, s.fields.calledStationId, CALLING_STATION_ID, s.fields.callingStationId);
    AppendOptional(packet, NAS_IDENTIFIER, s.nasId);
  }

  method AppendSessionIds(packet: Packet, s: Session)
    requires ValuesFit(s) && packet.WellFormed() && |packet.Area()| < 2048
    modifies packet`size, packet`rawLength, packet`valid, packet`attrs, packet.attributes
    ensures packet.WellFormed() && packet.Contents() == old(packet.Contents()) + SessionIds(s)
    ensures |packet.Area()| <= old(|packet.Area()|) + 2 * 255
  {
    AppendTwo(packet, ACCT_SESSION_ID, s.fields.sessionId, ACCT_MULTI_SESSION_ID, s.fields.multiSessionId);
  }

  method AppendUser(packet: Packet, userName: Value)
    requires packet.WellFormed() && packet.Area() == []
    modifies packet`size, packet`rawLength, packet`valid, packet`attrs, packet.attributes
    ensures packet.WellFormed() && |packet.Area()| <= 261
    ensures packet.Contents()
         == old(packet.Contents()) + [Attribute(AUTH_USERNAME, userName), Attribute(NAS_IP, [127, 0, 0, 1])]
  {
    hide Decode, Layout, Visible;
    packet.AppendAttribute(AUTH_USERNAME, userName);
    packet.AppendAttribute(NAS_IP, [127, 0, 0, 1]);
  }

  /** All the attributes of a Disconnect-Request. */
  method AppendIdentity(packet: Packet, s: Session)
    requires ValuesFit(s) && packet.WellFormed() && packet.Contents() == [] && packet.Area() == []
    modifies packet`size, packet`rawLength, packet`valid, packet`attrs, packet.attributes
    ensures packet.valid && packet.WellFormed() && packet.rawLength == packet.size
    ensures packet.Contents() == DisconnectList(s) && packet.size >= ATTRIBUTE_OFFSET
  {
    hide Decode, Layout, Visible, Stations, SessionIds, ProxyState;
    AppendUser(packet, s.fields.userName);
    AppendStations(packet, s);
    AppendSessionIds(packet, s);
    packet.AppendAttribute(PROXY_STATE, ProxyState(s));
  }

  /** A Disconnect-Request for a session: parsed again it names the session, in this order. */
  method BuildDisconnect(s: Session, identifier: byte, md5: Octets -> Digest) returns (q: Image)
    requires ValuesFit(s)
    ensures ImageWellFormed(q) && ImageContents(q) == DisconnectList(s) && q.valid
    ensures q.code == DISCONNECT_REQUEST && q.identifier == identifier && q.rawLength == q.size
    ensures q.authenticator == md5(Header(q.code, q.identifier, q.size, ZEROS) + ImageArea(q) + s.secret)
  {
    hide Layout, Visible, DisconnectList;
    var packet := new Packet();
    packet.code := DISCONNECT_REQUEST;
    packet.identifier := identifier;
    AppendIdentity(packet, s);
    packet.RecomputeAuthenticator(s.secret, md5);
    q := packet.Snapshot();
  }

  /* ---------- what a Disconnect-Request is read as ---------- */

  lemma OneText(a: Attribute, kind: byte)
    ensures Carries([a], kind) <==> a.kind == kind
    ensures TextIn([a], kind) == if a.kind == kind then a.value else []
  {
    assert [a][..0] == [] && LastAmong([], kind) == None;
  }

  lemma OptionalText(optional: byte, value: Value, kind: byte)
    ensures Carries(Optional(optional, value), kind) <==> optional == kind && value != []
    ensures TextIn(Optional(optional, value), kind) == if optional == kind then value else []
  {
    if value != [] {
      OneText(Attribute(optional, value), kind);
    }
  }

  lemma StationTexts(s: Session, kind: byte)
    requires ValuesFit(s)
    ensures Carries(Stations(s), kind) ==> kind in [30, 31, 32]
    ensures TextIn(Stations(s), kind)
         == if kind == 30 then s.fields.calledStationId else if kind == 31 then s.fields.callingStationId
            else if kind == 32 then s.nasId else []
  {
    var called, calling := Optional(CALLED_STATION_ID, s.fields.calledStationId),
                           Optional(CALLING_STATION_ID, s.fields.callingStationId);
    OptionalText(CALLED_STATION_ID, s.fields.calledStationId, kind);
    OptionalText(CALLING_STATION_ID, s.fields.callingStationId, kind);
    OptionalText(NAS_IDENTIFIER, s.nasId, kind);
    TextInBoth(called, calling, kind);
    TextInBoth(called + calling, Optional(NAS_IDENTIFIER, s.nasId), kind);
    hide Carries, TextIn, Optional, ProxyState;
  }

  lemma IdTexts(s: Session, kind: byte)
    requires ValuesFit(s)
    ensures Carries(SessionIds(s), kind) ==> kind in [44, 50]
    ensures TextIn(SessionIds(s), kind)
         == if kind == 44 then s.fields.sessionId else if kind == 50 then s.fields.multiSessionId else []
  {
    OptionalText(ACCT_SESSION_ID, s.fields.sessionId, kind);
    OptionalText(ACCT_MULTI_SESSION_ID, s.fields.multiSessionId, kind);
    TextInBoth(Optional(ACCT_SESSION_ID, s.fields.sessionId), Optional(ACCT_MULTI_SESSION_ID, s.fields.multiSessionId),
               kind);
    hide Carries, TextIn, Optional, ProxyState;
  }

  /** What the attributes of a Disconnect-Request say, kind by kind. */
  lemma DisconnectTexts(s: Session, kind: byte)
    requires ValuesFit(s)
    ensures TextIn(DisconnectList(s), kind)
         == match kind {
              case 1 => s.fields.userName
              case 4 => [127, 0, 0, 1]
              case 30 => s.fields.calledStationId
              case 31 => s.fields.callingStationId
              case 32 => s.nasId
              case 33 => ProxyState(s)
              case 44 => s.fields.sessionId
              case 50 => s.fields.multiSessionId
              case _ => []
            }
  {
    var head, proxy := Head(s), [Attribute(PROXY_STATE, ProxyState(s))];
    HeadTexts(s, kind);
    OneText(proxy[0], kind);
    StationTexts(s, kind);
    IdTexts(s, kind);
    assert DisconnectList(s) == head + Stations(s) + SessionIds(s) + proxy;
    hide Carries, TextIn, Stations, SessionIds, ProxyState, ValuesFit, Head, DisconnectList;
    TextInFour(head, Stations(s), SessionIds(s), proxy, kind);
  }

  lemma TextInFour(a: seq<Attribute>, b: seq<Attribute>, c: seq<Attribute>, d: seq<Attribute>, kind: byte)
    ensures TextIn(a + b + c + d, kind)
         == if Carries(d, kind) then TextIn(d, kind) else if Carries(c, kind) then TextIn(c, kind)
            else if Carries(b, kind) then TextIn(b, kind) else TextIn(a, kind)
  {
    hide Carries, TextIn;
    TextInBoth(a, b, kind);
    TextInBoth(a + b, c, kind);
    TextInBoth(a + b + c, d, kind);
  }

  lemma HeadTexts(s: Session, kind: byte)
    requires ValuesFit(s)
    ensures Carries(Head(s), kind) ==> kind in [1, 4]
    ensures TextIn(Head(s), kind) == if kind == 1 then s.fields.userName else if kind == 4 then [127, 0, 0, 1] else []
  {
    var user, nas := [Head(s)[0]], [Head(s)[1]];
    OneText(Head(s)[0], kind);
    OneText(Head(s)[1], kind);
    TextInBoth(user, nas, kind);
    assert Head(s) == user + nas;
    hide Carries, TextIn, ProxyState;
  }

  lemma InterfaceOfTheLast(bytes: Octets, ds: seq<Descriptor>, loop: Loop, value: Octets)
    requires ds != [] && Legible(bytes, ds, loop) && Copies(ds, loop)
    requires forall i | 0 <= i < |ds| - 1 :: ds[i].kind != PROXY_STATE
    requires var d := ds[|ds| - 1];
      d.kind == PROXY_STATE && d.pos <= EndOf(d) <= |bytes| && bytes[d.pos..EndOf(d)] == value
    ensures Interface(bytes, ds, loop) == match InterfaceIn(value) { case Some(name) => name case None => [] }
  {
    NoInterface(bytes, ds[..|ds| - 1], loop);
    hide InterfaceIn;
  }

  lemma {:induction false} NoInterface(bytes: Octets, ds: seq<Descriptor>, loop: Loop)
    requires Legible(bytes, ds, loop) && Copies(ds, loop)
    requires forall i | 0 <= i < |ds| :: ds[i].kind != PROXY_STATE
    ensures Interface(bytes, ds, loop) == []
  {
    if ds != [] {
      NoInterface(bytes, ds[..|ds| - 1], loop);
    }
  }

  lemma ProxyIsLast(s: Session)
    requires ValuesFit(s)
    ensures var list := DisconnectList(s);
      && 0 < |list| <= 8 && list[|list| - 1] == Attribute(PROXY_STATE, ProxyState(s))
      && forall i | 0 <= i < |list| - 1 :: list[i].kind != PROXY_STATE
  {
    hide ProxyState;
  }

  /** A Disconnect-Request names its session: read by the tracker's own loop, it gives back every value of
      the session that it carries, and with them the name under which the session is filed. */
  lemma DisconnectReadsBack(s: Session, q: Image)
    requires ValuesFit(s) && RadiusOutput.COLON !in s.proxyInterface
    requires ImageWellFormed(q) && ImageContents(q) == DisconnectList(s) && Readable(q, OfAuthentication)
    requires ReadingIn(q, OfAuthentication).Some?
    ensures var r := ReadingIn(q, OfAuthentication).value;
      && r.fields == s.fields.(chargeableUserIdentity := []) && r.nasId == s.nasId
      && r.proxyInterface == (if RadiusOutput.COLON in s.serialNumber then [] else s.proxyInterface)
      && IndexOf(r) == s.fields.sessionId + s.fields.multiSessionId
  {
    ReadingSpells(q, OfAuthentication);
    ProxyIsLast(s);
    assert Visible(DisconnectList(s)) == DisconnectList(s);
    DisconnectTexts(s, 1);
    DisconnectTexts(s, 30);
    DisconnectTexts(s, 31);
    DisconnectTexts(s, 32);
    DisconnectTexts(s, 44);
    DisconnectTexts(s, 50);
    DisconnectTexts(s, 89);
    InterfaceReadsBack(s, q);
    hide DisconnectList, TextIn, Interface, FieldsOf, CountersOf, Readable, Copies, ProxyState, ImageContents;
  }

  lemma InterfaceReadsBack(s: Session, q: Image)
    requires ValuesFit(s) && RadiusOutput.COLON !in s.proxyInterface
    requires ImageWellFormed(q) && ImageContents(q) == DisconnectList(s)
    requires Readable(q, OfAuthentication) && Copies(q.attrs, OfAuthentication)
    ensures Interface(q.attributes, q.attrs, OfAuthentication)
         == if RadiusOutput.COLON in s.serialNumber then [] else s.proxyInterface
  {
    assert Legible(q.attributes, q.attrs, OfAuthentication);
    hide *;
    LastIsProxy(s, q);
    ProxyStateReadsBack(s);
    InterfaceOfTheLast(q.attributes, q.attrs, OfAuthentication, ProxyState(s));
  }

  lemma LastIsProxy(s: Session, q: Image)
    requires ValuesFit(s) && ImageWellFormed(q) && ImageContents(q) == DisconnectList(s)
    ensures q.attrs != [] && forall i | 0 <= i < |q.attrs| - 1 :: q.attrs[i].kind != PROXY_STATE
    ensures var d := q.attrs[|q.attrs| - 1];
      d.kind == PROXY_STATE && d.pos <= EndOf(d) <= |q.attributes|
      && q.attributes[d.pos..EndOf(d)] == ProxyState(s)
  {
    ProxyIsLast(s);
    KindsOf(q);
    assert Visible(DisconnectList(s)) == DisconnectList(s);
    ValueIsCopied(q, |q.attrs| - 1);
    hide DisconnectList, ProxyState, ImageWellFormed, ImageContents, Visible, EndOf;
  }

  lemma KindsOf(q: Image)
    requires ImageWellFormed(q)
    ensures |q.attrs| == |Visible(ImageContents(q))|
    ensures forall i | 0 <= i < |q.attrs| :: q.attrs[i].kind == ImageContents(q)[i].kind
  {
    forall i | 0 <= i < |q.attrs|
      ensures q.attrs[i].kind == ImageContents(q)[i].kind
    {
      LayoutAt(Visible(ImageContents(q)), 0, i);
    }
  }

  /** The tokens of a Proxy-State: who, any address, the port for such requests, and where. */
  lemma ProxyStateTokens(s: Session)
    requires RadiusOutput.COLON !in s.proxyInterface && RadiusOutput.COLON !in s.serialNumber
    ensures RadiusOutput.Tokens(ProxyState(s))
         == [s.serialNumber, RadiusOutput.Text("0.0.0.0"), RadiusOutput.Text("3799"), s.proxyInterface]
  {
    var colon, last := [RadiusOutput.COLON], s.proxyInterface;
    var behindPort := COA_PORT + colon + last;
    var behindSerial := ANY_ADDRESS + colon + behindPort;
    RadiusOutput.TokensWithoutColon(last);
    RadiusOutput.TokensAfterWord(COA_PORT, last);
    RadiusOutput.TokensAfterWord(ANY_ADDRESS, behindPort);
    RadiusOutput.TokensAfterWord(s.serialNumber, behindSerial);
    assert ProxyState(s) == s.serialNumber + colon + behindSerial;
    AddressTexts();
    hide RadiusOutput.Tokens, RadiusOutput.Text;
  }

  lemma AddressTexts()
    ensures RadiusOutput.Text("0.0.0.0") == ANY_ADDRESS && RadiusOutput.Text("3799") == COA_PORT
  {
  }

  /* ---------- the values of sessions ---------- */

  /** What was read from one packet: values of at most 253 octets, and an interface without colon. */
  predicate Sized(s: Session) {
    && |s.fields.userName| <= 253 && |s.fields.calledStationId| <= 253 && |s.fields.callingStationId| <= 253
    && |s.nasId| <= 253 && |s.fields.sessionId| <= 253 && |s.fields.multiSessionId| <= 253
    && RadiusOutput.COLON !in s.proxyInterface
  }

  ghost predicate AllSized(t: Table) {
    forall serialNumber, index | Tracked(t, serialNumber, index) :: Sized(t[serialNumber][index])
  }

  /** No value is longer than 253 octets but those that are not copied, as in whatever the parser makes
      of a message. */
  ghost predicate Ordinary(e: Event) {
    e.Accounting? || e.Authentication? ==> forall d | d in e.n.packet.attrs :: d.len <= 253 || Backwards(d)
  }

  lemma FieldIsSized(p: Image, kind: byte, loop: Loop)
    requires Readable(p, loop) && Copies(p.attrs, loop)
    requires forall d | d in p.attrs :: d.len <= 253 || Backwards(d)
    ensures |Field(p.attributes, p.attrs, kind, loop)| <= 253
  {
    hide Numeric, Textual;
  }

  lemma ReadingIsSized(p: Image, loop: Loop)
    requires Readable(p, loop) && forall d | d in p.attrs :: d.len <= 253 || Backwards(d)
    ensures ReadingIn(p, loop).Some? ==>
      var r := ReadingIn(p, loop).value;
      && |r.fields.userName| <= 253 && |r.fields.calledStationId| <= 253 && |r.fields.callingStationId| <= 253
      && |r.nasId| <= 253 && |r.fields.sessionId| <= 253 && |r.fields.multiSessionId| <= 253
      && RadiusOutput.COLON !in r.proxyInterface
  {
    if Copies(p.attrs, loop) {
      InterfaceHasNoColon(p.attributes, p.attrs, loop);
      FieldIsSized(p, AUTH_USERNAME, loop);
      FieldIsSized(p, CALLED_STATION_ID, loop);
      FieldIsSized(p, CALLING_STATION_ID, loop);
      FieldIsSized(p, NAS_IDENTIFIER, loop);
      FieldIsSized(p, ACCT_SESSION_ID, loop);
      FieldIsSized(p, ACCT_MULTI_SESSION_ID, loop);
    }
    hide Interface, Field, Copies, Legible, Backwards;
  }

  lemma StepKeepsSizes(t: Table, e: Event)
    requires Processable(e)
    requires AllSized(t) && Ordinary(e)
    ensures AllSized(Step(t, e))
  {
    hide Processable, Step, Alone, Ordinary, Sized;
    forall serialNumber, index | Tracked(Step(t, e), serialNumber, index)
      ensures Sized(Step(t, e)[serialNumber][index])
    {
      StepIsAlone(t, e, serialNumber, index);
      AloneIsSized(View(t, serialNumber, index), e, serialNumber, index);
    }
  }

  lemma AloneIsSized(s: Option<Session>, e: Event, serialNumber: Octets, index: Octets)
    requires Processable(e)
    requires s.Some? ==> Sized(s.value)
    requires Ordinary(e)
    ensures var t := Alone(s, e, serialNumber, index);
      t.Some? ==> Sized(t.value)
  {
    if e.Accounting? {
      ReadingIsSized(e.n.packet, OfAccounting);
    } else if e.Authentication? {
      ReadingIsSized(e.n.packet, OfAuthentication);
    }
    hide Readable, ReadingIn, NoPacket, IndexOf, Stored;
  }

  lemma {:induction false} AlwaysSized(events: seq<Event>)
    requires AllProcessable(events) && forall e | e in events :: Ordinary(e)
    ensures AllSized(Run(events))
  {
    if events != [] {
      AlwaysSized(events[..|events| - 1]);
      StepKeepsSizes(Run(events[..|events| - 1]), events[|events| - 1]);
    }
  }

  /** Over every run the Disconnect-Request of a session fits exactly when its serial number and
      interface have at most 239 octets together, and its Proxy-State is read back as the interface
      of the session exactly when there is no colon in the serial number. */
  lemma DisconnectNamesSession(events: seq<Event>, serialNumber: Octets, index: Octets)
    requires AllProcessable(events) && forall e | e in events :: Ordinary(e)
    requires Tracked(Run(events), serialNumber, index)
    ensures var s := Run(events)[serialNumber][index];
      && (ValuesFit(s) <==> |serialNumber| + |s.proxyInterface| <= 239)
      && InterfaceIn(ProxyState(s)) == if RadiusOutput.COLON in serialNumber then None else Some(s.proxyInterface)
  {
    AlwaysSized(events);
    AlwaysFiled(events);
    ProxyStateReadsBack(Run(events)[serialNumber][index]);
  }

  lemma ProxyStateReadsBack(s: Session)
    requires RadiusOutput.COLON !in s.proxyInterface
    ensures InterfaceIn(ProxyState(s)) == if RadiusOutput.COLON in s.serialNumber then None else Some(s.proxyInterface)
  {
    var colon := [RadiusOutput.COLON];
    var last := s.proxyInterface;
    var behindPort := COA_PORT + colon + last;
    var behindSerial := ANY_ADDRESS + colon + behindPort;
    RadiusOutput.TokensWithoutColon(last);
    RadiusOutput.TokensAfterWord(COA_PORT, last);
    RadiusOutput.TokensAfterWord(ANY_ADDRESS, behindPort);
    assert RadiusOutput.Tokens(behindSerial) == [ANY_ADDRESS, COA_PORT, last];
    assert ProxyState(s) == s.serialNumber + colon + behindSerial;
    hide RadiusOutput.Tokens;
    if RadiusOutput.COLON in s.serialNumber {
      RadiusOutput.TokensWithoutColon(s.serialNumber);
      TokensOfBoth(s.serialNumber, behindSerial);
    } else {
      RadiusOutput.TokensAfterWord(s.serialNumber, behindSerial);
    }
  }

  class SessionTracker {
    var accountingSessions: Table

    method ProcessAccountingSession(n: Notification, now: nat)
      requires Readable(n.packet, OfAccounting)
      modifies this
      ensures accountingSessions == AfterAccounting(old(accountingSessions), n, now)
    {
      hide Opened, Updated, Announced, IndexOf, Readable, ReadingIn;
      var reading := ReadAttributes(n.packet, OfAccounting);
      if reading == None {
        return;
      }
      var r := reading.value;
      if n.serialNumber !in accountingSessions {
        accountingSessions := accountingSessions[n.serialNumber := map[]];
      }
      var sessions := accountingSessions[n.serialNumber];
      var index := IndexOf(r);
      if index !in sessions {
        if r.status != STATUS_START && r.status != STATUS_INTERIM {
          return;
        }
        sessions := sessions[index := Opened(n, r, now)];
      } else if r.status == STATUS_STOP {
        sessions := sessions - {index};
      } else {
        sessions := sessions[index := Updated(sessions[index], n, r, now)];
      }
      accountingSessions := accountingSessions[n.serialNumber := sessions];
    }

    method ProcessAuthenticationSession(n: Notification, now: nat)
      requires Readable(n.packet, OfAuthentication)
      modifies this
      ensures accountingSessions == AfterAuthentication(old(accountingSessions), n, now)
    {
      hide Opened, Updated, Announced, IndexOf, Readable, ReadingIn;
      var reading := ReadAttributes(n.packet, OfAuthentication);
      if reading == None {
        return;
      }
      var r := reading.value;
      if n.serialNumber !in accountingSessions {
        accountingSessions := accountingSessions[n.serialNumber := map[]];
      }
      var sessions := accountingSessions[n.serialNumber];
      var index := IndexOf(r);
      if index !in sessions {
        sessions := sessions[index := Announced(n, r, now)];
      } else {
        sessions := sessions[index := sessions[index].(lastTransaction := now)];
      }
      accountingSessions := accountingSessions[n.serialNumber := sessions];
    }

    /** The inner loop of a collection, over the sessions of one device. */
    method DropExpired(sessions: Sessions, now: nat) returns (kept: Sessions)
      ensures kept == Kept(sessions, now)
    {
      kept := sessions;
      var names := sessions.Keys;
      while names != {}
        invariant names <= sessions.Keys
        invariant forall index :: index in kept <==>
          index in sessions && (index in names || !Expired(sessions[index].lastTransaction, now))
        invariant forall index | index in kept :: kept[index] == sessions[index]
        decreases names
      {
        var name :| name in names;
        if Expired(sessions[name].lastTransaction, now) {
          kept := kept - {name};
        }
        names := names - {name};
      }
    }

    method GarbageCollection(now: nat)
      modifies this
      ensures accountingSessions == AfterCollection(old(accountingSessions), now)
    {
      ghost var table := accountingSessions;
      var devices := accountingSessions.Keys;
      while devices != {}
        invariant devices <= table.Keys
        invariant forall s :: s in accountingSessions <==> s in table && (s in devices || Kept(table[s], now) != map[])
        invariant forall s | s in accountingSessions ::
          accountingSessions[s] == if s in devices then table[s] else Kept(table[s], now)
        decreases devices
      {
        var device :| device in devices;
        var kept := DropExpired(accountingSessions[device], now);
        if kept == map[] {
          accountingSessions := accountingSessions - {device};
        } else {
          accountingSessions := accountingSessions[device := kept];
        }
        devices := devices - {device};
      }
    }

    /** One packet is built for each session of the device, which is a Stop where the packet that the
        session holds can be made to say so; and the device is forgotten. */
    method DisconnectSession(serialNumber: Octets, time: nat, routes: map<Octets, Route>, md5: Octets -> Digest)
      returns (stops: map<Octets, Image>)
      requires time < TWO_32
      requires forall s | s in SessionsOf(accountingSessions, serialNumber).Values :: StopFits(s.accountingPacket)
      modifies this
      ensures accountingSessions == old(accountingSessions) - {serialNumber}
      ensures var sessions := SessionsOf(old(accountingSessions), serialNumber);
        && stops.Keys == sessions.Keys
        && forall name | name in sessions ::
             && IsBuilt(sessions[name].accountingPacket, time, RouteOf(routes, sessions[name].destination), md5,
                        stops[name])
             && StopsIfItCan(sessions[name].accountingPacket, stops[name])
    {
      hide StopsIfItCan, IsBuilt;
      stops := map[];
      if serialNumber !in accountingSessions {
        return;
      }
      var sessions := accountingSessions[serialNumber];
      var names := sessions.Keys;
      while names != {}
        invariant accountingSessions == old(accountingSessions)
        invariant names <= sessions.Keys && stops.Keys == sessions.Keys - names
        invariant forall name | name in stops ::
          && IsBuilt(sessions[name].accountingPacket, time, RouteOf(routes, sessions[name].destination), md5,
                     stops[name])
          && StopsIfItCan(sessions[name].accountingPacket, stops[name])
        decreases names
      {
        var name :| name in names;
        assert sessions[name] in sessions.Values;
        var stop := BuildStop(sessions[name].accountingPacket, time, RouteOf(routes, sessions[name].destination), md5);
        stops := stops[name := stop];
        names := names - {name};
      }
      accountingSessions := accountingSessions - {serialNumber};
    }
  }

  function RouteOf(routes: map<Octets, Route>, destination: Octets): (route: Route)
    ensures destination in routes ==> route == routes[destination]
    ensures destination !in routes ==> route == Unknown
  {
    if destination in routes then routes[destination] else Unknown
  }
}
