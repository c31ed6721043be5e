/** Who listens to the telemetry of which device: an index from devices to client identifiers, and one
    from these to the clients that are attached. */
module TelemetryStream {
  import opened Common

  datatype Notification = Data(serial: u64, payload: string) | Unregister(uuid: string)

  /** A client that is registered but not attached is one whose socket has not come, or was replaced. */
  datatype State = State(serials: map<u64, set<string>>, clients: map<string, bool>, queue: seq<Notification>)

  function Listeners(s: State, serial: u64): set<string> {
    if serial in s.serials then s.serials[serial] else {}
  }

  function AfterCreate(s: State, serial: u64, uuid: string): State {
    s.(serials := s.serials[serial := Listeners(s, serial) + {uuid}], clients := s.clients[uuid := false])
  }

  /** A client whose set-up fails leaves no trace. */
  function AfterNewClient(s: State, uuid: string, serial: u64, created: bool): State {
    if !created then s
    else s.(clients := s.clients[uuid := true], serials := s.serials[serial := Listeners(s, serial) + {uuid}])
  }

  function Without(serials: map<u64, set<string>>, uuid: string): map<u64, set<string>> {
    map serial | serial in serials && serials[serial] - {uuid} != {} :: serials[serial] - {uuid}
  }

  function AfterUnregister(s: State, uuid: string): State {
    if uuid !in s.clients then s else s.(serials := Without(s.serials, uuid), clients := s.clients - {uuid})
  }

  /** The clients that are offered the data of a device. */
  function Recipients(s: State, serial: u64): set<string> {
    set uuid | uuid in Listeners(s, serial) && uuid in s.clients && s.clients[uuid]
  }

  function AfterTurn(s: State): State {
    if s.queue == [] then s
    else
      var rest := s.(queue := s.queue[1..]);
      match s.queue[0]
      case Data(_, _) => rest
      case Unregister(uuid) => AfterUnregister(rest, uuid)
  }

  class Stream {
    var serials: map<u64, set<string>>
    var clients: map<string, bool>
    var queue: seq<Notification>

    constructor ()
      ensures View() == State(map[], map[], [])
    {
      serials, clients, queue := map[], map[], [];
    }

    ghost function View(): State
      reads this
    {
      State(serials, clients, queue)
    }

    method IsValidEndPoint(serial: u64, uuid: string) returns (valid: bool)
      ensures valid <==> uuid in clients && uuid in Listeners(View(), serial)
    {
      if uuid !in clients {
        return false;
      }
      if serial !in serials {
        return false;
      }
      return uuid in serials[serial];
    }

    method CreateEndpoint(serial: u64, uuid: string)
      modifies this`serials, this`clients
      ensures View() == AfterCreate(old(View()), serial, uuid)
    {
      var s := {};
      if serial in serials {
        s := serials[serial];
      }
      s := s + {uuid};
      serials := serials[serial := s];
      clients := clients[uuid := false];
    }

    method NewClient(uuid: string, serial: u64, created: bool) returns (done: bool)
      modifies this`serials, this`clients
      ensures done == created
      ensures View() == AfterNewClient(old(View()), uuid, serial, created)
    {
      if !created {
        return false;
      }
      clients := clients[uuid := true];
      var s := {};
      if serial in serials {
        s := serials[serial];
      }
      s := s + {uuid};
      serials := serials[serial := s];
      return true;
    }

    method NotifyEndPoint(serial: u64, payload: string)
      modifies this`queue
      ensures queue == old(queue) + [Data(serial, payload)]
    {
      queue := queue + [Data(serial, payload)];
    }

    method DeRegisterClient(uuid: string)
      modifies this`queue
      ensures queue == old(queue) + [Unregister(uuid)]
    {
      queue := queue + [Unregister(uuid)];
    }

    /** The clients that the data of a device is sent to, each once. */
    method Send(serial: u64) returns (sent: seq<string>)
      ensures forall i, j | 0 <= i < j < |sent| :: sent[i] != sent[j]
      ensures forall uuid :: uuid in sent <==> uuid in Recipients(View(), serial)
    {
      sent := [];
      if serial in serials {
        var rest := serials[serial];
        while rest != {}
          invariant rest <= serials[serial]
          invariant forall uuid :: uuid in sent <==> uuid in serials[serial] - rest && uuid in clients && clients[uuid]
          invariant forall i, j | 0 <= i < j < |sent| :: sent[i] != sent[j]
          decreases rest
        {
          var uuid :| uuid in rest;
          if uuid in clients && clients[uuid] {
            sent := sent + [uuid];
          }
          rest := rest - {uuid};
        }
      }
    }

    method UnregisterClient(uuid: string)
      modifies this`serials, this`clients
      ensures View() == AfterUnregister(old(View()), uuid)
    {
      if uuid in clients {
        var rest := serials.Keys;
        while rest != {}
          invariant rest <= serials.Keys && rest <= old(serials).Keys && clients == old(clients)
          invariant forall serial | serial in rest :: serials[serial] == old(serials)[serial]
          invariant forall serial :: serial in serials && serial !in rest <==>
            serial in old(serials) && serial !in rest && old(serials)[serial] - {uuid} != {}
          invariant forall serial | serial in serials && serial !in rest ::
            serials[serial] == old(serials)[serial] - {uuid}
          decreases rest
        {
          var serial :| serial in rest;
          serials := serials[serial := serials[serial] - {uuid}];
          if serials[serial] == {} {
            serials := serials - {serial};
          }
          rest := rest - {serial};
        }
        assert serials == Without(old(serials), uuid);
        clients := clients - {uuid};
      }
    }

    /** One turn of the notification loop. */
    method ProcessNotification() returns (sent: seq<string>)
      modifies this
      ensures View() == AfterTurn(old(View()))
      ensures forall uuid :: uuid in sent <==>
        old(queue) != [] && old(queue)[0].Data? && uuid in Recipients(old(View()), old(queue)[0].serial)
    {
      sent := [];
      if queue != [] {
        var next := queue[0];
        queue := queue[1..];
        match next
        case Data(serial, _) => sent := Send(serial);
        case Unregister(uuid) => UnregisterClient(uuid);
      }
    }
  }

  datatype Event =
    | Create(serial: u64, uuid: string)
    | Attach(uuid: string, serial: u64, created: bool)
    | Notify(serial: u64, payload: string)
    | DeRegister(uuid: string)
    | Turn

  function Next(s: State, e: Event): State {
    match e
    case Create(serial, uuid) => AfterCreate(s, serial, uuid)
    case Attach(uuid, serial, created) => AfterNewClient(s, uuid, serial, created)
    case Notify(serial, payload) => s.(queue := s.queue + [Data(serial, payload)])
    case DeRegister(uuid) => s.(queue := s.queue + [Unregister(uuid)])
    case Turn => AfterTurn(s)
  }

  function Run(events: seq<Event>): State {
    if events == [] then State(map[], map[], []) else Next(Run(events[..|events| - 1]), events[|events| - 1])
  }

  predicate Listens(s: State, serial: u64, uuid: string) {
    uuid in Listeners(s, serial)
  }

  ghost predicate ListensSomewhere(s: State, uuid: string) {
    exists serial :: Listens(s, serial, uuid)
  }

  /** The two indexes are one relation: the clients are those that listen to some device, and no
      device is kept without listeners. */
  ghost predicate Consistent(s: State) {
    && (forall serial | serial in s.serials :: s.serials[serial] != {} && s.serials[serial] <= s.clients.Keys)
    && (forall uuid | uuid in s.clients :: ListensSomewhere(s, uuid))
  }

  /** Whether the event at the end of a run takes a client out: a turn that comes to its removal. */
  predicate Removes(before: State, e: Event, uuid: string) {
    e == Turn && before.queue != [] && before.queue[0] == Unregister(uuid)
  }

  /** A client listens to a device if it joined it after it was last removed. */
  predicate Joined(events: seq<Event>, serial: u64, uuid: string) {
    if events == [] then false
    else
      var e := events[|events| - 1];
      var before := events[..|events| - 1];
      if e == Create(serial, uuid) || e == Attach(uuid, serial, true) then true
      else !Removes(Run(before), e, uuid) && Joined(before, serial, uuid)
  }

  /** A client is attached if its socket came after its last registration and removal. */
  predicate Attached(events: seq<Event>, uuid: string) {
    if events == [] then false
    else
      var e := events[|events| - 1];
      var before := events[..|events| - 1];
      if e.Attach? && e.uuid == uuid && e.created then true
      else !(e.Create? && e.uuid == uuid) && !Removes(Run(before), e, uuid) && Attached(before, uuid)
  }

  lemma JoinKeeps(s: State, serial: u64, uuid: string, attached: bool)
    requires Consistent(s)
    ensures Consistent(s.(serials := s.serials[serial := Listeners(s, serial) + {uuid}],
                          clients := s.clients[uuid := attached]))
  {
    var t := s.(serials := s.serials[serial := Listeners(s, serial) + {uuid}], clients := s.clients[uuid := attached]);
    forall other | other in t.clients
      ensures ListensSomewhere(t, other)
    {
      if other == uuid {
        assert Listens(t, serial, uuid);
      } else {
        var at :| Listens(s, at, other);
        assert Listens(t, at, other);
      }
    }
  }

  /** A removal takes the client out of every set and touches no other pair and no other client. */
  lemma UnregisterTouchesOne(s: State, uuid: string)
    requires Consistent(s)
    ensures var t := AfterUnregister(s, uuid);
      && (forall serial, other :: Listens(t, serial, other) <==> Listens(s, serial, other) && other != uuid)
      && t.clients == s.clients - {uuid}
  {
    if uuid !in s.clients {
      assert s.clients - {uuid} == s.clients;
    }
  }

  lemma UnregisterKeeps(s: State, uuid: string)
    requires Consistent(s)
    ensures Consistent(AfterUnregister(s, uuid))
  {
    UnregisterTouchesOne(s, uuid);
    var t := AfterUnregister(s, uuid);
    forall other | other in t.clients
      ensures ListensSomewhere(t, other)
    {
      var at :| Listens(s, at, other);
      assert Listens(t, at, other);
    }
    forall serial | serial in t.serials
      ensures t.serials[serial] != {} && t.serials[serial] <= t.clients.Keys
    {
      assert serial in s.serials;
    }
  }

  lemma QueueDoesNotMatter(s: State, queue: seq<Notification>)
    requires Consistent(s)
    ensures Consistent(s.(queue := queue))
  {
    forall uuid | uuid in s.clients
      ensures ListensSomewhere(s.(queue := queue), uuid)
    {
      var at :| Listens(s, at, uuid);
      assert Listens(s.(queue := queue), at, uuid);
    }
  }

  lemma StepKeeps(s: State, e: Event)
    requires Consistent(s)
    ensures Consistent(Next(s, e))
  {
    hide Consistent;
    match e
    case Create(serial, uuid) => JoinKeeps(s, serial, uuid, false);
    case Attach(uuid, serial, created) => JoinKeeps(s, serial, uuid, true);
    case Notify(serial, payload) => QueueDoesNotMatter(s, s.queue + [Data(serial, payload)]);
    case DeRegister(uuid) => QueueDoesNotMatter(s, s.queue + [Unregister(uuid)]);
    case Turn =>
      if s.queue != [] {
        QueueDoesNotMatter(s, s.queue[1..]);
        if s.queue[0].Unregister? {
          UnregisterKeeps(s.(queue := s.queue[1..]), s.queue[0].uuid);
        }
      }
  }

  lemma {:induction false} RunKeeps(events: seq<Event>)
    ensures Consistent(Run(events))
  {
    if events != [] {
      RunKeeps(events[..|events| - 1]);
      StepKeeps(Run(events[..|events| - 1]), events[|events| - 1]);
    }
  }

  /** How a step changes who listens and who is attached. */
  lemma StepListens(s: State, e: Event, serial: u64, uuid: string)
    requires Consistent(s)
    ensures Listens(Next(s, e), serial, uuid) <==>
      e == Create(serial, uuid) || e == Attach(uuid, serial, true) || (!Removes(s, e, uuid) && Listens(s, serial, uuid))
    ensures var t := Next(s, e);
      uuid in t.clients && t.clients[uuid] <==>
        (e.Attach? && e.uuid == uuid && e.created) ||
        (!(e.Create? && e.uuid == uuid) && !Removes(s, e, uuid) && uuid in s.clients && s.clients[uuid])
  {
    if e == Turn && s.queue != [] && s.queue[0].Unregister? {
      QueueDoesNotMatter(s, s.queue[1..]);
      UnregisterTouchesOne(s.(queue := s.queue[1..]), s.queue[0].uuid);
      hide Consistent, AfterUnregister;
    }
    hide Consistent;
  }

  /** What the indexes say is what happened: a client listens to a device exactly if it joined it since
      it was last removed, and is attached exactly if its socket came since then. */
  lemma {:induction false} IndexesFollowHistory(events: seq<Event>, serial: u64, uuid: string)
    ensures var s := Run(events);
      && (Listens(s, serial, uuid) <==> Joined(events, serial, uuid))
      && (uuid in s.clients && s.clients[uuid] <==> Attached(events, uuid))
  {
    if events != [] {
      var before := events[..|events| - 1];
      IndexesFollowHistory(before, serial, uuid);
      RunKeeps(before);
      StepListens(Run(before), events[|events| - 1], serial, uuid);
      hide Next, Consistent, Removes;
    }
  }

  lemma ListensIsJoined(events: seq<Event>)
    ensures forall at, other :: Listens(Run(events), at, other) <==> Joined(events, at, other)
  {
    forall at, other
      ensures Listens(Run(events), at, other) <==> Joined(events, at, other)
    {
      IndexesFollowHistory(events, at, other);
    }
  }

  ghost predicate JoinedSomething(events: seq<Event>, uuid: string) {
    exists serial :: Joined(events, serial, uuid)
  }

  /** So every client that joined something is known, and nobody else is. */
  lemma ClientsJoined(events: seq<Event>, uuid: string)
    ensures uuid in Run(events).clients <==> JoinedSomething(events, uuid)
  {
    RunKeeps(events);
    ListensIsJoined(events);
    var s := Run(events);
    hide Run;
    if uuid in s.clients {
      assert ListensSomewhere(s, uuid);
      var at :| Listens(s, at, uuid);
      assert Joined(events, at, uuid);
      assert JoinedSomething(events, uuid);
    } else {
      forall at
        ensures !Joined(events, at, uuid)
      {
        assert at in s.serials ==> s.serials[at] <= s.clients.Keys;
        assert !Listens(s, at, uuid);
      }
    }
  }

  /** An end point is valid exactly for a client that joined the device, and the data of the device is
      offered to exactly the attached among those. */
  lemma RecipientsFollowHistory(events: seq<Event>, serial: u64, uuid: string)
    ensures var s := Run(events);
      && (uuid in s.clients && uuid in Listeners(s, serial) <==> Joined(events, serial, uuid))
      && (uuid in Recipients(s, serial) <==> Joined(events, serial, uuid) && Attached(events, uuid))
  {
    RunKeeps(events);
    IndexesFollowHistory(events, serial, uuid);
    var s := Run(events);
    hide Run, Joined, Attached;
    assert serial in s.serials ==> s.serials[serial] <= s.clients.Keys;
  }
}
