/** The table of requests sent to devices and waiting for an answer. */
module CommandTable {
  import opened Common

  datatype Kind = Script | Telemetry | Configure | Trace | Other

  /** A request. A promise, where the caller waits for the answer, is named by a number. A
      deferred script starts in state 2 and is answered twice; everything else starts in 1. */
  datatype Request = Request(id: nat, serial: u64, kind: Kind, uuid: string, state: nat, submitted: nat,
                             promise: Option<nat>, deferred: bool)

  /** What can be read of a status: nothing, if it is no object or has no number as its error; or the
      error, and whether there is a text as its result. */
  datatype Status = Illegible | Legible(error: nat, text: bool)

  /** What matters of an answer: it may have no result, or one that is no object, or one that may name
      the device and may have a status. */
  datatype Answer = NoResult | BadResult | Result(named: bool, status: Option<Status>)

  /** The outstanding requests by identifier, and the promises that were given a value, in order.
      Giving one a second value raises an error that the reply loop swallows. */
  datatype Table = Table(outstanding: map<nat, Request>, settled: seq<nat>)

  /** Ten minutes, in milliseconds. */
  const TIMEOUT: nat := 600_000

  function InitialState(kind: Kind, deferred: bool): nat {
    if kind == Script && deferred then 2 else 1
  }

  function Settled(t: Table, promise: Option<nat>): Table {
    match promise
    case None => t
    case Some(p) => t.(settled := t.settled + [p])
  }

  function Without(t: Table, id: nat): Table {
    t.(outstanding := t.outstanding - {id})
  }

  /** What happens to a request as it is answered: its next state, where 0 is its end, and whether the
      answer is passed on. Where reading the answer raises an error, which the reply loop swallows,
      the request stays as it is and nothing is passed on. */
  function Dealt(r: Request, a: Answer): (nat, bool) {
    match r.kind
    case Script => ScriptDealt(r, a)
    case Configure => if r.promise == None && ConfigureThrows(a) then (r.state, false) else (0, true)
    case _ => (0, true)
  }

  /** A bad status needs a text, which is read before the state is set. */
  function ScriptDealt(r: Request, a: Answer): (nat, bool) {
    if r.state == 2 then
      match a
      case NoResult => (0, true)
      case BadResult => (2, false)
      case Result(_, None) => (2, true)
      case Result(_, Some(Illegible)) => (2, false)
      case Result(_, Some(Legible(error, text))) =>
        if error == 0 then (1, true) else if text then (0, true) else (2, false)
    else if r.state == 1 then (0, !r.deferred)
    else (r.state, true)
  }

  predicate ConfigureThrows(a: Answer) {
    a.BadResult? || (a.Result? && a.named && a.status == Some(Illegible))
  }

  function AfterAnswer(t: Table, r: Request, a: Answer): Table {
    var (state, passOn) := Dealt(r, a);
    var next := if state == 0 then Without(t, r.id) else t.(outstanding := t.outstanding[r.id := r.(state := state)]);
    if passOn then Settled(next, r.promise) else next
  }

  /** An answer is handled when its identifier is outstanding for the device it came from. */
  predicate Handled(t: Table, serial: u64, id: nat) {
    id > 1 && id in t.outstanding && t.outstanding[id].serial == serial
  }

  function AfterReply(t: Table, serial: u64, id: nat, a: Answer): Table {
    if Handled(t, serial, id) then AfterAnswer(t, t.outstanding[id], a) else t
  }

  predicate TimedOut(r: Request, now: nat) {
    now > r.submitted + TIMEOUT
  }

  function AfterJanitor(t: Table, now: nat): Table {
    t.(outstanding := map id | id in t.outstanding && !TimedOut(t.outstanding[id], now) :: t.outstanding[id])
  }

  function AfterClear(t: Table, serial: u64): Table {
    t.(outstanding := map id | id in t.outstanding && t.outstanding[id].serial != serial :: t.outstanding[id])
  }

  /** The first request with a UUID, in the order of the table. */
  predicate FirstWith(t: Table, uuid: string, id: nat) {
    && id in t.outstanding && t.outstanding[id].uuid == uuid
    && forall other | other in t.outstanding && t.outstanding[other].uuid == uuid :: id <= other
  }

  /** The first request for a device, in the order of the table. */
  predicate FirstFor(t: Table, serial: u64, id: nat) {
    && id in t.outstanding && t.outstanding[id].serial == serial
    && forall other | other in t.outstanding && t.outstanding[other].serial == serial :: id <= other
  }

  predicate DeviceBusy(t: Table, serial: u64) {
    exists id | id in t.outstanding :: t.outstanding[id].serial == serial
  }

  predicate CommandRunning(t: Table, uuid: string) {
    exists id | id in t.outstanding :: t.outstanding[id].uuid == uuid
  }

  /** Requests are filed under their own identifiers, and wait for something. */
  ghost predicate Filed(t: Table) {
    forall id | id in t.outstanding :: t.outstanding[id].id == id && t.outstanding[id].state != 0
  }

  /** The least of a set of identifiers: where iteration over the table starts. */
  method Least(ids: set<nat>) returns (least: nat)
    requires ids != {}
    ensures least in ids && forall id | id in ids :: least <= id
  {
    least :| least in ids;
    var rest := ids - {least};
    while rest != {}
      invariant rest <= ids && least in ids
      invariant forall id | id in ids && id !in rest :: least <= id
      decreases rest
    {
      var id :| id in rest;
      if id < least {
        least := id;
      }
      rest := rest - {id};
    }
  }

  class CommandManager {
    var outstanding: map<nat, Request>
    var counter: nat
    var promises: nat
    var settled: seq<nat>

    constructor ()
      ensures State() == Table(map[], []) && counter == 3
    {
      outstanding, settled := map[], [];
      counter, promises := 3, 0;
    }

    function State(): Table
      reads this
    {
      Table(outstanding, settled)
    }

    method NextRpcId() returns (id: nat)
      modifies this`counter
      ensures id == counter == old(counter) + 1
    {
      counter := counter + 1;
      id := counter;
    }

    method SetValue(promise: Option<nat>)
      modifies this`settled
      ensures State() == Settled(old(State()), promise)
    {
      if promise.Some? {
        settled := settled + [promise.value];
      }
    }

    method CompleteScriptCommand(id: nat, a: Answer)
      requires id in outstanding && outstanding[id].kind == Script && Filed(State())
      modifies this`outstanding, this`settled
      ensures State() == AfterAnswer(old(State()), old(outstanding)[id], a)
    {
      var command := outstanding[id];
      var reply, entry := true, command.promise;
      if command.state == 2 {
        if a != NoResult {
          if a == BadResult {
            return;
          }
          if a.status.Some? {
            if a.status.value == Illegible {
              return;
            }
            if a.status.value.error == 0 {
              command := command.(state := 1);
            } else {
              if !a.status.value.text {
                return;
              }
              command := command.(state := 0);
            }
          }
        } else {
          command := command.(state := 0);
        }
      } else if command.state == 1 {
        if command.deferred {
          reply := false;
        }
        command := command.(state := 0);
      }
      outstanding := outstanding[id := command];
      if command.state == 0 {
        outstanding := outstanding - {id};
      }
      if reply {
        SetValue(entry);
      }
    }

    /** A configuration that nobody waits for. */
    method CompleteConfigureCommand(id: nat, a: Answer)
      requires id in outstanding && outstanding[id].kind == Configure && outstanding[id].promise == None
      requires Filed(State())
      modifies this`outstanding, this`settled
      ensures State() == AfterAnswer(old(State()), old(outstanding)[id], a)
    {
      assert outstanding == outstanding[id := outstanding[id]];
      if a != NoResult {
        if a == BadResult {
          return;
        }
        if a.status.Some? && a.named {
          if a.status.value == Illegible {
            return;
          }
        }
      }
      var entry := outstanding[id].promise;
      outstanding := outstanding - {id};
      SetValue(entry);
    }

    /** One turn of the reply loop. */
    method ProcessReply(serial: u64, id: nat, a: Answer)
      requires Filed(State())
      modifies this`outstanding, this`settled
      ensures State() == AfterReply(old(State()), serial, id, a)
    {
      if id > 1 {
        if id !in outstanding {
          return;
        } else if outstanding[id].serial != serial {
          return;
        } else if outstanding[id].kind == Script {
          CompleteScriptCommand(id, a);
        } else if outstanding[id].kind == Configure && outstanding[id].promise == None {
          CompleteConfigureCommand(id, a);
        } else {
          var entry := outstanding[id].promise;
          outstanding := outstanding - {id};
          SetValue(entry);
        }
      }
    }

    /** The part of PostCommand before the frame is sent: the request goes into the table first,
        as it may be answered before the sender gets to run again. */
    method InsertRequest(id: nat, serial: u64, kind: Kind, uuid: string, rpc: bool, deferred: bool, now: nat)
      modifies this`outstanding, this`promises
      ensures promises == old(promises) + (if rpc then 1 else 0)
      ensures outstanding == old(outstanding)[id := Request(id, serial, kind, uuid, InitialState(kind, deferred), now,
                                                            if rpc then Some(old(promises)) else None, deferred)]
    {
      var state := 1;
      if kind == Script && deferred {
        state := 2;
      }
      var entry: Option<nat> := None;
      if rpc {
        entry := Some(promises);
        promises := promises + 1;
      }
      outstanding := outstanding[id := Request(id, serial, kind, uuid, state, now, entry, deferred)];
    }

    /** The part of PostCommand after the frame: a request that could not be sent is withdrawn. */
    method FinishPost(id: nat, delivered: bool) returns (sent: bool)
      modifies this`outstanding
      ensures sent == delivered
      ensures State() == if delivered then old(State()) else Without(old(State()), id)
    {
      sent := delivered;
      if !delivered {
        outstanding := outstanding - {id};
      }
    }

    method OnJanitorTimer(now: nat)
      modifies this`outstanding
      ensures State() == AfterJanitor(old(State()), now)
    {
      var ids := outstanding.Keys;
      while ids != {}
        invariant ids <= old(outstanding).Keys
        invariant forall id :: id in outstanding <==>
          id in old(outstanding) && (id in ids || !TimedOut(old(outstanding)[id], now))
        invariant forall id | id in outstanding :: outstanding[id] == old(outstanding)[id]
        decreases ids
      {
        var id :| id in ids;
        if now > outstanding[id].submitted + TIMEOUT {
          outstanding := outstanding - {id};
        }
        ids := ids - {id};
      }
    }

    method ClearQueue(serial: u64)
      modifies this`outstanding
      ensures State() == AfterClear(old(State()), serial)
    {
      var ids := outstanding.Keys;
      while ids != {}
        invariant ids <= old(outstanding).Keys
        invariant forall id :: id in outstanding <==>
          id in old(outstanding) && (id in ids || old(outstanding)[id].serial != serial)
        invariant forall id | id in outstanding :: outstanding[id] == old(outstanding)[id]
        decreases ids
      {
        var id :| id in ids;
        if outstanding[id].serial == serial {
          outstanding := outstanding - {id};
        }
        ids := ids - {id};
      }
    }

    method RemovePendingCommand(id: nat)
      modifies this`outstanding
      ensures State() == Without(old(State()), id)
    {
      outstanding := outstanding - {id};
    }

    /** Only the first request with the UUID is removed. */
    method RemoveCommand(uuid: string) returns (removed: Option<nat>)
      modifies this`outstanding
      ensures removed == None <==> !CommandRunning(old(State()), uuid)
      ensures removed.Some? ==> FirstWith(old(State()), uuid, removed.value)
      ensures State() == if removed == None then old(State()) else Without(old(State()), removed.value)
    {
      var ids := outstanding.Keys;
      while ids != {}
        invariant ids <= outstanding.Keys && State() == old(State())
        invariant forall seen, id | seen in outstanding && seen !in ids && id in ids :: seen < id
        invariant forall id | id in outstanding && id !in ids :: outstanding[id].uuid != uuid
        decreases ids
      {
        var id := Least(ids);
        if outstanding[id].uuid == uuid {
          outstanding := outstanding - {id};
          return Some(id);
        }
        ids := ids - {id};
      }
      return None;
    }

    method IsCommandRunning(uuid: string) returns (running: bool)
      ensures running == CommandRunning(State(), uuid)
    {
      var ids := outstanding.Keys;
      while ids != {}
        invariant ids <= outstanding.Keys
        invariant forall id | id in outstanding && id !in ids :: outstanding[id].uuid != uuid
        decreases ids
      {
        var id := Least(ids);
        if outstanding[id].uuid == uuid {
          return true;
        }
        ids := ids - {id};
      }
      return false;
    }

    /** Whether a device is busy, and with which command first. */
    method CommandRunningForDevice(serial: u64) returns (executing: Option<(string, Kind)>)
      ensures executing.Some? <==> DeviceBusy(State(), serial)
      ensures executing.Some? ==>
        exists id | FirstFor(State(), serial, id) :: executing.value == (outstanding[id].uuid, outstanding[id].kind)
    {
      var ids := outstanding.Keys;
      while ids != {}
        invariant ids <= outstanding.Keys
        invariant forall seen, id | seen in outstanding && seen !in ids && id in ids :: seen < id
        invariant forall id | id in outstanding && id !in ids :: outstanding[id].serial != serial
        decreases ids
      {
        var id := Least(ids);
        if outstanding[id].serial == serial {
          assert FirstFor(State(), serial, id);
          return Some((outstanding[id].uuid, outstanding[id].kind));
        }
        ids := ids - {id};
      }
      return None;
    }
  }
}
