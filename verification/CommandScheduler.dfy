/** The timer that posts the stored commands which are due. */
module CommandScheduler {
  import opened Common
  import opened CommandTable
  import opened Filters

  const PAGE: nat := 200

  /** Seconds since 1970; it is never that moment itself. */
  type Time = t: u64 | 0 < t witness 1

  /** A stored command. The store orders its rows by the time they were submitted. */
  datatype Row = Row(uuid: string, serial: u64, kind: Kind, parameters: Option<string>,
                     submitted: u64, runAt: u64, executed: u64, completed: u64, lastTry: u64)

  datatype Settings = Settings(timeout: u64, retry: u64)

  /** What the rest of the gateway looks like when the scheduler takes a step: the time, the devices
      that are connected, whether a frame gets through, whether the store can be read, and the
      requests that other threads took out of the table since the step before. */
  datatype Moment = Moment(now: Time, tick: nat, connected: set<u64>, delivered: bool, readable: bool, gone: set<nat>)

  type Env = nat -> Moment

  /** A request that the scheduler sent, and at which moment. */
  datatype Send = Send(id: nat, uuid: string, serial: u64, kind: Kind, moment: nat)

  /** The store, the table and its counter, the moment, and what was sent and looked at so far. */
  datatype State = State(rows: seq<Row>, t: Table, counter: nat, clock: nat, sends: seq<Send>, looked: seq<string>)

  datatype Verdict = Running | Expired | Offline | Busy | Malformed | Sent | NotSent

  /** The difference of two times, which wraps round. */
  function Elapsed(now: u64, since: u64): u64 {
    (now - since) % TWO_64
  }

  predicate Ready(r: Row, now: Time, settings: Settings) {
    r.runAt <= now && r.executed == 0 && (r.lastTry == 0 || now - r.lastTry > settings.retry)
  }

  function IsReady(now: Time, settings: Settings): Row -> bool {
    (r: Row) => Ready(r, now, settings)
  }

  function IsConnected(connected: set<u64>): Row -> bool {
    (r: Row) => r.serial in connected
  }

  function ReadyRows(rows: seq<Row>, now: Time, settings: Settings): (ready: seq<Row>)
    ensures |ready| <= |rows|
  {
    Filter(rows, IsReady(now, settings))
  }

  function OfConnected(rows: seq<Row>, connected: set<u64>): (kept: seq<Row>)
    ensures |kept| <= |rows|
  {
    Filter(rows, IsConnected(connected))
  }

  /** LIMIT and OFFSET. */
  function Window(ready: seq<Row>, offset: nat): seq<Row> {
    ready[Min(offset, |ready|)..Min(offset + PAGE, |ready|)]
  }

  /** The store counts the ready commands of all devices, and then leaves out those of devices that
      are not connected. */
  function Page(rows: seq<Row>, m: Moment, offset: nat, settings: Settings): (page: seq<Row>)
    ensures page != [] ==> offset + |page| <= |rows|
  {
    OfConnected(Window(ReadyRows(rows, m.now, settings), offset), m.connected)
  }

  function WithExecuted(rows: seq<Row>, uuid: string, now: Time): seq<Row> {
    seq(|rows|, i requires 0 <= i < |rows| => if rows[i].uuid == uuid then rows[i].(executed := now) else rows[i])
  }

  function WithLastTry(rows: seq<Row>, uuid: string, now: Time): seq<Row> {
    seq(|rows|, i requires 0 <= i < |rows| => if rows[i].uuid == uuid then rows[i].(lastTry := now) else rows[i])
  }

  /** Commands submitted before the window that were not executed, or not completed, are closed. */
  function WithoutExpired(rows: seq<Row>, now: Time, settings: Settings): seq<Row> {
    seq(|rows|, i requires 0 <= i < |rows| =>
      if rows[i].submitted < Elapsed(now, settings.timeout) && rows[i].executed == 0
      then rows[i].(executed := now) else rows[i])
  }

  function WithoutTimedOut(rows: seq<Row>, now: Time, settings: Settings): seq<Row> {
    seq(|rows|, i requires 0 <= i < |rows| =>
      if rows[i].submitted < Elapsed(now, settings.timeout) && rows[i].completed == 0
      then rows[i].(executed := now) else rows[i])
  }

  function VerdictOn(t: Table, cmd: Row, m: Moment, settings: Settings): Verdict {
    if CommandRunning(t, cmd.uuid) then Running
    else if Elapsed(m.now, cmd.submitted) > settings.timeout then Expired
    else if cmd.serial !in m.connected then Offline
    else if DeviceBusy(t, cmd.serial) then Busy
    else if cmd.parameters.None? then Malformed
    else if m.delivered then Sent else NotSent
  }

  function Posting(cmd: Row, id: nat, tick: nat): Request {
    Request(id, cmd.serial, cmd.kind, cmd.uuid, 1, tick, None, false)
  }

  /** A new moment: some requests are gone. */
  function Elapse(s: State, m: Moment): State {
    s.(t := s.t.(outstanding := s.t.outstanding - m.gone), clock := s.clock + 1)
  }

  /** The table once a command is posted under the next identifier, or withdrawn as its frame did not
      get through. */
  function Posted(s: State, cmd: Row, m: Moment, moment: nat): State {
    var id := s.counter + 1;
    if m.delivered then
      s.(counter := id, t := s.t.(outstanding := s.t.outstanding[id := Posting(cmd, id, m.tick)]),
         sends := s.sends + [Send(id, cmd.uuid, cmd.serial, cmd.kind, moment)])
    else s.(counter := id, t := Without(s.t, id))
  }

  function AfterCommand(s: State, cmd: Row, env: Env, settings: Settings): (next: State)
    ensures |next.rows| == |s.rows|
  {
    var m := env(s.clock);
    var v := Elapse(s, m).(looked := s.looked + [cmd.uuid]);
    match VerdictOn(v.t, cmd, m, settings)
    case Running => v
    case Busy => v
    case Offline => v.(rows := WithLastTry(v.rows, cmd.uuid, m.now))
    case Expired => v.(rows := WithExecuted(v.rows, cmd.uuid, m.now))
    case Malformed => v.(rows := WithExecuted(v.rows, cmd.uuid, m.now))
    case Sent => Posted(v, cmd, m, s.clock).(rows := WithExecuted(v.rows, cmd.uuid, m.now))
    case NotSent => Posted(v, cmd, m, s.clock).(rows := WithLastTry(v.rows, cmd.uuid, m.now))
  }

  function AfterPage(s: State, page: seq<Row>, env: Env, settings: Settings): (next: State)
    ensures |next.rows| == |s.rows|
    decreases |page|
  {
    if page == [] then s
    else AfterCommand(AfterPage(s, page[..|page| - 1], env, settings), page[|page| - 1], env, settings)
  }

  lemma PageBegins(s: State, env: Env, settings: Settings)
    ensures AfterPage(s, [], env, settings) == s
  {
  }

  lemma PageNext(s: State, page: seq<Row>, i: nat, env: Env, settings: Settings)
    requires i < |page|
    ensures AfterPage(s, page[..i + 1], env, settings)
         == AfterCommand(AfterPage(s, page[..i], env, settings), page[i], env, settings)
  {
    assert page[..i + 1][..i] == page[..i];
  }

  /** The pages from an offset on. A page raises the offset by what is left of it. */
  function AfterPages(s: State, offset: nat, env: Env, settings: Settings): (next: State)
    ensures |next.rows| == |s.rows|
    decreases |s.rows| - offset
  {
    var m := env(s.clock);
    var v := Elapse(s, m);
    var page := Page(v.rows, m, offset, settings);
    if !m.readable || page == [] then v
    else AfterPages(AfterPage(v, page, env, settings), offset + |page|, env, settings)
  }

  lemma PagesUnfold(s: State, offset: nat, env: Env, settings: Settings)
    ensures var m := env(s.clock);
      var v := Elapse(s, m);
      var page := Page(v.rows, m, offset, settings);
      AfterPages(s, offset, env, settings)
      == if !m.readable || page == [] then v
         else AfterPages(AfterPage(v, page, env, settings), offset + |page|, env, settings)
  {
  }

  function AfterSweeps(s: State, env: Env, settings: Settings): State {
    var v := Elapse(s, env(s.clock));
    var w := Elapse(v.(rows := WithoutExpired(v.rows, env(s.clock).now, settings)), env(s.clock + 1));
    w.(rows := WithoutTimedOut(w.rows, env(s.clock + 1).now, settings))
  }

  function AfterPass(s: State, env: Env, settings: Settings): State {
    AfterPages(AfterSweeps(s, env, settings), 0, env, settings)
  }

  lemma NextReady(rows: seq<Row>, i: nat, now: Time, settings: Settings)
    requires i < |rows|
    ensures ReadyRows(rows[..i + 1], now, settings)
         == ReadyRows(rows[..i], now, settings) + (if Ready(rows[i], now, settings) then [rows[i]] else [])
  {
    assert rows[..i + 1] == rows[..i] + [rows[i]];
    FilterNext(rows[..i], rows[i], IsReady(now, settings));
  }

  lemma NextConnected(rows: seq<Row>, i: nat, connected: set<u64>)
    requires i < |rows|
    ensures OfConnected(rows[..i + 1], connected)
         == OfConnected(rows[..i], connected) + (if rows[i].serial in connected then [rows[i]] else [])
  {
    assert rows[..i + 1] == rows[..i] + [rows[i]];
    FilterNext(rows[..i], rows[i], IsConnected(connected));
  }

  lemma ReadyMeans(rows: seq<Row>, now: Time, settings: Settings)
    ensures forall r :: r in ReadyRows(rows, now, settings) <==> r in rows && Ready(r, now, settings)
  {
    FilterMeans(rows, IsReady(now, settings));
  }

  lemma ConnectedMeans(rows: seq<Row>, connected: set<u64>)
    ensures forall r :: r in OfConnected(rows, connected) <==> r in rows && r.serial in connected
  {
    FilterMeans(rows, IsConnected(connected));
  }

  /** What a page holds. Ready is what is due and open and was not tried within the retry time. A page has
      at most 200 commands, each of them a ready one of a connected device, in the order of the store; and
      of the ready ones ranked from the offset on, up to 200 of them, every one whose device is connected. */
  lemma PageHolds(rows: seq<Row>, m: Moment, offset: nat, settings: Settings)
    ensures var page, ready := Page(rows, m, offset, settings), ReadyRows(rows, m.now, settings);
      && (forall r :: r in ready <==>
            && r in rows && r.runAt <= m.now && r.executed == 0
            && (r.lastTry == 0 || r.lastTry as int + settings.retry < m.now))
      && |page| <= 200
      && (forall r | r in page :: r in ready && r.serial in m.connected)
      && (forall i, j | 0 <= i < j < |page| :: Before(Window(ready, offset), page[i], page[j]))
      && (forall k | offset <= k < offset + PAGE && k < |ready| && ready[k].serial in m.connected :: ready[k] in page)
  {
    var ready := ReadyRows(rows, m.now, settings);
    ReadyMeans(rows, m.now, settings);
    ConnectedMeans(Window(ready, offset), m.connected);
    var page := Page(rows, m, offset, settings);
    forall i, j | 0 <= i < j < |page|
      ensures Before(Window(ready, offset), page[i], page[j])
    {
      FilterKeepsOrder(Window(ready, offset), IsConnected(m.connected), i, j);
    }
    forall k | offset <= k < offset + PAGE && k < |ready|
      ensures ready[k] in Window(ready, offset)
    {
      assert Window(ready, offset)[k - offset] == ready[k];
    }
  }

  class Scheduler {
    const manager: CommandManager
    const settings: Settings
    var rows: seq<Row>
    ghost var clock: nat
    ghost var sends: seq<Send>
    ghost var looked: seq<string>

    constructor (manager: CommandManager, settings: Settings)
      ensures this.manager == manager && this.settings == settings
      ensures rows == [] && clock == 0 && sends == [] && looked == []
    {
      this.manager, this.settings := manager, settings;
      rows, clock, sends, looked := [], 0, [], [];
    }

    ghost function View(): State
      reads this, manager
    {
      State(rows, manager.State(), manager.counter, clock, sends, looked)
    }

    /** What other threads took out of the table meanwhile. */
    method Meanwhile(m: Moment)
      modifies this`clock, manager`outstanding
      ensures View() == Elapse(old(View()), m) && clock == old(clock) + 1
    {
      manager.outstanding := manager.outstanding - m.gone;
      clock := clock + 1;
    }

    method SetCommandExecuted(uuid: string, now: Time)
      modifies this`rows
      ensures rows == WithExecuted(old(rows), uuid, now)
    {
      rows := seq(|rows|, i requires 0 <= i < |rows| reads this =>
        if rows[i].uuid == uuid then rows[i].(executed := now) else rows[i]);
    }

    method SetCommandLastTry(uuid: string, now: Time)
      modifies this`rows
      ensures rows == WithLastTry(old(rows), uuid, now)
    {
      rows := seq(|rows|, i requires 0 <= i < |rows| reads this =>
        if rows[i].uuid == uuid then rows[i].(lastTry := now) else rows[i]);
    }

    method GetReadyToExecuteCommands(m: Moment, offset: nat) returns (read: bool, page: seq<Row>)
      ensures read == m.readable
      ensures read ==> page == Page(rows, m, offset, settings)
    {
      read, page := m.readable, [];
      if !read {
        return;
      }
      var records, rank: nat := [], 0;
      for i := 0 to |rows|
        invariant rank == |ReadyRows(rows[..i], m.now, settings)|
        invariant records == Window(ReadyRows(rows[..i], m.now, settings), offset)
      {
        NextReady(rows, i, m.now, settings);
        if Ready(rows[i], m.now, settings) {
          if offset <= rank < offset + PAGE {
            records := records + [rows[i]];
          }
          rank := rank + 1;
        }
      }
      assert rows[..|rows|] == rows;
      for i := 0 to |records|
        invariant page == OfConnected(records[..i], m.connected)
      {
        NextConnected(records, i, m.connected);
        if records[i].serial in m.connected {
          page := page + [records[i]];
        }
      }
      assert records[..|records|] == records;
    }

    method ProcessCommand(cmd: Row, env: Env, m: Moment)
      requires m == env(clock)
      modifies this, manager
      ensures View() == AfterCommand(old(View()), cmd, env, settings) && clock == old(clock) + 1
    {
      hide WithExecuted, WithLastTry, CommandRunning, DeviceBusy, FirstFor, Elapsed, Elapse, Posted;
      Meanwhile(m);
      looked := looked + [cmd.uuid];
      var running := manager.IsCommandRunning(cmd.uuid);
      if running {
        return;
      }
      if Elapsed(m.now, cmd.submitted) > settings.timeout {
        SetCommandExecuted(cmd.uuid, m.now);
        return;
      }
      if cmd.serial !in m.connected {
        SetCommandLastTry(cmd.uuid, m.now);
        return;
      }
      var executing := manager.CommandRunningForDevice(cmd.serial);
      if executing.Some? {
        return;
      }
      if cmd.parameters.None? {
        SetCommandExecuted(cmd.uuid, m.now);
        return;
      }
      var sent := PostCommandDisk(cmd, m);
      if sent {
        SetCommandExecuted(cmd.uuid, m.now);
      } else {
        SetCommandLastTry(cmd.uuid, m.now);
      }
    }

    method PostCommandDisk(cmd: Row, m: Moment) returns (sent: bool)
      requires clock > 0
      modifies this`sends, manager
      ensures sent == m.delivered && View() == Posted(old(View()), cmd, m, clock - 1)
    {
      var id := manager.NextRpcId();
      manager.InsertRequest(id, cmd.serial, cmd.kind, cmd.uuid, false, false, m.tick);
      sent := manager.FinishPost(id, m.delivered);
      if sent {
        sends := sends + [Send(id, cmd.uuid, cmd.serial, cmd.kind, clock - 1)];
      }
    }

    method ProcessPage(page: seq<Row>, env: Env, start: nat) returns (next: nat)
      requires start == clock
      modifies this, manager
      ensures View() == AfterPage(old(View()), page, env, settings)
      ensures next == clock
    {
      hide AfterPage;
      next := start;
      PageBegins(View(), env, settings);
      for i := 0 to |page|
        invariant next == clock
        invariant View() == AfterPage(old(View()), page[..i], env, settings)
      {
        ProcessCommand(page[i], env, env(next));
        next := next + 1;
        PageNext(old(View()), page, i, env, settings);
        hide AfterCommand;
      }
      assert page[..|page|] == page;
    }

    method Sweep(env: Env, start: nat)
      requires start == clock
      modifies this, manager
      ensures View() == AfterSweeps(old(View()), env, settings) && clock == start + 2
    {
      Meanwhile(env(start));
      rows := WithoutExpired(rows, env(start).now, settings);
      Meanwhile(env(start + 1));
      rows := WithoutTimedOut(rows, env(start + 1).now, settings);
    }

    method OnCommandRunnerTimer(env: Env, start: nat)
      requires start == clock
      modifies this, manager
      ensures View() == AfterPass(old(View()), env, settings)
    {
      hide Elapse, Page, AfterPage, AfterPages, AfterSweeps;
      Sweep(env, start);
      var at, offset: nat, done := start + 2, 0, false;
      while !done
        invariant !done ==> at == clock
        invariant !done ==> AfterPages(View(), offset, env, settings) == AfterPass(old(View()), env, settings)
        invariant done ==> View() == AfterPass(old(View()), env, settings)
        decreases !done, |rows| - offset
      {
        PagesUnfold(View(), offset, env, settings);
        var m := env(at);
        Meanwhile(m);
        var read, page := GetReadyToExecuteCommands(m, offset);
        if !read || page == [] {
          done := true;
        } else {
          at := ProcessPage(page, env, at + 1);
          offset := offset + |page|;
        }
      }
    }
  }
}
