/** What the passes of the scheduler keep: no command is sent twice, a device has one request of it at
    a time, and no command is closed without a reason. */
module SchedulerRuns {
  import opened Common
  import opened CommandTable
  import opened CommandScheduler
  import opened Filters

  ghost predicate Distinct(rows: seq<Row>) {
    forall i, j | 0 <= i < j < |rows| :: rows[i].uuid != rows[j].uuid
  }

  /** The UUID of a command names its row, and the row of a command that was sent is closed. */
  ghost predicate SentAreClosed(rows: seq<Row>, sends: seq<Send>) {
    forall i, k | 0 <= i < |rows| && 0 <= k < |sends| && rows[i].uuid == sends[k].uuid :: rows[i].executed != 0
  }

  ghost predicate SentOnce(sends: seq<Send>) {
    forall j, k | 0 <= j < k < |sends| :: sends[j].uuid != sends[k].uuid
  }

  /** Closing and trying only ever write times: rows stay, and what is closed stays closed. */
  ghost predicate Closes(rows: seq<Row>, later: seq<Row>) {
    && |later| == |rows|
    && forall i | 0 <= i < |rows| :: later[i].uuid == rows[i].uuid && (rows[i].executed != 0 ==> later[i].executed != 0)
  }

  /** A command that was sent is not sent again: its row is closed, so it is not ready. */
  ghost predicate Once(s: State) {
    Distinct(s.rows) && SentAreClosed(s.rows, s.sends) && SentOnce(s.sends)
  }

  /** No command of a page has been sent before, and none is there twice. */
  ghost predicate Fresh(s: State, page: seq<Row>) {
    && Distinct(page)
    && forall i, k | 0 <= i < |page| && 0 <= k < |s.sends| :: page[i].uuid != s.sends[k].uuid
  }

  lemma CommandKeepsOnce(s: State, cmd: Row, env: Env, settings: Settings)
    requires Once(s) && forall k | 0 <= k < |s.sends| :: cmd.uuid != s.sends[k].uuid
    ensures Once(AfterCommand(s, cmd, env, settings))
  {
    hide CommandRunning, DeviceBusy, Elapsed;
    var v := AfterCommand(s, cmd, env, settings);
    assert Closes(s.rows, v.rows);
    assert v.sends == s.sends || (v.sends == s.sends + [v.sends[|s.sends|]] && v.sends[|s.sends|].uuid == cmd.uuid);
  }

  /** What was sent meanwhile is from a page. */
  ghost predicate SentFrom(page: seq<Row>, earlier: seq<Send>, sends: seq<Send>) {
    forall k | 0 <= k < |sends| :: sends[k] in earlier || exists i | 0 <= i < |page| :: page[i].uuid == sends[k].uuid
  }

  /** The commands sent in a page are from the page. */
  lemma {:induction false} PageKeepsOnce(s: State, page: seq<Row>, env: Env, settings: Settings)
    requires Once(s) && Fresh(s, page)
    ensures var v := AfterPage(s, page, env, settings);
      Once(v) && SentFrom(page, s.sends, v.sends)
    decreases |page|
  {
    if page != [] {
      var some := page[..|page| - 1];
      PageKeepsOnce(s, some, env, settings);
      var v := AfterPage(s, some, env, settings);
      forall k | 0 <= k < |v.sends|
        ensures page[|page| - 1].uuid != v.sends[k].uuid
      {
        if v.sends[k] !in s.sends {
          var i :| 0 <= i < |some| && some[i].uuid == v.sends[k].uuid;
        }
      }
      CommandKeepsOnce(v, page[|page| - 1], env, settings);
    }
  }

  lemma {:induction false} FilterKeepsDistinct(rows: seq<Row>, keep: Row -> bool)
    requires Distinct(rows)
    ensures Distinct(Filter(rows, keep))
  {
    if rows != [] {
      var front, last := rows[..|rows| - 1], rows[|rows| - 1];
      FilterKeepsDistinct(front, keep);
      FilterMeans(front, keep);
      assert rows == front + [last];
      FilterNext(front, last, keep);
      assert forall i | 0 <= i < |Filter(front, keep)| :: Filter(front, keep)[i] in front;
    }
  }

  lemma WindowIsDistinct(ready: seq<Row>, offset: nat)
    requires Distinct(ready)
    ensures Distinct(Window(ready, offset)) && forall r | r in Window(ready, offset) :: r in ready
  {
  }

  lemma PageIsDistinct(rows: seq<Row>, m: Moment, offset: nat, settings: Settings)
    requires Distinct(rows)
    ensures Distinct(Page(rows, m, offset, settings))
  {
    var ready := ReadyRows(rows, m.now, settings);
    FilterKeepsDistinct(rows, IsReady(m.now, settings));
    WindowIsDistinct(ready, offset);
    FilterKeepsDistinct(Window(ready, offset), IsConnected(m.connected));
  }

  lemma PageIsFresh(s: State, m: Moment, offset: nat, settings: Settings)
    requires Once(s)
    ensures Fresh(s, Page(s.rows, m, offset, settings))
  {
    PageIsDistinct(s.rows, m, offset, settings);
    PageHolds(s.rows, m, offset, settings);
    var page := Page(s.rows, m, offset, settings);
    forall i, k | 0 <= i < |page| && 0 <= k < |s.sends|
      ensures page[i].uuid != s.sends[k].uuid
    {
      assert page[i] in page && page[i] in s.rows && page[i].executed == 0;
    }
  }

  lemma ElapseKeepsOnce(s: State, m: Moment)
    requires Once(s)
    ensures Once(Elapse(s, m))
  {
  }

  lemma {:induction false} PagesKeepOnce(s: State, offset: nat, env: Env, settings: Settings)
    requires Once(s)
    ensures Once(AfterPages(s, offset, env, settings))
    decreases |s.rows| - offset
  {
    hide Once, Fresh, SentFrom, Page, AfterPages, AfterPage;
    PagesUnfold(s, offset, env, settings);
    var m := env(s.clock);
    var v := Elapse(s, m);
    ElapseKeepsOnce(s, m);
    var page := Page(v.rows, m, offset, settings);
    if m.readable && page != [] {
      PageIsFresh(v, m, offset, settings);
      PageKeepsOnce(v, page, env, settings);
      PagesKeepOnce(AfterPage(v, page, env, settings), offset + |page|, env, settings);
    }
  }

  lemma PassKeepsOnce(s: State, env: Env, settings: Settings)
    requires Once(s)
    ensures Once(AfterPass(s, env, settings))
  {
    var v := AfterSweeps(s, env, settings);
    assert Closes(s.rows, v.rows);
    PagesKeepOnce(v, 0, env, settings);
  }

  /** Passes, with commands submitted and other threads at work in between. */
  datatype Event =
    | Pass
    | Submit(row: Row, at: nat)
    | Others(rows: seq<Row>, t: Table, counter: nat)

  ghost predicate Unused(s: State, uuid: string) {
    && (forall r | r in s.rows :: r.uuid != uuid)
    && (forall r | r in s.sends :: r.uuid != uuid)
  }

  /** A command is submitted under a UUID of its own; other threads do not reopen commands. */
  ghost function Next(s: State, e: Event, env: Env, settings: Settings): State {
    match e
    case Pass => AfterPass(s, env, settings)
    case Submit(row, at) =>
      if at <= |s.rows| && Unused(s, row.uuid)
      then s.(rows := s.rows[..at] + [row] + s.rows[at..]) else s
    case Others(rows, t, counter) =>
      if Closes(s.rows, rows) then s.(rows := rows, t := t, counter := counter) else s
  }

  ghost function Run(events: seq<Event>, env: Env, settings: Settings): State {
    if events == [] then State([], Table(map[], []), 3, 0, [], [])
    else Next(Run(events[..|events| - 1], env, settings), events[|events| - 1], env, settings)
  }

  lemma SubmitKeepsOnce(s: State, row: Row, at: nat)
    requires Once(s) && at <= |s.rows| && Unused(s, row.uuid)
    ensures Once(s.(rows := s.rows[..at] + [row] + s.rows[at..]))
  {
    var rows := s.rows[..at] + [row] + s.rows[at..];
    assert forall i | 0 <= i < |rows| ::
        rows[i] == if i < at then s.rows[i] else if i == at then row else s.rows[i - 1];
  }

  /** Over any passes, whatever is connected, gets through, is answered or fails, and whatever is
      submitted in between: no command is sent to its device twice. */
  lemma {:induction false} CommandsAreSentOnce(events: seq<Event>, env: Env, settings: Settings)
    ensures Once(Run(events, env, settings))
  {
    if events != [] {
      var s := Run(events[..|events| - 1], env, settings);
      CommandsAreSentOnce(events[..|events| - 1], env, settings);
      match events[|events| - 1]
      case Pass => PassKeepsOnce(s, env, settings);
      case Submit(row, at) =>
        if at <= |s.rows| && Unused(s, row.uuid) {
          SubmitKeepsOnce(s, row, at);
        }
      case Others(rows, t, counter) =>
    }
  }

  /** At some moment in a span, a request was found to have gone. */
  ghost predicate WentBetween(env: Env, id: nat, after: nat, until: nat) {
    exists g | after < g <= until :: id in env(g).gone
  }

  /** A request the scheduler sent, from some moment on, went to a connected device, and is outstanding
      or has gone. */
  ghost predicate Accounted(s: State, send: Send, start: nat, env: Env) {
    && start <= send.moment < s.clock && send.id <= s.counter && send.serial in env(send.moment).connected
    && (|| (send.id in s.t.outstanding
            && s.t.outstanding[send.id] == Request(send.id, send.serial, send.kind, send.uuid, 1,
                                                   env(send.moment).tick, None, false))
        || WentBetween(env, send.id, send.moment, s.clock - 1))
  }

  /** Unless it has gone, the request in the table is that for the command. */
  ghost predicate IsRequestFor(t: Table, send: Send, env: Env) {
    || (exists g :: send.id in env(g).gone)
    || (send.id in t.outstanding
        && t.outstanding[send.id] == Request(send.id, send.serial, send.kind, send.uuid, 1, env(send.moment).tick,
                                             None, false))
  }

  /** Between two requests to one device, the first of them went. */
  ghost predicate InTurn(first: Send, second: Send, env: Env) {
    first.serial == second.serial ==> WentBetween(env, first.id, first.moment, second.moment)
  }

  /** The requests sent since some earlier state. */
  ghost predicate Watched(s: State, start: State, env: Env) {
    && |start.sends| <= |s.sends| && start.clock <= s.clock
    && (forall id | id in s.t.outstanding :: id <= s.counter)
    && (forall k | |start.sends| <= k < |s.sends| :: Accounted(s, s.sends[k], start.clock, env))
    && (forall j, k | |start.sends| <= j < k < |s.sends| :: InTurn(s.sends[j], s.sends[k], env))
  }

  lemma ElapseAccounts(s: State, send: Send, start: nat, env: Env)
    requires Accounted(s, send, start, env)
    ensures Accounted(Elapse(s, env(s.clock)), send, start, env)
  {
  }

  lemma ElapseKeepsWatched(s: State, start: State, env: Env)
    requires Watched(s, start, env)
    ensures Watched(Elapse(s, env(s.clock)), start, env)
  {
    forall k | |start.sends| <= k < |s.sends|
      ensures Accounted(Elapse(s, env(s.clock)), s.sends[k], start.clock, env)
    {
      ElapseAccounts(s, s.sends[k], start.clock, env);
    }
    hide Accounted;
  }

  lemma CommandKeepsWatched(s: State, start: State, cmd: Row, env: Env, settings: Settings)
    requires Watched(s, start, env)
    ensures Watched(AfterCommand(s, cmd, env, settings), start, env)
  {
    var v := Elapse(s, env(s.clock));
    ElapseKeepsWatched(s, start, env);
    var w := AfterCommand(s, cmd, env, settings);
    forall k | |start.sends| <= k < |s.sends|
      ensures Accounted(w, s.sends[k], start.clock, env)
    {
      assert Accounted(v, s.sends[k], start.clock, env);
    }
    if VerdictOn(v.t, cmd, env(s.clock), settings) == Sent {
      forall j | |start.sends| <= j < |s.sends|
        ensures InTurn(s.sends[j], w.sends[|s.sends|], env)
      {
        assert Accounted(v, s.sends[j], start.clock, env);
      }
    }
    hide WentBetween, InTurn, VerdictOn, Elapse;
  }

  lemma {:induction false} PageKeepsWatched(s: State, start: State, page: seq<Row>, env: Env, settings: Settings)
    requires Watched(s, start, env)
    ensures Watched(AfterPage(s, page, env, settings), start, env)
    decreases |page|
  {
    if page != [] {
      PageKeepsWatched(s, start, page[..|page| - 1], env, settings);
      CommandKeepsWatched(AfterPage(s, page[..|page| - 1], env, settings), start, page[|page| - 1], env, settings);
    }
  }

  lemma {:induction false} PagesKeepWatched(s: State, start: State, offset: nat, env: Env, settings: Settings)
    requires Watched(s, start, env)
    ensures Watched(AfterPages(s, offset, env, settings), start, env)
    decreases |s.rows| - offset
  {
    hide Watched, Page, AfterPages, AfterPage;
    PagesUnfold(s, offset, env, settings);
    var m := env(s.clock);
    var v := Elapse(s, m);
    ElapseKeepsWatched(s, start, env);
    var page := Page(v.rows, m, offset, settings);
    if m.readable && page != [] {
      PageKeepsWatched(v, start, page, env, settings);
      PagesKeepWatched(AfterPage(v, page, env, settings), start, offset + |page|, env, settings);
    }
  }

  /** In a pass, each request goes to a device that is connected, and a second one goes to the same
      device only after the first has left the table; so if nothing leaves the table during the
      pass, at most one command is sent to each device. */
  lemma OneCommandPerDevice(s: State, env: Env, settings: Settings)
    requires forall id | id in s.t.outstanding :: id <= s.counter
    ensures var v := AfterPass(s, env, settings);
      && |s.sends| <= |v.sends|
      && (forall k | |s.sends| <= k < |v.sends| :: v.sends[k].serial in env(v.sends[k].moment).connected)
      && (forall j, k | |s.sends| <= j < k < |v.sends| :: InTurn(v.sends[j], v.sends[k], env))
      && (forall k | |s.sends| <= k < |v.sends| :: IsRequestFor(v.t, v.sends[k], env))
      && ((forall g | s.clock <= g < v.clock :: env(g).gone == {}) ==>
            forall j, k | |s.sends| <= j < k < |v.sends| :: v.sends[j].serial != v.sends[k].serial)
  {
    var v := Elapse(s, env(s.clock));
    var w := v.(rows := WithoutExpired(v.rows, env(s.clock).now, settings));
    ElapseKeepsWatched(s, s, env);
    assert Watched(w, s, env);
    ElapseKeepsWatched(w, s, env);
    PagesKeepWatched(AfterSweeps(s, env, settings), s, 0, env, settings);
    hide AfterPages;
    var z := AfterPass(s, env, settings);
    assert forall k | |s.sends| <= k < |z.sends| :: Accounted(z, z.sends[k], s.clock, env);
  }

  /** Two states of the row of one command. */
  predicate SameCommand(r: Row, later: Row) {
    && later.uuid == r.uuid && later.serial == r.serial
    && later.parameters == r.parameters && later.submitted == r.submitted
    && later.kind == r.kind && later.runAt == r.runAt && later.completed == r.completed
  }

  predicate TooOld(r: Row, now: Time, settings: Settings) {
    Elapsed(now, r.submitted) > settings.timeout || r.submitted < Elapsed(now, settings.timeout)
  }

  /** A command is closed rightly by a span of the pass, at some moment of it: it makes no sense, it is
      too old at that very moment, or it was sent at that very moment. */
  ghost predicate ClosedFor(r: Row, executed: u64, start: State, s: State, env: Env, settings: Settings) {
    exists g | start.clock <= g < s.clock :: executed == env(g).now && Reason(r, g, start, s, env, settings)
  }

  ghost predicate Reason(r: Row, g: nat, start: State, s: State, env: Env, settings: Settings) {
    r.parameters.None? || TooOld(r, env(g).now, settings) || SentAt(r, g, |start.sends|, s.sends)
  }

  ghost predicate SentAt(r: Row, g: nat, from: nat, sends: seq<Send>) {
    exists k | from <= k < |sends| :: sends[k].uuid == r.uuid && sends[k].moment == g
  }

  /** Since some earlier state, rows are the same but for times, and whatever was closed was rightly. */
  ghost predicate ClosedRightly(start: State, s: State, env: Env, settings: Settings) {
    && |s.rows| == |start.rows| && start.clock <= s.clock && |start.sends| <= |s.sends|
    && forall i | 0 <= i < |start.rows| ::
         SameCommand(start.rows[i], s.rows[i]) && RightlySo(start.rows[i], s.rows[i], start, s, env, settings)
  }

  ghost predicate RightlySo(r: Row, later: Row, start: State, s: State, env: Env, settings: Settings) {
    later.executed == r.executed || ClosedFor(r, later.executed, start, s, env, settings)
  }

  /** The commands of a page are rows of the store. */
  ghost predicate FromRows(rows: seq<Row>, page: seq<Row>) {
    forall r | r in page :: IsRow(rows, r)
  }

  ghost predicate IsRow(rows: seq<Row>, r: Row) {
    exists i | 0 <= i < |rows| :: SameCommand(rows[i], r)
  }

  /** A reason stays a reason. */
  lemma RightlyLater(r: Row, later: Row, start: State, s: State, t: State, env: Env, settings: Settings)
    requires RightlySo(r, later, start, s, env, settings) && s.clock <= t.clock && s.sends <= t.sends
    ensures RightlySo(r, later, start, t, env, settings)
  {
    if later.executed != r.executed {
      var g :| start.clock <= g < s.clock && later.executed == env(g).now && Reason(r, g, start, s, env, settings);
      if SentAt(r, g, |start.sends|, s.sends) {
        var k :| |start.sends| <= k < |s.sends| && s.sends[k].uuid == r.uuid && s.sends[k].moment == g;
        assert t.sends[k].uuid == r.uuid && t.sends[k].moment == g;
      }
      assert Reason(r, g, start, t, env, settings);
    }
  }

  predicate Closing(s: State, cmd: Row, env: Env, settings: Settings) {
    VerdictOn(Elapse(s, env(s.clock)).t, cmd, env(s.clock), settings) in {Expired, Malformed, Sent}
  }

  /** What a step for a command does to a row: nothing to any other, and a new time of execution to its
      own, if its verdict is one that closes. */
  lemma CommandTouches(s: State, cmd: Row, env: Env, settings: Settings, i: nat)
    requires i < |s.rows|
    ensures var v := AfterCommand(s, cmd, env, settings);
      && SameCommand(s.rows[i], v.rows[i])
      && (v.rows[i].executed != s.rows[i].executed ==>
            s.rows[i].uuid == cmd.uuid && Closing(s, cmd, env, settings) && v.rows[i].executed == env(s.clock).now)
  {
  }

  lemma CommandHasReason(start: State, s: State, r: Row, cmd: Row, env: Env, settings: Settings)
    requires SameCommand(r, cmd) && Closing(s, cmd, env, settings) && |start.sends| <= |s.sends|
    ensures Reason(r, s.clock, start, AfterCommand(s, cmd, env, settings), env, settings)
  {
    var m := env(s.clock);
    var v := AfterCommand(s, cmd, env, settings);
    match VerdictOn(Elapse(s, m).t, cmd, m, settings)
    case Sent => assert v.sends[|s.sends|].uuid == r.uuid && v.sends[|s.sends|].moment == s.clock;
    case _ =>
  }

  lemma Onward(s: State, cmd: Row, env: Env, settings: Settings)
    ensures var v := AfterCommand(s, cmd, env, settings);
      v.clock == s.clock + 1 && s.sends <= v.sends && |v.rows| == |s.rows|
  {
  }

  lemma CommandClosesRightly(start: State, s: State, cmd: Row, env: Env, settings: Settings)
    requires Distinct(start.rows) && ClosedRightly(start, s, env, settings) && IsRow(start.rows, cmd)
    ensures ClosedRightly(start, AfterCommand(s, cmd, env, settings), env, settings)
  {
    hide AfterCommand, Closing, ClosedFor, Reason;
    var v := AfterCommand(s, cmd, env, settings);
    Onward(s, cmd, env, settings);
    var at :| 0 <= at < |start.rows| && SameCommand(start.rows[at], cmd);
    forall i | 0 <= i < |start.rows|
      ensures SameCommand(start.rows[i], v.rows[i])
      ensures RightlySo(start.rows[i], v.rows[i], start, v, env, settings)
    {
      CommandTouches(s, cmd, env, settings, i);
      if v.rows[i].executed != s.rows[i].executed {
        assert i == at;
        CommandHasReason(start, s, start.rows[at], cmd, env, settings);
        ClosedNow(start.rows[i], start, s.clock, v, env, settings);
      } else {
        RightlyLater(start.rows[i], s.rows[i], start, s, v, env, settings);
      }
    }
  }

  lemma ClosedNow(r: Row, start: State, g: nat, v: State, env: Env, settings: Settings)
    requires start.clock <= g < v.clock && Reason(r, g, start, v, env, settings)
    ensures ClosedFor(r, env(g).now, start, v, env, settings)
  {
  }

  lemma {:induction false} PageClosesRightly(start: State, s: State, page: seq<Row>, env: Env, settings: Settings)
    requires Distinct(start.rows) && ClosedRightly(start, s, env, settings) && FromRows(start.rows, page)
    ensures ClosedRightly(start, AfterPage(s, page, env, settings), env, settings)
    decreases |page|
  {
    if page != [] {
      var some, last := page[..|page| - 1], page[|page| - 1];
      assert last in page && forall r | r in some :: r in page;
      assert FromRows(start.rows, some) && IsRow(start.rows, last);
      hide IsRow, FromRows, ClosedRightly, Distinct;
      PageClosesRightly(start, s, some, env, settings);
      CommandClosesRightly(start, AfterPage(s, some, env, settings), last, env, settings);
    }
  }

  lemma ElapseClosesRightly(start: State, s: State, env: Env, settings: Settings)
    requires ClosedRightly(start, s, env, settings)
    ensures ClosedRightly(start, Elapse(s, env(s.clock)), env, settings)
  {
    hide RightlySo;
    var v := Elapse(s, env(s.clock));
    forall i | 0 <= i < |start.rows|
      ensures RightlySo(start.rows[i], v.rows[i], start, v, env, settings)
    {
      RightlyLater(start.rows[i], s.rows[i], start, s, v, env, settings);
    }
  }

  lemma PageIsFromRows(start: State, s: State, m: Moment, offset: nat, env: Env, settings: Settings)
    requires ClosedRightly(start, s, env, settings)
    ensures FromRows(start.rows, Page(s.rows, m, offset, settings))
  {
    PageHolds(s.rows, m, offset, settings);
    forall r | r in Page(s.rows, m, offset, settings)
      ensures IsRow(start.rows, r)
    {
      var i :| 0 <= i < |s.rows| && s.rows[i] == r;
      assert SameCommand(start.rows[i], r);
    }
  }

  lemma {:induction false} PagesCloseRightly(start: State, s: State, offset: nat, env: Env, settings: Settings)
    requires Distinct(start.rows) && ClosedRightly(start, s, env, settings)
    ensures ClosedRightly(start, AfterPages(s, offset, env, settings), env, settings)
    decreases |s.rows| - offset
  {
    hide ClosedRightly, Distinct, FromRows, Page, AfterPages, AfterPage;
    PagesUnfold(s, offset, env, settings);
    var m := env(s.clock);
    var v := Elapse(s, m);
    ElapseClosesRightly(start, s, env, settings);
    var page := Page(v.rows, m, offset, settings);
    if m.readable && page != [] {
      PageIsFromRows(start, v, m, offset, env, settings);
      PageClosesRightly(start, v, page, env, settings);
      PagesCloseRightly(start, AfterPage(v, page, env, settings), offset + |page|, env, settings);
    }
  }

  lemma SweepsCloseRightly(s: State, env: Env, settings: Settings)
    ensures ClosedRightly(s, AfterSweeps(s, env, settings), env, settings)
  {
    var t := AfterSweeps(s, env, settings);
    forall i | 0 <= i < |s.rows|
      ensures RightlySo(s.rows[i], t.rows[i], s, t, env, settings)
    {
      var r, later := s.rows[i], t.rows[i];
      if later.executed != r.executed {
        var g := if later.executed == env(s.clock + 1).now && TooOld(r, env(s.clock + 1).now, settings)
                 then s.clock + 1 else s.clock;
        assert later.executed == env(g).now && TooOld(r, env(g).now, settings);
        assert Reason(r, g, s, t, env, settings);
      }
    }
  }

  /** No command is lost: over a pass, the time of execution of a command changes only to that of a
      moment of this pass, and only if the command was sent at that moment, was too old then, or has
      parameters that cannot be read; not because its device is away or busy, and not because the
      frame did not get through. */
  lemma NoCommandIsLost(s: State, env: Env, settings: Settings)
    requires Distinct(s.rows)
    ensures var t := AfterPass(s, env, settings);
      && |t.rows| == |s.rows|
      && forall i | 0 <= i < |s.rows| ::
           && SameCommand(s.rows[i], t.rows[i])
           && (t.rows[i].executed == s.rows[i].executed
               || ClosedFor(s.rows[i], t.rows[i].executed, s, t, env, settings))
  {
    SweepsCloseRightly(s, env, settings);
    PagesCloseRightly(s, AfterSweeps(s, env, settings), 0, env, settings);
    hide AfterPages, AfterSweeps, ClosedFor, SameCommand;
  }
}
