/** What a pass of the scheduler does: the commands that it closes, and what it sends. */
module SchedulerEffects {
  import opened Common
  import opened CommandTable
  import opened CommandScheduler
  import opened SchedulerRuns

  /** The time of some moment in a span. */
  ghost predicate TimeWithin(time: u64, env: Env, from: nat, until: nat) {
    exists g | from <= g < until :: time == env(g).now
  }

  /** Since some earlier moment: what was closed stays closed, and if it was closed at a moment of the span,
      it still is closed at one. */
  ghost predicate StaysClosed(from: nat, r: Row, until: nat, later: Row, laterUntil: nat, env: Env) {
    && (r.executed != 0 ==> later.executed != 0)
    && (TimeWithin(r.executed, env, from, until) ==> TimeWithin(later.executed, env, from, laterUntil))
  }

  ghost predicate StayClosed(from: nat, s: State, t: State, env: Env) {
    && |t.rows| == |s.rows| && from <= s.clock <= t.clock
    && forall i | 0 <= i < |s.rows| :: StaysClosed(from, s.rows[i], s.clock, t.rows[i], t.clock, env)
  }

  lemma StayClosedOn(from: nat, s: State, t: State, u: State, env: Env)
    requires StayClosed(from, s, t, env) && StayClosed(from, t, u, env)
    ensures StayClosed(from, s, u, env)
  {
    hide TimeWithin;
    forall i | 0 <= i < |s.rows|
      ensures StaysClosed(from, s.rows[i], s.clock, u.rows[i], u.clock, env)
    {
      assert StaysClosed(from, t.rows[i], t.clock, u.rows[i], u.clock, env);
    }
  }

  lemma Longer(time: u64, env: Env, from: nat, until: nat, later: nat)
    requires TimeWithin(time, env, from, until) && until <= later
    ensures TimeWithin(time, env, from, later)
  {
  }

  lemma ElapseStaysClosed(from: nat, s: State, env: Env)
    requires from <= s.clock
    ensures StayClosed(from, s, Elapse(s, env(s.clock)), env)
  {
  }

  lemma CommandStaysClosed(from: nat, s: State, cmd: Row, env: Env, settings: Settings)
    requires from <= s.clock
    ensures StayClosed(from, s, AfterCommand(s, cmd, env, settings), env)
  {
    var v := AfterCommand(s, cmd, env, settings);
    Onward(s, cmd, env, settings);
    hide AfterCommand, Closing;
    forall i | 0 <= i < |s.rows|
      ensures StaysClosed(from, s.rows[i], s.clock, v.rows[i], v.clock, env)
    {
      CommandTouches(s, cmd, env, settings, i);
      assert env(s.clock).now != 0;
    }
  }

  lemma {:induction false} PageStaysClosed(from: nat, s: State, page: seq<Row>, env: Env, settings: Settings)
    requires from <= s.clock
    ensures StayClosed(from, s, AfterPage(s, page, env, settings), env)
    decreases |page|
  {
    hide StayClosed, AfterCommand;
    if page == [] {
      SameStaysClosed(from, s, env);
    } else {
      var t := AfterPage(s, page[..|page| - 1], env, settings);
      PageStaysClosed(from, s, page[..|page| - 1], env, settings);
      assert from <= t.clock by { LaterClock(from, s, t, env); }
      CommandStaysClosed(from, t, page[|page| - 1], env, settings);
      StayClosedOn(from, s, t, AfterPage(s, page, env, settings), env);
    }
  }

  lemma SameStaysClosed(from: nat, s: State, env: Env)
    requires from <= s.clock
    ensures StayClosed(from, s, s, env)
  {
  }

  lemma LaterClock(from: nat, s: State, t: State, env: Env)
    requires StayClosed(from, s, t, env)
    ensures from <= s.clock <= t.clock
  {
  }

  lemma {:induction false} PagesStayClosed(from: nat, s: State, offset: nat, env: Env, settings: Settings)
    requires from <= s.clock
    ensures StayClosed(from, s, AfterPages(s, offset, env, settings), env)
    decreases |s.rows| - offset
  {
    hide StayClosed, Page, AfterPage, AfterPages;
    PagesUnfold(s, offset, env, settings);
    var m := env(s.clock);
    var v := Elapse(s, m);
    ElapseStaysClosed(from, s, env);
    var page := Page(v.rows, m, offset, settings);
    if m.readable && page != [] {
      var t := AfterPage(v, page, env, settings);
      PageStaysClosed(from, v, page, env, settings);
      LaterClock(from, v, t, env);
      PagesStayClosed(from, t, offset + |page|, env, settings);
      StayClosedOn(from, s, v, t, env);
      StayClosedOn(from, s, t, AfterPages(t, offset + |page|, env, settings), env);
    }
  }

  /** The start of the window of commands that are not too old; the difference wraps round. */
  function WindowStart(now: Time, timeout: u64): nat {
    if timeout <= now then now - timeout else now + TWO_64 - timeout
  }

  /** Whatever is connected, and whatever else happens: after a pass, every command submitted before the
      window that ends as the pass begins is closed, at a moment of this pass if it was open; and so is
      every one submitted before the window of the next moment that is not completed. */
  lemma OldCommandsAreClosed(s: State, env: Env, settings: Settings)
    ensures var t := AfterPass(s, env, settings);
      && |t.rows| == |s.rows|
      && forall i | 0 <= i < |s.rows| ::
           && (s.rows[i].submitted < WindowStart(env(s.clock).now, settings.timeout) ==>
                 && t.rows[i].executed != 0
                 && (s.rows[i].executed == 0 ==> TimeWithin(t.rows[i].executed, env, s.clock, t.clock)))
           && (s.rows[i].submitted < WindowStart(env(s.clock + 1).now, settings.timeout) && s.rows[i].completed == 0 ==>
                 t.rows[i].executed != 0 && TimeWithin(t.rows[i].executed, env, s.clock, t.clock))
  {
    var w := AfterSweeps(s, env, settings);
    PagesStayClosed(s.clock, w, 0, env, settings);
    var t := AfterPass(s, env, settings);
    forall i | 0 <= i < |s.rows|
      ensures s.rows[i].submitted < WindowStart(env(s.clock).now, settings.timeout) ==>
        w.rows[i].executed != 0 && (s.rows[i].executed == 0 ==> TimeWithin(w.rows[i].executed, env, s.clock, w.clock))
      ensures s.rows[i].submitted < WindowStart(env(s.clock + 1).now, settings.timeout) && s.rows[i].completed == 0 ==>
        w.rows[i].executed != 0 && TimeWithin(w.rows[i].executed, env, s.clock, w.clock)
    {
      SweptRow(s, env, settings, i);
    }
    hide AfterPages, AfterSweeps, TimeWithin, WindowStart;
    forall i | 0 <= i < |s.rows|
      ensures StaysClosed(s.clock, w.rows[i], w.clock, t.rows[i], t.clock, env)
    {
    }
  }

  lemma SweptRow(s: State, env: Env, settings: Settings, i: nat)
    requires i < |s.rows|
    ensures var w := AfterSweeps(s, env, settings);
      && |w.rows| == |s.rows| && w.clock == s.clock + 2
      && (s.rows[i].submitted < WindowStart(env(s.clock).now, settings.timeout) ==>
            w.rows[i].executed != 0 && (s.rows[i].executed == 0 ==>
                                        TimeWithin(w.rows[i].executed, env, s.clock, w.clock)))
      && (s.rows[i].submitted < WindowStart(env(s.clock + 1).now, settings.timeout) && s.rows[i].completed == 0 ==>
            w.rows[i].executed != 0 && TimeWithin(w.rows[i].executed, env, s.clock, w.clock))
  {
    var first, second := env(s.clock).now, env(s.clock + 1).now;
    assert Elapsed(first, settings.timeout) == WindowStart(first, settings.timeout);
    assert Elapsed(second, settings.timeout) == WindowStart(second, settings.timeout);
    hide WindowStart, Elapsed;
    var w := AfterSweeps(s, env, settings);
    assert w.rows[i].executed == first || w.rows[i].executed == second || w.rows[i].executed == s.rows[i].executed;
    assert TimeWithin(first, env, s.clock, s.clock + 2) && TimeWithin(second, env, s.clock, s.clock + 2);
  }

  /* ---------- what is sent ---------- */

  /** What was sent is a command of the store. */
  ghost predicate IsCommand(rows: seq<Row>, send: Send) {
    exists i | 0 <= i < |rows| ::
      rows[i].uuid == send.uuid && rows[i].serial == send.serial && rows[i].kind == send.kind
  }

  ghost predicate SendsCommands(start: State, s: State) {
    |start.sends| <= |s.sends| && forall k | |start.sends| <= k < |s.sends| :: IsCommand(start.rows, s.sends[k])
  }

  /** The rows are those of an earlier state but for times, and what was sent since is of them. */
  ghost predicate Sending(start: State, s: State) {
    && |s.rows| == |start.rows| && (forall i | 0 <= i < |start.rows| :: SameCommand(start.rows[i], s.rows[i]))
    && SendsCommands(start, s)
  }

  lemma CommandSends(start: State, s: State, cmd: Row, env: Env, settings: Settings)
    requires Sending(start, s) && IsRow(start.rows, cmd)
    ensures Sending(start, AfterCommand(s, cmd, env, settings))
  {
    var v := AfterCommand(s, cmd, env, settings);
    forall i | 0 <= i < |start.rows|
      ensures SameCommand(start.rows[i], v.rows[i])
    {
      CommandTouches(s, cmd, env, settings, i);
    }
    NewSend(s, cmd, env, settings);
    var at :| 0 <= at < |start.rows| && SameCommand(start.rows[at], cmd);
    hide AfterCommand;
    forall k | |start.sends| <= k < |v.sends|
      ensures IsCommand(start.rows, v.sends[k])
    {
      if k < |s.sends| {
        assert v.sends[k] == s.sends[k];
      } else {
        assert start.rows[at].uuid == v.sends[k].uuid;
      }
    }
  }

  lemma NewSend(s: State, cmd: Row, env: Env, settings: Settings)
    ensures var v := AfterCommand(s, cmd, env, settings);
      && s.sends <= v.sends && |v.sends| <= |s.sends| + 1
      && (|v.sends| > |s.sends| ==>
            var last := v.sends[|s.sends|];
            last.uuid == cmd.uuid && last.serial == cmd.serial && last.kind == cmd.kind && last.moment == s.clock)
  {
    hide WithExecuted, WithLastTry, VerdictOn;
  }

  lemma {:induction false} PageSends(start: State, s: State, page: seq<Row>, env: Env, settings: Settings)
    requires Sending(start, s) && FromRows(start.rows, page)
    ensures Sending(start, AfterPage(s, page, env, settings))
    decreases |page|
  {
    if page != [] {
      var some, last := page[..|page| - 1], page[|page| - 1];
      assert last in page && forall r | r in some :: r in page;
      assert FromRows(start.rows, some) && IsRow(start.rows, last);
      hide IsRow, FromRows, Sending;
      PageSends(start, s, some, env, settings);
      CommandSends(start, AfterPage(s, some, env, settings), last, env, settings);
    }
  }

  lemma PageIsOfRows(start: State, s: State, m: Moment, offset: nat, settings: Settings)
    requires Sending(start, s)
    ensures FromRows(start.rows, Page(s.rows, m, offset, settings))
  {
    PageHolds(s.rows, m, offset, settings);
    hide Page, ReadyRows;
    forall r | r in Page(s.rows, m, offset, settings)
      ensures IsRow(start.rows, r)
    {
      var i :| 0 <= i < |s.rows| && s.rows[i] == r;
      assert SameCommand(start.rows[i], r);
    }
  }

  lemma ElapseSends(start: State, s: State, m: Moment)
    requires Sending(start, s)
    ensures Sending(start, Elapse(s, m))
  {
    hide SameCommand, IsCommand;
  }

  lemma {:induction false} PagesSend(start: State, s: State, offset: nat, env: Env, settings: Settings)
    requires Sending(start, s)
    ensures Sending(start, AfterPages(s, offset, env, settings))
    decreases |s.rows| - offset
  {
    hide Sending, FromRows, Page, AfterPages, AfterPage;
    PagesUnfold(s, offset, env, settings);
    var m := env(s.clock);
    var v := Elapse(s, m);
    ElapseSends(start, s, m);
    var page := Page(v.rows, m, offset, settings);
    if m.readable && page != [] {
      PageIsOfRows(start, v, m, offset, settings);
      PageSends(start, v, page, env, settings);
      PagesSend(start, AfterPage(v, page, env, settings), offset + |page|, env, settings);
    }
  }

  /** Whatever a pass sends is a command of the store, to the device that it is for. */
  lemma CommandsAreSent(s: State, env: Env, settings: Settings)
    ensures SendsCommands(s, AfterPass(s, env, settings))
  {
    assert Sending(s, AfterSweeps(s, env, settings));
    PagesSend(s, AfterSweeps(s, env, settings), 0, env, settings);
  }

  /** What becomes of the row of a command that is looked at, in terms of the moment: it stays as it is
      while the command or another one is running, is closed if it is too old, makes no sense or is sent,
      and is marked as tried if its device is away or the frame does not get through. */
  lemma CommandIsDealtWith(s: State, cmd: Row, env: Env, settings: Settings, i: nat)
    requires i < |s.rows| && s.rows[i].uuid == cmd.uuid
    ensures var m := env(s.clock);
      var r, later := s.rows[i], AfterCommand(s, cmd, env, settings).rows[i];
      var left := map id | id in s.t.outstanding && id !in m.gone :: s.t.outstanding[id];
      var aged := (m.now - cmd.submitted) % 0x1_0000_0000_0000_0000 > settings.timeout as int;
      if exists id | id in left :: left[id].uuid == cmd.uuid then later == r
      else if aged then later == r.(executed := m.now)
      else if cmd.serial !in m.connected then later == r.(lastTry := m.now)
      else if exists id | id in left :: left[id].serial == cmd.serial then later == r
      else if cmd.parameters == None || m.delivered then later == r.(executed := m.now)
      else later == r.(lastTry := m.now)
  {
    var m := env(s.clock);
    var left := map id | id in s.t.outstanding && id !in m.gone :: s.t.outstanding[id];
    assert Elapse(s, m).t.outstanding == left;
  }
}
