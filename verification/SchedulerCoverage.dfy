/** Which of the ready commands a pass looks at. The offset counts what was looked at, while the store
    counts what is still ready, so a pass may step over commands, or end before it came to them. */
module SchedulerCoverage {
  import opened Common
  import opened CommandTable
  import opened CommandScheduler
  import opened Filters
  import opened SchedulerRuns

  /** Nothing changes but by the pass itself. */
  ghost predicate Steady(env: Env, m: Moment) {
    m.readable && m.gone == {} && forall g: nat :: env(g) == m
  }

  function Uuids(rows: seq<Row>): seq<string> {
    seq(|rows|, i requires 0 <= i < |rows| => rows[i].uuid)
  }

  function Outside(gone: set<string>): Row -> bool {
    (r: Row) => r.uuid !in gone
  }

  function Dropped(rows: seq<Row>, gone: set<string>): seq<Row> {
    Filter(rows, Outside(gone))
  }

  /** What comes from an offset on, and what comes behind the page there. */
  function Rest(ready: seq<Row>, offset: nat): seq<Row> {
    ready[Min(offset, |ready|)..]
  }

  function Behind(ready: seq<Row>, offset: nat): seq<Row> {
    ready[Min(offset + PAGE, |ready|)..]
  }

  /** A command that is looked at is no longer ready, unless it is running or its device is busy. */
  predicate Leaves(t: Table, cmd: Row, m: Moment, settings: Settings) {
    VerdictOn(t, cmd, m, settings) !in {Running, Busy}
  }

  /** The commands of a page that are not ready afterwards. */
  ghost function Leavers(s: State, page: seq<Row>, env: Env, settings: Settings): set<string>
    decreases |page|
  {
    if page == [] then {}
    else
      var before := AfterPage(s, page[..|page| - 1], env, settings);
      var last := page[|page| - 1];
      Leavers(s, page[..|page| - 1], env, settings)
      + if Leaves(before.t, last, env(before.clock), settings) then {last.uuid} else {}
  }

  /** The UUIDs that the pages from an offset on look at, in order. */
  ghost function Looks(s: State, offset: nat, env: Env, settings: Settings): seq<string>
    decreases |s.rows| - offset
  {
    var m := env(s.clock);
    var v := Elapse(s, m);
    var page := Page(v.rows, m, offset, settings);
    if !m.readable || page == [] then []
    else Uuids(page) + Looks(AfterPage(v, page, env, settings), offset + |page|, env, settings)
  }

  lemma {:induction false} PageIsLookedAt(s: State, page: seq<Row>, env: Env, settings: Settings)
    ensures AfterPage(s, page, env, settings).looked == s.looked + Uuids(page)
    decreases |page|
  {
    if page == [] {
      assert s.looked + Uuids(page) == s.looked;
    } else {
      PageIsLookedAt(s, page[..|page| - 1], env, settings);
      assert Uuids(page) == Uuids(page[..|page| - 1]) + [page[|page| - 1].uuid];
    }
  }

  /** The record of what was looked at grows by exactly this. */
  lemma {:induction false} LooksAreRecorded(s: State, offset: nat, env: Env, settings: Settings)
    ensures AfterPages(s, offset, env, settings).looked == s.looked + Looks(s, offset, env, settings)
    decreases |s.rows| - offset
  {
    var m := env(s.clock);
    var v := Elapse(s, m);
    var page := Page(v.rows, m, offset, settings);
    hide Page, AfterPage;
    if m.readable && page != [] {
      PageIsLookedAt(v, page, env, settings);
      LooksAreRecorded(AfterPage(v, page, env, settings), offset + |page|, env, settings);
      assert (s.looked + Uuids(page)) + Looks(AfterPage(v, page, env, settings), offset + |page|, env, settings)
          == s.looked + Looks(s, offset, env, settings);
    } else {
      assert s.looked + [] == s.looked;
    }
  }

  /* ---------- what stays ready ---------- */

  lemma DropNext(rows: seq<Row>, r: Row, gone: set<string>)
    ensures Dropped(rows + [r], gone) == Dropped(rows, gone) + (if r.uuid in gone then [] else [r])
  {
    FilterNext(rows, r, Outside(gone));
  }

  /** A row that is updated is not ready, and the other rows are as before. */
  lemma {:induction false} UpdateDrops(rows: seq<Row>, later: seq<Row>, uuid: string, now: Time, settings: Settings)
    requires |later| == |rows|
    requires forall i | 0 <= i < |rows| ::
      if rows[i].uuid == uuid then !Ready(later[i], now, settings) else later[i] == rows[i]
    ensures ReadyRows(later, now, settings) == Dropped(ReadyRows(rows, now, settings), {uuid})
  {
    hide Ready;
    if rows != [] {
      hide ReadyRows, Dropped;
      var n := |rows| - 1;
      UpdateDrops(rows[..n], later[..n], uuid, now, settings);
      assert rows[..n + 1] == rows && later[..n + 1] == later;
      NextReady(rows, n, now, settings);
      NextReady(later, n, now, settings);
      var ready := ReadyRows(rows[..n], now, settings);
      DropNext(ready, rows[n], {uuid});
      assert ready + [] == ready && Dropped(ready, {uuid}) + [] == Dropped(ready, {uuid});
    }
  }

  lemma ElapseIsSteady(s: State, env: Env, m: Moment)
    requires Steady(env, m)
    ensures Elapse(s, env(s.clock)) == s.(clock := s.clock + 1)
  {
    assert s.t.outstanding - {} == s.t.outstanding;
  }

  lemma CommandDrops(s: State, cmd: Row, env: Env, m: Moment, settings: Settings)
    requires Steady(env, m)
    ensures ReadyRows(AfterCommand(s, cmd, env, settings).rows, m.now, settings)
         == if Leaves(s.t, cmd, m, settings) then Dropped(ReadyRows(s.rows, m.now, settings), {cmd.uuid})
            else ReadyRows(s.rows, m.now, settings)
  {
    ElapseIsSteady(s, env, m);
    UpdateDrops(s.rows, WithExecuted(s.rows, cmd.uuid, m.now), cmd.uuid, m.now, settings);
    UpdateDrops(s.rows, WithLastTry(s.rows, cmd.uuid, m.now), cmd.uuid, m.now, settings);
    hide ReadyRows, Dropped, WithExecuted, WithLastTry, Elapse, CommandRunning, DeviceBusy, Elapsed;
  }

  lemma DropTwice(rows: seq<Row>, gone: set<string>, uuid: string)
    ensures Dropped(Dropped(rows, gone), {uuid}) == Dropped(rows, gone + {uuid})
  {
    FilterTwice(rows, Outside(gone), Outside({uuid}), Outside(gone + {uuid}));
  }

  lemma {:induction false} PageDrops(s: State, page: seq<Row>, env: Env, m: Moment, settings: Settings)
    requires Steady(env, m)
    ensures ReadyRows(AfterPage(s, page, env, settings).rows, m.now, settings)
         == Dropped(ReadyRows(s.rows, m.now, settings), Leavers(s, page, env, settings))
    decreases |page|
  {
    var ready := ReadyRows(s.rows, m.now, settings);
    if page == [] {
      FilterAll(ready, Outside({}));
    } else {
      var some, last := page[..|page| - 1], page[|page| - 1];
      PageDrops(s, some, env, m, settings);
      CommandDrops(AfterPage(s, some, env, settings), last, env, m, settings);
      var gone := Leavers(s, some, env, settings);
      DropTwice(ready, gone, last.uuid);
      hide ReadyRows, Leaves, AfterCommand, Dropped;
      assert gone + {} == gone;
    }
  }

  lemma {:induction false} LeaversAreFromPage(s: State, page: seq<Row>, env: Env, settings: Settings)
    ensures forall u | u in Leavers(s, page, env, settings) :: u in Uuids(page)
    decreases |page|
  {
    if page != [] {
      LeaversAreFromPage(s, page[..|page| - 1], env, settings);
      hide Leaves;
      assert Uuids(page) == Uuids(page[..|page| - 1]) + [page[|page| - 1].uuid];
    }
  }

  lemma WithoutLast(rows: seq<Row>, gone: set<string>)
    requires Distinct(rows) && rows != [] && forall u | u in gone :: u in Uuids(rows)
    ensures Distinct(rows[..|rows| - 1])
    ensures forall r | r in rows[..|rows| - 1] :: r.uuid != rows[|rows| - 1].uuid
    ensures forall u | u in gone && u != rows[|rows| - 1].uuid :: u in Uuids(rows[..|rows| - 1])
  {
    assert Uuids(rows) == Uuids(rows[..|rows| - 1]) + [rows[|rows| - 1].uuid];
  }

  lemma NoneToDrop(gone: set<string>)
    requires forall u | u in gone :: u in Uuids([])
    ensures gone == {}
  {
    assert Uuids([]) == [];
  }

  lemma OneLess(gone: set<string>, u: string)
    ensures |gone| == |gone - {u}| + (if u in gone then 1 else 0)
  {
    assert gone == if u in gone then (gone - {u}) + {u} else gone - {u};
  }

  lemma {:induction false} DropCount(rows: seq<Row>, gone: set<string>)
    requires Distinct(rows) && forall u | u in gone :: u in Uuids(rows)
    ensures |Dropped(rows, gone)| + |gone| == |rows|
  {
    hide Uuids, Distinct;
    if rows == [] {
      NoneToDrop(gone);
    } else {
      var front, last := rows[..|rows| - 1], rows[|rows| - 1];
      var less := gone - {last.uuid};
      WithoutLast(rows, gone);
      DropCount(front, less);
      SameDrop(front, gone, less);
      DropNext(front, last, gone);
      hide Dropped;
      assert rows == front + [last];
      OneLess(gone, last.uuid);
    }
  }

  lemma {:induction false} SameDrop(rows: seq<Row>, a: set<string>, b: set<string>)
    requires forall r | r in rows :: r.uuid in a <==> r.uuid in b
    ensures Dropped(rows, a) == Dropped(rows, b)
  {
    if rows != [] {
      SameDrop(rows[..|rows| - 1], a, b);
      assert rows[|rows| - 1] in rows;
    }
  }

  /* ---------- one page ---------- */

  /** How many commands behind a page the next offset steps over: as many as leave beyond those that
      the page did not look at. */
  function Overshoot(window: nat, page: nat, leavers: nat, behind: nat): (over: nat)
    ensures over <= behind && (over > 0 ==> page + leavers > window)
  {
    Min(behind, if page + leavers < window then 0 else page + leavers - window)
  }

  /** The ready commands in front of an offset, in the page there, and behind. */
  lemma Pieces(ready: seq<Row>, offset: nat)
    requires offset <= |ready|
    ensures ready == ready[..offset] + Window(ready, offset) + Behind(ready, offset)
    ensures Rest(ready, offset) == Window(ready, offset) + Behind(ready, offset)
    ensures Behind(ready, offset) != [] ==> |Window(ready, offset)| == PAGE
  {
  }

  lemma DropInMiddle(a: seq<Row>, b: seq<Row>, c: seq<Row>, gone: set<string>)
    requires Distinct(a + b + c) && forall u | u in gone :: u in Uuids(b)
    ensures Dropped(a + b + c, gone) == a + Dropped(b, gone) + c
  {
    FilterSplits(a + b, c, Outside(gone));
    FilterSplits(a, b, Outside(gone));
    var all := a + b + c;
    forall r | r in a || r in c
      ensures r.uuid !in gone
    {
      forall i | 0 <= i < |b|
        ensures b[i].uuid != r.uuid
      {
        assert all[|a| + i] == b[i];
        if r in a {
          var j :| 0 <= j < |a| && a[j] == r;
          assert all[j] == r;
        } else {
          var j :| 0 <= j < |c| && c[j] == r;
          assert all[|a| + |b| + j] == r;
        }
      }
    }
    FilterAll(a, Outside(gone));
    FilterAll(c, Outside(gone));
  }

  /** What comes from the next offset on: where fewer left than the page did not look at, the end of
      its window and all behind; otherwise, what is behind without what was stepped over. */
  lemma NextRest(ready: seq<Row>, offset: nat, page: nat, gone: set<string>)
    requires Distinct(ready) && offset <= |ready| && page <= |Window(ready, offset)|
    requires forall u | u in gone :: u in Uuids(Window(ready, offset))
    ensures var w, b, d := Window(ready, offset), Behind(ready, offset), Dropped(Window(ready, offset), gone);
      && |d| + |gone| == |w|
      && (page + |gone| <= |w| ==>
            page <= |d| && Rest(Dropped(ready, gone), offset + page) == d[page..] + b)
      && (page + |gone| >= |w| ==>
            Rest(Dropped(ready, gone), offset + page) == b[Overshoot(|w|, page, |gone|, |b|)..])
  {
    hide Dropped, Window, Behind, Distinct, Uuids, Rest;
    var w, b := Window(ready, offset), Behind(ready, offset);
    var d := Dropped(w, gone);
    Pieces(ready, offset);
    DropInMiddle(ready[..offset], w, b, gone);
    SliceIsDistinct(ready, offset);
    DropCount(w, gone);
    RestOf(ready[..offset], d, b, page);
  }

  lemma SliceIsDistinct(ready: seq<Row>, offset: nat)
    requires Distinct(ready)
    ensures Distinct(Window(ready, offset)) && Distinct(Behind(ready, offset))
  {
  }

  lemma RestOf(a: seq<Row>, d: seq<Row>, b: seq<Row>, page: nat)
    ensures page <= |d| ==> Rest(a + d + b, |a| + page) == d[page..] + b
    ensures page >= |d| ==> Rest(a + d + b, |a| + page) == b[Min(|b|, page - |d|)..]
  {
  }

  /* ---------- a pass that nothing interferes with ---------- */

  lemma {:induction false} PageKeepsDistinct(s: State, page: seq<Row>, env: Env, settings: Settings)
    requires Distinct(s.rows)
    ensures Distinct(AfterPage(s, page, env, settings).rows)
    decreases |page|
  {
    if page != [] {
      PageKeepsDistinct(s, page[..|page| - 1], env, settings);
      var before := AfterPage(s, page[..|page| - 1], env, settings);
      forall i | 0 <= i < |before.rows|
        ensures AfterPage(s, page, env, settings).rows[i].uuid == before.rows[i].uuid
      {
        CommandTouches(before, page[|page| - 1], env, settings, i);
      }
    }
  }

  /** The page at an offset is what its window holds for connected devices. */
  lemma PageIsInWindow(rows: seq<Row>, m: Moment, offset: nat, settings: Settings)
    requires Distinct(rows)
    ensures var ready, page := ReadyRows(rows, m.now, settings), Page(rows, m, offset, settings);
      && Distinct(ready) && (page != [] ==> offset <= |ready|)
      && IsPage(page, Window(ready, offset), m.connected)
  {
    FilterKeepsDistinct(rows, IsReady(m.now, settings));
    PageIsDistinct(rows, m, offset, settings);
    ConnectedMeans(Window(ReadyRows(rows, m.now, settings), offset), m.connected);
  }

  lemma UuidsOf(rows: seq<Row>, u: string)
    ensures u in Uuids(rows) <==> exists r | r in rows :: r.uuid == u
  {
    if u in Uuids(rows) {
      var i :| 0 <= i < |rows| && Uuids(rows)[i] == u;
      assert rows[i] in rows;
    } else {
      forall r | r in rows
        ensures r.uuid != u
      {
        var i :| 0 <= i < |rows| && rows[i] == r;
        assert Uuids(rows)[i] in Uuids(rows);
      }
    }
  }

  lemma LooksStep(s: State, offset: nat, env: Env, m: Moment, settings: Settings)
    requires Steady(env, m) && Page(s.rows, m, offset, settings) != []
    ensures var page := Page(s.rows, m, offset, settings);
      var next := AfterPage(s.(clock := s.clock + 1), page, env, settings);
      Looks(s, offset, env, settings) == Uuids(page) + Looks(next, offset + |page|, env, settings)
  {
    hide Page, AfterPage, Uuids;
    ElapseIsSteady(s, env, m);
    assert env(s.clock) == m;
  }

  lemma LeaversAreInWindow(s: State, page: seq<Row>, window: seq<Row>, env: Env, settings: Settings)
    requires forall r | r in page :: r in window
    ensures AreFrom(Leavers(s, page, env, settings), window)
  {
    hide Leavers, Uuids;
    LeaversAreFromPage(s, page, env, settings);
    forall u | u in Leavers(s, page, env, settings)
      ensures u in Uuids(window)
    {
      UuidsOf(page, u);
      UuidsOf(window, u);
    }
  }

  /** What one page that is not empty does, in an environment that does not change. */
  lemma PageStep(s: State, offset: nat, env: Env, m: Moment, settings: Settings)
    requires Steady(env, m) && Distinct(s.rows) && Page(s.rows, m, offset, settings) != []
    ensures var v, page := s.(clock := s.clock + 1), Page(s.rows, m, offset, settings);
      var next, gone := AfterPage(v, page, env, settings), Leavers(v, page, env, settings);
      && Distinct(next.rows)
      && ReadyRows(next.rows, m.now, settings) == Dropped(ReadyRows(s.rows, m.now, settings), gone)
      && AreFrom(gone, Window(ReadyRows(s.rows, m.now, settings), offset))
      && Looks(s, offset, env, settings) == Uuids(page) + Looks(next, offset + |page|, env, settings)
  {
    hide Page, AfterPage, ReadyRows, Leavers, Looks, Distinct, Steady, Window, Dropped, Uuids;
    var v, page := s.(clock := s.clock + 1), Page(s.rows, m, offset, settings);
    PageKeepsDistinct(v, page, env, settings);
    PageDrops(v, page, env, m, settings);
    PageIsInWindow(s.rows, m, offset, settings);
    LeaversAreInWindow(v, page, Window(ReadyRows(s.rows, m.now, settings), offset), env, settings);
    LooksStep(s, offset, env, m, settings);
  }

  lemma NothingLookedAt(s: State, offset: nat, env: Env, m: Moment, settings: Settings)
    requires Steady(env, m) && Page(s.rows, m, offset, settings) == []
    ensures Looks(s, offset, env, settings) == []
  {
    ElapseIsSteady(s, env, m);
    assert env(s.clock) == m;
  }

  lemma RestShrinks(ready: seq<Row>, offset: nat, page: nat, gone: set<string>)
    requires Distinct(ready) && offset <= |ready| && page <= |Window(ready, offset)|
    requires forall u | u in gone :: u in Uuids(Window(ready, offset))
    ensures forall r | r in Rest(Dropped(ready, gone), offset + page) :: r in Rest(ready, offset)
  {
    hide Window, Behind, Rest;
    NextRest(ready, offset, page, gone);
    Pieces(ready, offset);
    FilterMeans(Window(ready, offset), Outside(gone));
    var w, b, d := Window(ready, offset), Behind(ready, offset), Dropped(Window(ready, offset), gone);
    assert forall r | r in d :: r in w;
    hide Outside, Dropped, Distinct, Uuids;
  }

  /** What is looked at from an offset on comes from there. */
  lemma {:induction false} LooksComeFromRest(s: State, offset: nat, env: Env, m: Moment, settings: Settings, u: string)
    requires Steady(env, m) && Distinct(s.rows) && u in Looks(s, offset, env, settings)
    ensures u in Uuids(Rest(ReadyRows(s.rows, m.now, settings), offset))
    decreases |s.rows| - offset
  {
    hide Page, AfterPage, ReadyRows, Leavers, Looks, Distinct, Steady, Dropped, Uuids, Rest, Window, Behind;
    var ready, page := ReadyRows(s.rows, m.now, settings), Page(s.rows, m, offset, settings);
    if page == [] {
      NothingLookedAt(s, offset, env, m, settings);
    } else {
      PageStep(s, offset, env, m, settings);
      PageIsInWindow(s.rows, m, offset, settings);
      Pieces(ready, offset);
      var v := s.(clock := s.clock + 1);
      var next, gone := AfterPage(v, page, env, settings), Leavers(v, page, env, settings);
      UuidsOf(Rest(ready, offset), u);
      if u in Uuids(page) {
        UuidsOf(page, u);
      } else {
        LooksComeFromRest(next, offset + |page|, env, m, settings, u);
        UuidsOf(Rest(Dropped(ready, gone), offset + |page|), u);
        RestShrinks(ready, offset, |page|, gone);
      }
    }
  }

  lemma WindowIsLookedAt(s: State, offset: nat, env: Env, m: Moment, settings: Settings, r: Row)
    requires Steady(env, m) && Distinct(s.rows)
    requires r in Window(ReadyRows(s.rows, m.now, settings), offset) && r.serial in m.connected
    ensures r.uuid in Looks(s, offset, env, settings)
  {
    PageIsInWindow(s.rows, m, offset, settings);
    PageStep(s, offset, env, m, settings);
    UuidsOf(Page(s.rows, m, offset, settings), r.uuid);
  }

  /** A ready command of a connected device, from an offset on, that is not among those looked at. */
  ghost predicate Missing(ready: seq<Row>, offset: nat, connected: set<u64>, looks: seq<string>, r: Row) {
    r in Rest(ready, offset) && r.serial in connected && r.uuid !in looks
  }

  ghost predicate IsPage(page: seq<Row>, window: seq<Row>, connected: set<u64>) {
    |page| <= |window| && forall r :: r in page <==> r in window && r.serial in connected
  }

  ghost predicate AreFrom(gone: set<string>, rows: seq<Row>) {
    forall u | u in gone :: u in Uuids(rows)
  }

  /** What is looked at later is of the rest, and has all that its first window holds of connected. */
  ghost predicate LooksAt(later: seq<string>, ready: seq<Row>, offset: nat, connected: set<u64>) {
    && (forall u | u in later :: u in Uuids(Rest(ready, offset)))
    && (forall r | r in Window(ready, offset) && r.serial in connected :: r.uuid in later)
  }

  /** A page of some ready commands, those of it that leave, what it and the next pages look at, and what
      these alone do. */
  ghost predicate Turn(ready: seq<Row>, offset: nat, connected: set<u64>, page: seq<Row>, gone: set<string>,
                       looks: seq<string>, later: seq<string>) {
    && Distinct(ready) && offset <= |ready| && IsPage(page, Window(ready, offset), connected)
    && AreFrom(gone, Window(ready, offset)) && looks == Uuids(page) + later
    && LooksAt(later, Dropped(ready, gone), offset + |page|, connected)
  }

  function Overstepped(ready: seq<Row>, offset: nat, page: nat, gone: nat): seq<Row> {
    Behind(ready, offset)[..Overshoot(|Window(ready, offset)|, page, gone, |Behind(ready, offset)|)]
  }

  ghost predicate Overlooked(s: State, offset: nat, env: Env, m: Moment, settings: Settings, r: Row) {
    Missing(ReadyRows(s.rows, m.now, settings), offset, m.connected, Looks(s, offset, env, settings), r)
  }

  /** The commands behind a page that the next offset steps over. */
  ghost function SteppedOverRows(s: State, offset: nat, env: Env, m: Moment, settings: Settings): seq<Row> {
    var page := Page(s.rows, m, offset, settings);
    var leavers := Leavers(s.(clock := s.clock + 1), page, env, settings);
    Overstepped(ReadyRows(s.rows, m.now, settings), offset, |page|, |leavers|)
  }

  ghost predicate SomeConnected(rows: seq<Row>, connected: set<u64>) {
    exists r | r in rows :: r.serial in connected
  }

  /** The guards that decide it: a page is empty although there are connected devices behind it, or more
      leave than the page did not look at, and one of those stepped over is for a connected device. */
  ghost predicate StepsOver(s: State, offset: nat, env: Env, m: Moment, settings: Settings)
    decreases |s.rows| - offset
  {
    var page := Page(s.rows, m, offset, settings);
    if page == [] then SomeConnected(Behind(ReadyRows(s.rows, m.now, settings), offset), m.connected)
    else
      || SomeConnected(SteppedOverRows(s, offset, env, m, settings), m.connected)
      || StepsOver(AfterPage(s.(clock := s.clock + 1), page, env, settings), offset + |page|, env, m, settings)
  }

  lemma TwoPieces(w: seq<Row>, b: seq<Row>, r: Row, t: Row)
    requires Distinct(w + b) && r in w && t in b
    ensures r.uuid != t.uuid
  {
    var i :| 0 <= i < |w| && w[i] == r;
    var j :| 0 <= j < |b| && b[j] == t;
    assert (w + b)[i] == r && (w + b)[|w| + j] == t;
  }

  /** What is behind the page is not in it. */
  lemma BehindIsNotInPage(ready: seq<Row>, offset: nat, page: seq<Row>, r: Row)
    requires Distinct(ready) && offset <= |ready| && r in Behind(ready, offset)
    requires forall t | t in page :: t in Window(ready, offset)
    ensures r.uuid !in Uuids(page)
  {
    var w, b := Window(ready, offset), Behind(ready, offset);
    Pieces(ready, offset);
    assert Distinct(w + b) by {
      assert w + b == ready[offset..];
    }
    UuidsOf(page, r.uuid);
    hide Distinct, Window, Behind, Uuids;
    forall t | t in page
      ensures t.uuid != r.uuid
    {
      TwoPieces(w, b, t, r);
    }
  }

  /** What is stepped over is not looked at: not in this page, and it does not come later. */
  lemma SteppedOver(ready: seq<Row>, offset: nat, connected: set<u64>, page: seq<Row>, gone: set<string>,
                    looks: seq<string>, later: seq<string>, r: Row)
    requires Turn(ready, offset, connected, page, gone, looks, later)
    requires r in Overstepped(ready, offset, |page|, |gone|) && r.serial in connected
    ensures Missing(ready, offset, connected, looks, r)
  {
    var w, b := Window(ready, offset), Behind(ready, offset);
    var over := Overshoot(|w|, |page|, |gone|, |b|);
    hide Dropped, Uuids, Rest, Window, Behind, Distinct, Overshoot;
    InPrefix(b, over, r);
    assert r.uuid !in Uuids(page) by {
      BehindIsNotInPage(ready, offset, page, r);
    }
    hide IsPage;
    assert r in Rest(ready, offset) by {
      Pieces(ready, offset);
    }
    assert r.uuid !in later by {
      SliceIsDistinct(ready, offset);
      PageIsShort(page, Window(ready, offset), connected);
      NextRest(ready, offset, |page|, gone);
      ApartFromTail(b, over, later, r);
    }
  }

  lemma PageIsShort(page: seq<Row>, window: seq<Row>, connected: set<u64>)
    requires IsPage(page, window, connected)
    ensures |page| <= |window|
  {
  }

  lemma InPrefix(b: seq<Row>, over: nat, r: Row)
    requires over <= |b| && r in b[..over]
    ensures r in b && over > 0
  {
  }

  lemma ApartFromTail(b: seq<Row>, over: nat, later: seq<string>, r: Row)
    requires Distinct(b) && over <= |b| && r in b[..over] && forall u | u in later :: u in Uuids(b[over..])
    ensures r.uuid !in later
  {
    UuidsOf(b[over..], r.uuid);
    assert b == b[..over] + b[over..];
    hide Distinct, Uuids;
    forall t | t in b[over..]
      ensures t.uuid != r.uuid
    {
      TwoPieces(b[..over], b[over..], r, t);
    }
  }

  /** What the next pages miss is behind this one, and was not looked at before. */
  lemma MissedLater(ready: seq<Row>, offset: nat, connected: set<u64>, page: seq<Row>, gone: set<string>,
                    looks: seq<string>, later: seq<string>, r: Row)
    requires Turn(ready, offset, connected, page, gone, looks, later)
    requires Missing(Dropped(ready, gone), offset + |page|, connected, later, r)
    ensures Missing(ready, offset, connected, looks, r)
  {
    var w, b, d := Window(ready, offset), Behind(ready, offset), Dropped(Window(ready, offset), gone);
    WindowIsShort(ready, offset);
    hide Dropped, Uuids, Rest, Window, Behind, Distinct;
    assert r !in Window(Dropped(ready, gone), offset + |page|);
    assert r in b by {
      NextRest(ready, offset, |page|, gone);
      if |page| + |gone| <= |w| && r in d[|page|..] {
        TailIsInWindow(Dropped(ready, gone), offset + |page|, d[|page|..], b, r);
      }
    }
    assert r in Rest(ready, offset) by {
      Pieces(ready, offset);
    }
    BehindIsNotInPage(ready, offset, page, r);
  }

  lemma WindowIsShort(ready: seq<Row>, offset: nat)
    ensures |Window(ready, offset)| <= PAGE
  {
  }

  /** What is missed is stepped over, or the next pages miss it. */
  lemma MissedHowever(ready: seq<Row>, offset: nat, connected: set<u64>, page: seq<Row>, gone: set<string>,
                      looks: seq<string>, later: seq<string>, r: Row)
    requires Turn(ready, offset, connected, page, gone, looks, later)
    requires Missing(ready, offset, connected, looks, r) && r !in Overstepped(ready, offset, |page|, |gone|)
    ensures Missing(Dropped(ready, gone), offset + |page|, connected, later, r)
  {
    var w, b := Window(ready, offset), Behind(ready, offset);
    var over := Overshoot(|w|, |page|, |gone|, |b|);
    hide Dropped, Uuids, Rest, Window, Behind, Distinct, Overshoot, LooksAt;
    assert r in b by {
      Pieces(ready, offset);
      UuidsOf(page, r.uuid);
    }
    hide IsPage;
    InSuffix(b, over, r);
    AtTheEnd(ready, offset, |page|, gone, over, r);
  }

  lemma InSuffix(b: seq<Row>, over: nat, r: Row)
    requires over <= |b| && r in b && r !in b[..over]
    ensures r in b[over..]
  {
    assert b == b[..over] + b[over..];
  }

  /** Where nothing is stepped over, all that is behind comes later. */
  lemma AtTheEnd(ready: seq<Row>, offset: nat, page: nat, gone: set<string>, over: nat, r: Row)
    requires Distinct(ready) && offset <= |ready| && page <= |Window(ready, offset)|
    requires forall u | u in gone :: u in Uuids(Window(ready, offset))
    requires over == Overshoot(|Window(ready, offset)|, page, |gone|, |Behind(ready, offset)|)
    requires r in Behind(ready, offset)[over..]
    ensures r in Rest(Dropped(ready, gone), offset + page)
  {
    hide Dropped, Uuids, Rest, Window, Behind, Distinct;
    NextRest(ready, offset, page, gone);
  }

  lemma TailIsInWindow(ready: seq<Row>, offset: nat, tail: seq<Row>, b: seq<Row>, r: Row)
    requires Rest(ready, offset) == tail + b && r in tail && |tail| <= PAGE
    ensures r in Window(ready, offset)
  {
    var i :| 0 <= i < |tail| && tail[i] == r;
    assert Rest(ready, offset)[i] == r;
    assert offset + i < |ready| && ready[offset + i] == r;
    assert Window(ready, offset)[i] == r;
  }

  lemma PageTurns(s: State, offset: nat, env: Env, m: Moment, settings: Settings)
    requires Steady(env, m) && Distinct(s.rows) && Page(s.rows, m, offset, settings) != []
    ensures var v, page := s.(clock := s.clock + 1), Page(s.rows, m, offset, settings);
      var next, gone := AfterPage(v, page, env, settings), Leavers(v, page, env, settings);
      Turn(ReadyRows(s.rows, m.now, settings), offset, m.connected, page, gone, Looks(s, offset, env, settings),
           Looks(next, offset + |page|, env, settings))
  {
    hide *;
    PageStep(s, offset, env, m, settings);
    PageIsInWindow(s.rows, m, offset, settings);
    var ready, page := ReadyRows(s.rows, m.now, settings), Page(s.rows, m, offset, settings);
    var v := s.(clock := s.clock + 1);
    var next, gone := AfterPage(v, page, env, settings), Leavers(v, page, env, settings);
    var at := offset + |page|;
    LaterLooks(next, at, env, m, settings);
    var looks, later := Looks(s, offset, env, settings), Looks(next, at, env, settings);
    assert LooksAt(later, Dropped(ready, gone), at, m.connected);
    MakeTurn(ready, offset, m.connected, page, gone, looks, later, at);
  }

  lemma MakeTurn(ready: seq<Row>, offset: nat, connected: set<u64>, page: seq<Row>, gone: set<string>,
                 looks: seq<string>, later: seq<string>, at: nat)
    requires Distinct(ready) && offset <= |ready| && IsPage(page, Window(ready, offset), connected)
    requires AreFrom(gone, Window(ready, offset)) && looks == Uuids(page) + later
    requires at == offset + |page| && LooksAt(later, Dropped(ready, gone), at, connected)
    ensures Turn(ready, offset, connected, page, gone, looks, later)
  {
  }

  lemma LaterLooks(s: State, offset: nat, env: Env, m: Moment, settings: Settings)
    requires Steady(env, m) && Distinct(s.rows)
    ensures LooksAt(Looks(s, offset, env, settings), ReadyRows(s.rows, m.now, settings), offset, m.connected)
  {
    var ready, looks := ReadyRows(s.rows, m.now, settings), Looks(s, offset, env, settings);
    hide ReadyRows, Looks, Uuids, Rest, Window, Distinct, Steady;
    forall u | u in looks
      ensures u in Uuids(Rest(ready, offset))
    {
      LooksComeFromRest(s, offset, env, m, settings, u);
    }
    forall r | r in Window(ready, offset) && r.serial in m.connected
      ensures r.uuid in looks
    {
      WindowIsLookedAt(s, offset, env, m, settings, r);
    }
  }

  ghost predicate Overlooks(s: State, offset: nat, env: Env, m: Moment, settings: Settings) {
    exists r :: Overlooked(s, offset, env, m, settings, r)
  }

  lemma EndOverlooks(s: State, offset: nat, env: Env, m: Moment, settings: Settings, r: Row)
    requires Steady(env, m) && Distinct(s.rows) && Page(s.rows, m, offset, settings) == []
    ensures Overlooked(s, offset, env, m, settings, r)
       <==> r in Behind(ReadyRows(s.rows, m.now, settings), offset) && r.serial in m.connected
  {
    var ready := ReadyRows(s.rows, m.now, settings);
    NothingLookedAt(s, offset, env, m, settings);
    PageIsInWindow(s.rows, m, offset, settings);
    hide Page, ReadyRows, Looks, Steady, Distinct;
    if offset <= |ready| {
      Pieces(ready, offset);
    }
  }

  /** Where nothing else interferes, the pages from an offset on overlook a ready command of a connected
      device if and only if one of them steps over one, or the last is empty too soon. */
  lemma {:induction false} OverlooksIfSteppingOver(s: State, offset: nat, env: Env, m: Moment, settings: Settings)
    requires Steady(env, m) && Distinct(s.rows)
    ensures Overlooks(s, offset, env, m, settings) <==> StepsOver(s, offset, env, m, settings)
    decreases |s.rows| - offset
  {
    hide Page, AfterPage, ReadyRows, Leavers, Looks, Steady, Distinct, Missing, Behind, Overstepped, Turn, Dropped;
    var ready, page := ReadyRows(s.rows, m.now, settings), Page(s.rows, m, offset, settings);
    if page == [] {
      hide Overlooked;
      forall r
        ensures Overlooked(s, offset, env, m, settings, r) <==> r in Behind(ready, offset) && r.serial in m.connected
      {
        EndOverlooks(s, offset, env, m, settings, r);
      }
    } else {
      var v := s.(clock := s.clock + 1);
      var next, gone := AfterPage(v, page, env, settings), Leavers(v, page, env, settings);
      var looks, later := Looks(s, offset, env, settings), Looks(next, offset + |page|, env, settings);
      PageStep(s, offset, env, m, settings);
      PageTurns(s, offset, env, m, settings);
      OverlooksIfSteppingOver(next, offset + |page|, env, m, settings);
      var over := Overstepped(ready, offset, |page|, |gone|);
      if Overlooks(s, offset, env, m, settings) {
        var r :| Overlooked(s, offset, env, m, settings, r);
        MissingIsConnected(ready, offset, m.connected, looks, r);
        if r in over {
          assert SomeConnected(over, m.connected);
        } else {
          MissedHowever(ready, offset, m.connected, page, gone, looks, later, r);
          assert Overlooked(next, offset + |page|, env, m, settings, r);
          assert Overlooks(next, offset + |page|, env, m, settings);
        }
        assert StepsOver(s, offset, env, m, settings);
      }
      if SomeConnected(over, m.connected) {
        var r :| r in over && r.serial in m.connected;
        SteppedOver(ready, offset, m.connected, page, gone, looks, later, r);
        assert Overlooked(s, offset, env, m, settings, r);
      }
      if Overlooks(next, offset + |page|, env, m, settings) {
        var r :| Overlooked(next, offset + |page|, env, m, settings, r);
        MissedLater(ready, offset, m.connected, page, gone, looks, later, r);
        assert Overlooked(s, offset, env, m, settings, r);
      }
    }
  }

  lemma MissingIsConnected(ready: seq<Row>, offset: nat, connected: set<u64>, looks: seq<string>, r: Row)
    requires Missing(ready, offset, connected, looks, r)
    ensures r.serial in connected
  {
  }

  /* ---------- where all devices are connected ---------- */

  ghost predicate AllConnected(rows: seq<Row>, connected: set<u64>) {
    forall r | r in rows :: r.serial in connected
  }

  /** A page that nothing leaves changes nothing but the clock and the record. */
  lemma {:induction false} PageThatStays(s: State, page: seq<Row>, env: Env, m: Moment, settings: Settings)
    requires Steady(env, m)
    ensures Leavers(s, page, env, settings) == {} <==> forall r | r in page :: !Leaves(s.t, r, m, settings)
    ensures Leavers(s, page, env, settings) == {} ==>
      var v := AfterPage(s, page, env, settings);
      v.rows == s.rows && v.t == s.t
    decreases |page|
  {
    if page != [] {
      var some, last := page[..|page| - 1], page[|page| - 1];
      PageThatStays(s, some, env, m, settings);
      var before := AfterPage(s, some, env, settings);
      ElapseIsSteady(before, env, m);
      assert env(before.clock) == m;
      assert page == some + [last];
      hide CommandRunning, DeviceBusy, Elapsed;
    }
  }

  /** Some command in front of the last page leaves when it is looked at. */
  ghost predicate LeavesEarly(t: Table, ready: seq<Row>, offset: nat, m: Moment, settings: Settings) {
    exists i | offset <= i < |ready| && (i / PAGE + 1) * PAGE < |ready| :: Leaves(t, ready[i], m, settings)
  }

  lemma PastTheEnd(s: State, offset: nat, env: Env, m: Moment, settings: Settings)
    requires offset >= |ReadyRows(s.rows, m.now, settings)|
    ensures !StepsOver(s, offset, env, m, settings)
  {
    var ready := ReadyRows(s.rows, m.now, settings);
    hide ReadyRows;
    assert Window(ready, offset) == [] && Behind(ready, offset) == [];
    assert Page(s.rows, m, offset, settings) == [];
  }

  lemma PageIsWindow(rows: seq<Row>, m: Moment, offset: nat, settings: Settings)
    requires AllConnected(ReadyRows(rows, m.now, settings), m.connected)
    ensures Page(rows, m, offset, settings) == Window(ReadyRows(rows, m.now, settings), offset)
  {
    var w := Window(ReadyRows(rows, m.now, settings), offset);
    hide ReadyRows;
    FilterAll(w, IsConnected(m.connected));
  }

  lemma StepsOverUnfolds(s: State, offset: nat, env: Env, m: Moment, settings: Settings)
    requires Page(s.rows, m, offset, settings) != []
    ensures var page := Page(s.rows, m, offset, settings);
      var next := AfterPage(s.(clock := s.clock + 1), page, env, settings);
      StepsOver(s, offset, env, m, settings)
      <==> SomeConnected(SteppedOverRows(s, offset, env, m, settings), m.connected)
           || StepsOver(next, offset + |page|, env, m, settings)
  {
    hide Page, AfterPage, SomeConnected, SteppedOverRows;
  }

  /** A page that looks at its whole window steps over as many as leave. */
  lemma FullPage(ready: seq<Row>, offset: nat, gone: nat, connected: set<u64>)
    requires AllConnected(ready, connected) && offset < |ready|
    ensures Window(ready, offset) != []
    ensures offset + PAGE < |ready| ==> |Window(ready, offset)| == PAGE
    ensures offset + PAGE >= |ready| ==> offset + |Window(ready, offset)| == |ready|
    ensures SomeConnected(Overstepped(ready, offset, |Window(ready, offset)|, gone), connected)
       <==> gone > 0 && offset + PAGE < |ready|
  {
    var over := Overstepped(ready, offset, |Window(ready, offset)|, gone);
    if gone > 0 && offset + PAGE < |ready| {
      assert over[0] in over && over[0] == ready[offset + PAGE];
    }
  }

  /** The last page steps over nothing. */
  lemma LastPage(s: State, offset: nat, env: Env, m: Moment, settings: Settings)
    requires Steady(env, m) && Distinct(s.rows) && AllConnected(ReadyRows(s.rows, m.now, settings), m.connected)
    requires offset < |ReadyRows(s.rows, m.now, settings)| <= offset + PAGE
    ensures !StepsOver(s, offset, env, m, settings)
  {
    hide *;
    NothingBehindLast(s, offset, env, m, settings);
    NothingAfterLast(s, offset, env, m, settings);
    StepsOverUnfolds(s, offset, env, m, settings);
  }

  lemma NothingBehindLast(s: State, offset: nat, env: Env, m: Moment, settings: Settings)
    requires AllConnected(ReadyRows(s.rows, m.now, settings), m.connected)
    requires offset < |ReadyRows(s.rows, m.now, settings)| <= offset + PAGE
    ensures Page(s.rows, m, offset, settings) != []
    ensures !SomeConnected(SteppedOverRows(s, offset, env, m, settings), m.connected)
  {
    hide *;
    PageIsWindow(s.rows, m, offset, settings);
    OverstepsAre(s, offset, env, m, settings);
    var v, page := s.(clock := s.clock + 1), Page(s.rows, m, offset, settings);
    FullPage(ReadyRows(s.rows, m.now, settings), offset, |Leavers(v, page, env, settings)|, m.connected);
  }

  lemma NothingAfterLast(s: State, offset: nat, env: Env, m: Moment, settings: Settings)
    requires Steady(env, m) && Distinct(s.rows) && AllConnected(ReadyRows(s.rows, m.now, settings), m.connected)
    requires offset < |ReadyRows(s.rows, m.now, settings)| <= offset + PAGE
    ensures var page := Page(s.rows, m, offset, settings);
      !StepsOver(AfterPage(s.(clock := s.clock + 1), page, env, settings), offset + |page|, env, m, settings)
  {
    hide *;
    var ready, page := ReadyRows(s.rows, m.now, settings), Page(s.rows, m, offset, settings);
    var v := s.(clock := s.clock + 1);
    PageIsWindow(s.rows, m, offset, settings);
    FullPage(ready, offset, 0, m.connected);
    PageDrops(v, page, env, m, settings);
    ShorterWithout(ready, Leavers(v, page, env, settings));
    PastTheEnd(AfterPage(v, page, env, settings), offset + |page|, env, m, settings);
  }

  lemma ShorterWithout(ready: seq<Row>, gone: set<string>)
    ensures |Dropped(ready, gone)| <= |ready|
  {
  }

  lemma OverstepsAre(s: State, offset: nat, env: Env, m: Moment, settings: Settings)
    ensures var page := Page(s.rows, m, offset, settings);
      SteppedOverRows(s, offset, env, m, settings)
      == Overstepped(ReadyRows(s.rows, m.now, settings), offset, |page|,
                     |Leavers(s.(clock := s.clock + 1), page, env, settings)|)
  {
  }

  /** Another page hands on to the next, if nothing leaves it, and steps over something, if something
      leaves it. */
  lemma FullPageSteps(s: State, offset: nat, env: Env, m: Moment, settings: Settings)
    requires AllConnected(ReadyRows(s.rows, m.now, settings), m.connected)
    requires offset + PAGE < |ReadyRows(s.rows, m.now, settings)|
    ensures var page := Page(s.rows, m, offset, settings);
      var v := s.(clock := s.clock + 1);
      StepsOver(s, offset, env, m, settings)
      <==> Leavers(v, page, env, settings) != {}
           || StepsOver(AfterPage(v, page, env, settings), offset + PAGE, env, m, settings)
  {
    var ready, page := ReadyRows(s.rows, m.now, settings), Page(s.rows, m, offset, settings);
    var gone := Leavers(s.(clock := s.clock + 1), page, env, settings);
    hide *;
    PageIsWindow(s.rows, m, offset, settings);
    FullPage(ready, offset, |gone|, m.connected);
    StepsOverUnfolds(s, offset, env, m, settings);
    OverstepsAre(s, offset, env, m, settings);
    assert |gone| > 0 <==> gone != {};
  }

  lemma {:induction false} StepsOverIfOneLeavesEarly(s: State, k: nat, env: Env, m: Moment, settings: Settings)
    requires Steady(env, m) && Distinct(s.rows) && AllConnected(ReadyRows(s.rows, m.now, settings), m.connected)
    ensures StepsOver(s, PAGE * k, env, m, settings)
       <==> LeavesEarly(s.t, ReadyRows(s.rows, m.now, settings), PAGE * k, m, settings)
    decreases |s.rows| - PAGE * k
  {
    var offset, ready := PAGE * k, ReadyRows(s.rows, m.now, settings);
    var page, v := Page(s.rows, m, offset, settings), s.(clock := s.clock + 1);
    hide *;
    assert |ready| <= |s.rows|;
    if offset >= |ready| {
      PastTheEnd(s, offset, env, m, settings);
      NoneBehind(s.t, ready, k, m, settings);
    } else if offset + PAGE >= |ready| {
      LastPage(s, offset, env, m, settings);
      NoneBehind(s.t, ready, k, m, settings);
    } else {
      FullPageSteps(s, offset, env, m, settings);
      PageIsWindow(s.rows, m, offset, settings);
      PageThatStays(v, page, env, m, settings);
      if Leavers(v, page, env, settings) == {} {
        var next := AfterPage(v, page, env, settings);
        assert offset + PAGE == PAGE * (k + 1);
        StepsOverIfOneLeavesEarly(next, k + 1, env, m, settings);
        NoneHere(s.t, ready, k, m, settings);
      } else {
        OneHere(s.t, ready, k, m, settings);
      }
    }
  }

  lemma NoneBehind(t: Table, ready: seq<Row>, k: nat, m: Moment, settings: Settings)
    requires |ready| <= PAGE * k + PAGE
    ensures !LeavesEarly(t, ready, PAGE * k, m, settings)
  {
  }

  lemma NoneHere(t: Table, ready: seq<Row>, k: nat, m: Moment, settings: Settings)
    requires PAGE * k + PAGE < |ready|
    requires forall r | r in Window(ready, PAGE * k) :: !Leaves(t, r, m, settings)
    ensures LeavesEarly(t, ready, PAGE * k, m, settings) <==> LeavesEarly(t, ready, PAGE * (k + 1), m, settings)
  {
    hide Leaves;
    forall i | PAGE * k <= i < PAGE * (k + 1)
      ensures !Leaves(t, ready[i], m, settings)
    {
      assert Window(ready, PAGE * k)[i - PAGE * k] == ready[i];
    }
  }

  lemma OneHere(t: Table, ready: seq<Row>, k: nat, m: Moment, settings: Settings)
    requires PAGE * k + PAGE < |ready|
    requires exists r | r in Window(ready, PAGE * k) :: Leaves(t, r, m, settings)
    ensures LeavesEarly(t, ready, PAGE * k, m, settings)
  {
    hide Leaves;
    var w := Window(ready, PAGE * k);
    var r :| r in w && Leaves(t, r, m, settings);
    var i :| 0 <= i < |w| && w[i] == r;
    assert ready[PAGE * k + i] == r && (PAGE * k + i) / PAGE == k;
  }

  /* ---------- a whole pass ---------- */

  /** What a pass looks at, in order. */
  ghost function PassLooks(s: State, env: Env, settings: Settings): seq<string> {
    var looked := AfterPass(s, env, settings).looked;
    if |s.looked| <= |looked| then looked[|s.looked|..] else []
  }

  /** A command that is ready when the pages begin, for a connected device, that the pass does not look
      at. */
  ghost predicate PassMisses(s: State, env: Env, m: Moment, settings: Settings, r: Row) {
    && r in ReadyRows(AfterSweeps(s, env, settings).rows, m.now, settings) && r.serial in m.connected
    && r.uuid !in PassLooks(s, env, settings)
  }

  ghost predicate Misses(s: State, env: Env, m: Moment, settings: Settings) {
    exists r :: PassMisses(s, env, m, settings, r)
  }

  lemma PassLooksAre(s: State, env: Env, settings: Settings)
    ensures PassLooks(s, env, settings) == Looks(AfterSweeps(s, env, settings), 0, env, settings)
  {
    hide AfterPages, Looks;
    LooksAreRecorded(AfterSweeps(s, env, settings), 0, env, settings);
  }

  lemma SweepsKeepDistinct(s: State, env: Env, settings: Settings)
    requires Distinct(s.rows)
    ensures Distinct(AfterSweeps(s, env, settings).rows)
  {
    var w := AfterSweeps(s, env, settings);
    assert forall i | 0 <= i < |s.rows| :: w.rows[i].uuid == s.rows[i].uuid;
  }

  /** Where nothing else interferes, a pass misses a ready command of a connected device if and only if
      one of its pages steps over one, or its last page is empty although one is behind it. */
  lemma PassMissesIfSteppingOver(s: State, env: Env, m: Moment, settings: Settings)
    requires Steady(env, m) && Distinct(s.rows)
    ensures Misses(s, env, m, settings)
       <==> StepsOver(AfterSweeps(s, env, settings), 0, env, m, settings)
  {
    var w := AfterSweeps(s, env, settings);
    SweepsKeepDistinct(s, env, settings);
    OverlooksIfSteppingOver(w, 0, env, m, settings);
    PassLooksAre(s, env, settings);
    hide ReadyRows, Looks, AfterSweeps, PassLooks, StepsOver, Steady;
    forall r
      ensures PassMisses(s, env, m, settings, r) <==> Overlooked(w, 0, env, m, settings, r)
    {
    }
  }

  /** And where all devices with ready commands are connected, if and only if there is another page
      behind one with a command that is neither running nor for a busy device. */
  lemma PassMissesIfOneLeavesEarly(s: State, env: Env, m: Moment, settings: Settings)
    requires Steady(env, m) && Distinct(s.rows)
    requires AllConnected(ReadyRows(AfterSweeps(s, env, settings).rows, m.now, settings), m.connected)
    ensures Misses(s, env, m, settings)
       <==> LeavesEarly(s.t, ReadyRows(AfterSweeps(s, env, settings).rows, m.now, settings), 0, m, settings)
  {
    PassMissesIfSteppingOver(s, env, m, settings);
    SweepsKeepDistinct(s, env, settings);
    SweepsKeepTable(s, env, m, settings);
    hide *;
    StepsOverIfOneLeavesEarly(AfterSweeps(s, env, settings), 0, env, m, settings);
  }

  lemma SweepsKeepTable(s: State, env: Env, m: Moment, settings: Settings)
    requires Steady(env, m)
    ensures AfterSweeps(s, env, settings).t == s.t
  {
    assert s.t.outstanding - {} == s.t.outstanding;
  }

  /** Whatever else happens: where a page holds all that are ready when the pages begin, the pass looks
      at every one of them whose device is connected then. */
  lemma SmallStoreIsCovered(s: State, env: Env, settings: Settings)
    requires var w := AfterSweeps(s, env, settings);
      env(w.clock).readable && |ReadyRows(w.rows, env(w.clock).now, settings)| <= PAGE
    ensures var w := AfterSweeps(s, env, settings);
      var m := env(w.clock);
      forall r | r in ReadyRows(w.rows, m.now, settings) && r.serial in m.connected ::
        r.uuid in PassLooks(s, env, settings)
  {
    var w := AfterSweeps(s, env, settings);
    var m := env(w.clock);
    var ready, page := ReadyRows(w.rows, m.now, settings), Page(w.rows, m, 0, settings);
    PassLooksAre(s, env, settings);
    assert Window(ready, 0) == ready;
    ConnectedMeans(ready, m.connected);
    hide PassLooks, ReadyRows, AfterSweeps;
    forall r | r in ready && r.serial in m.connected
      ensures r.uuid in Looks(w, 0, env, settings)
    {
      assert r in page;
      UuidsOf(page, r.uuid);
    }
  }

  /** Whatever else happens: where the first page would be for devices that are not connected, the pass
      ends there and looks at nothing. */
  lemma OfflinePageEndsPass(s: State, env: Env, settings: Settings)
    requires var w := AfterSweeps(s, env, settings);
      var m := env(w.clock);
      forall r | r in Window(ReadyRows(w.rows, m.now, settings), 0) :: r.serial !in m.connected
    ensures PassLooks(s, env, settings) == []
    ensures AfterPass(s, env, settings)
         == Elapse(AfterSweeps(s, env, settings), env(AfterSweeps(s, env, settings).clock))
  {
    var w := AfterSweeps(s, env, settings);
    var m := env(w.clock);
    FilterNone(Window(ReadyRows(w.rows, m.now, settings), 0), IsConnected(m.connected));
    PassLooksAre(s, env, settings);
  }

  /* ---------- two passes that miss a command ---------- */

  /** A text of some length. */
  function Name(n: nat): string {
    seq(n, _ => 'a')
  }

  /** A command submitted at 20000, with a name of its own, for one device or for another. */
  function Waiting(i: nat, n: nat, first: u64, last: u64): Row {
    Row(Name(i), if i < n then first else last, Other, Some(""), 20000, 0, 0, 0, 0)
  }

  /** n commands that wait for one device, and then one for another. */
  function WaitingRows(n: nat, first: u64, last: u64): seq<Row> {
    seq(n + 1, i requires 0 <= i => Waiting(i, n, first, last))
  }

  /** Four hours, and two minutes. */
  const DEFAULTS: Settings := Settings(14400, 120)

  function AtOnce(connected: set<u64>): Moment {
    Moment(20000, 0, connected, true, true, {})
  }

  function Always(m: Moment): Env {
    _ => m
  }

  function Beginning(rows: seq<Row>): State {
    State(rows, Table(map[], []), 3, 0, [], [])
  }

  lemma WaitingStay(n: nat, first: u64, last: u64, connected: set<u64>)
    ensures var m := AtOnce(connected);
      && Steady(Always(m), m)
      && AfterSweeps(Beginning(WaitingRows(n, first, last)), Always(m), DEFAULTS).rows == WaitingRows(n, first, last)
  {
    var rows, m := WaitingRows(n, first, last), AtOnce(connected);
    assert forall i | 0 <= i < |rows| :: rows[i] == Waiting(i, n, first, last);
    var once := WithoutExpired(rows, 20000, DEFAULTS);
    assert once == rows;
    assert WithoutTimedOut(rows, 20000, DEFAULTS) == rows;
  }

  lemma WaitingAreReady(n: nat, first: u64, last: u64)
    ensures Distinct(WaitingRows(n, first, last))
    ensures ReadyRows(WaitingRows(n, first, last), 20000, DEFAULTS) == WaitingRows(n, first, last)
  {
    var rows := WaitingRows(n, first, last);
    forall r | r in rows
      ensures IsReady(20000, DEFAULTS)(r)
    {
      var i :| 0 <= i < |rows| && rows[i] == r;
      assert r == Waiting(i, n, first, last);
    }
    FilterAll(rows, IsReady(20000, DEFAULTS));
    forall i, j | 0 <= i < j < |rows|
      ensures rows[i].uuid != rows[j].uuid
    {
      assert rows[i].uuid == Name(i) && rows[j].uuid == Name(j) && |Name(i)| == i && |Name(j)| == j;
    }
  }

  /** 201 commands for one connected device, nothing running: the first is sent and is not ready any
      more, so the 201st moves up to where the offset has passed. */
  lemma LastOf201IsMissed()
    ensures Misses(Beginning(WaitingRows(PAGE, 7, 7)), Always(AtOnce({7})), AtOnce({7}), DEFAULTS)
  {
    var m, rows := AtOnce({7}), WaitingRows(PAGE, 7, 7);
    var s := Beginning(rows);
    WaitingStay(PAGE, 7, 7, {7});
    WaitingAreReady(PAGE, 7, 7);
    forall r | r in rows
      ensures r.serial == 7
    {
      var i :| 0 <= i < |rows| && rows[i] == r;
      assert r == Waiting(i, PAGE, 7, 7);
    }
    assert rows[0] == Waiting(0, PAGE, 7, 7);
    assert VerdictOn(s.t, rows[0], m, DEFAULTS) == Sent;
    hide WaitingRows, ReadyRows, AfterSweeps, Steady, Misses;
    PassMissesIfOneLeavesEarly(s, Always(m), m, DEFAULTS);
    assert Leaves(s.t, rows[0], m, DEFAULTS);
  }

  /** 200 commands for a device that is not connected, and one for a device that is: the page is empty. */
  lemma OneBehind200OfflineIsMissed()
    ensures Misses(Beginning(WaitingRows(PAGE, 8, 7)), Always(AtOnce({7})), AtOnce({7}), DEFAULTS)
  {
    var m, rows := AtOnce({7}), WaitingRows(PAGE, 8, 7);
    var s := Beginning(rows);
    WaitingStay(PAGE, 8, 7, {7});
    WaitingAreReady(PAGE, 8, 7);
    var w := AfterSweeps(s, Always(m), DEFAULTS);
    FirstAreOffline();
    assert rows[PAGE] == Waiting(PAGE, PAGE, 8, 7) && rows[PAGE].serial == 7;
    assert Behind(rows, 0)[0] == rows[PAGE] && rows[PAGE] in Behind(rows, 0);
    hide WaitingRows, ReadyRows, AfterSweeps, Steady, Misses, Behind, Page;
    PassMissesIfSteppingOver(s, Always(m), m, DEFAULTS);
    assert SomeConnected(Behind(rows, 0), {7});
    EmptyPageStepsOver(w, Always(m), m, DEFAULTS);
  }

  lemma FirstAreOffline()
    ensures Page(WaitingRows(PAGE, 8, 7), AtOnce({7}), 0, DEFAULTS) == []
  {
    var rows := WaitingRows(PAGE, 8, 7);
    WaitingAreReady(PAGE, 8, 7);
    var w := Window(rows, 0);
    forall r | r in w
      ensures !IsConnected({7})(r)
    {
      var i :| 0 <= i < |w| && w[i] == r;
      assert r == rows[i] == Waiting(i, PAGE, 8, 7);
    }
    FilterNone(w, IsConnected({7}));
  }

  lemma EmptyPageStepsOver(s: State, env: Env, m: Moment, settings: Settings)
    requires Page(s.rows, m, 0, settings) == []
    requires SomeConnected(Behind(ReadyRows(s.rows, m.now, settings), 0), m.connected)
    ensures StepsOver(s, 0, env, m, settings)
  {
  }
}
