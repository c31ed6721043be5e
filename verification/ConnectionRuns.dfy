/** Every interleaving of connections arriving, introducing themselves, starting, ending, being reported by
    the zombie collector, being cleaned up late, and being disconnected. Each step is what happens
    under one lock, so a start, a cleanup and a disconnection are two steps each. */
module ConnectionRuns {
  import opened Common
  import opened ConnectionTables

  /** The tables, the operations that are half done, and what has happened so far. */
  datatype World = World(
    t: Tables,
    starting: map<u64, Connection>,   // taken out of `sessions`, not yet in `devices`
    cleaning: set<(u64, u64)>,        // cleanups that have dealt with `sessions` only
    leaving: map<u64, Connection>,    // taken out of `devices` by a disconnection
    born: map<u64, Connection>,       // every connection ever made, by session, as it is known by now
    started: set<u64>,                // sessions ever taken out of `sessions` by a start
    latest: map<u64, u64>,            // the session started last for each serial number
    excused: set<u64>,                // sessions that ended, were reported stale, or were disconnected
    slipped: set<u64>                 // sessions that had ended, and been cleaned up, as they were put in place
  )

  datatype Step =
    | Connect(sessionId: u64)
    | Introduce(sessionId: u64, serial: u64)
    | StartTake(sessionId: u64)
    | StartPut(sessionId: u64)
    | End(sessionId: u64)
    | Report(sessionId: u64)
    | CleanTake
    | CleanDrop(entry: (u64, u64))
    | KickTake(serial: u64)
    | KickDrop(sessionId: u64)

  /** The cleanup of a session is queued, or half done. */
  predicate Pending(w: World, sessionId: u64, serial: u64) {
    (sessionId, serial) in w.t.queue || (sessionId, serial) in w.cleaning
  }

  /** A session that is about to be put in place has ended, and its cleanup came too early. */
  predicate Slips(w: World, sessionId: u64)
    requires sessionId in w.starting
  {
    sessionId in w.t.dead && !Pending(w, sessionId, w.starting[sessionId].serial)
  }

  /** A step that is not possible changes nothing. Session identifiers are never used twice, and a
      connection introduces itself once. */
  function Next(w: World, step: Step): World {
    match step
    case Connect(sessionId) =>
      if sessionId in w.born then w
      else
        var c := Connection(sessionId, 0);
        w.(t := WithConnection(w.t, c), born := w.born[sessionId := c])
    case Introduce(sessionId, serial) =>
      if sessionId !in w.born || sessionId in w.started || w.born[sessionId].serial != 0 then w
      else w.(t := WithSerial(w.t, sessionId, serial), born := w.born[sessionId := Connection(sessionId, serial)])
    case StartTake(sessionId) =>
      if sessionId !in w.t.sessions then w
      else w.(t := w.t.(sessions := w.t.sessions - {sessionId}),
              starting := w.starting[sessionId := w.t.sessions[sessionId]], started := w.started + {sessionId})
    case StartPut(sessionId) =>
      if sessionId !in w.starting then w
      else
        var c := w.starting[sessionId];
        w.(t := WithDevice(w.t, c.serial, c), starting := w.starting - {sessionId},
           latest := w.latest[c.serial := sessionId],
           slipped := if Slips(w, sessionId) then w.slipped + {sessionId} else w.slipped)
    case End(sessionId) =>
      if sessionId !in w.born then w
      else w.(t := Ended(w.t, w.born[sessionId]), excused := w.excused + {sessionId})
    case Report(sessionId) =>
      if sessionId !in w.born then w
      else w.(t := w.t.(queue := w.t.queue + [(sessionId, w.born[sessionId].serial)]),
              excused := w.excused + {sessionId})
    case CleanTake =>
      if w.t.queue == [] then w
      else w.(t := WithoutSession(w.t.(queue := w.t.queue[1..]), w.t.queue[0].0),
              cleaning := w.cleaning + {w.t.queue[0]})
    case CleanDrop(entry) =>
      if entry !in w.cleaning then w
      else w.(t := WithoutDevice(w.t, entry.0, entry.1), cleaning := w.cleaning - {entry})
    case KickTake(serial) =>
      if serial !in w.t.devices then w
      else
        var c := w.t.devices[serial];
        w.(t := w.t.(devices := w.t.devices - {serial}), leaving := w.leaving[c.sessionId := c],
           excused := w.excused + {c.sessionId})
    case KickDrop(sessionId) =>
      if sessionId !in w.leaving then w
      else w.(t := Ended(WithoutSession(w.t, sessionId), w.leaving[sessionId]), leaving := w.leaving - {sessionId})
  }

  const START: World := World(Tables(map[], map[], [], {}), map[], {}, map[], map[], {}, map[], {}, {})

  function Run(steps: seq<Step>): World {
    if steps == [] then START else Next(Run(steps[..|steps| - 1]), steps[|steps| - 1])
  }

  /** A session with a reason to be cleaned up: its own, or that a newer one took its place. */
  predicate MayBeCleaned(w: World, sessionId: u64) {
    || sessionId in w.excused
    || (&& sessionId in w.started && sessionId !in w.starting
        && sessionId in w.born && w.born[sessionId].serial in w.latest
        && w.latest[w.born[sessionId].serial] != sessionId)
  }

  /** Every connection somewhere is the one that was made for its session. */
  ghost predicate Genuine(w: World) {
    && (forall k | k in w.born :: w.born[k].sessionId == k)
    && (forall k | k in w.t.sessions :: k in w.born && w.t.sessions[k] == w.born[k])
    && (forall k | k in w.starting :: k in w.born && w.starting[k] == w.born[k])
    && (forall k | k in w.leaving :: k in w.born && w.leaving[k] == w.born[k])
    && (forall s | s in w.t.devices :: s == w.t.devices[s].serial && w.t.devices[s].sessionId in w.born
                                       && w.t.devices[s] == w.born[w.t.devices[s].sessionId])
  }

  /** A session is waiting, or starting, or it has been started: never two of these. */
  ghost predicate OnePlace(w: World) {
    && w.started <= w.born.Keys
    && (forall k | k in w.t.sessions :: k !in w.started)
    && (forall k | k in w.starting :: k in w.started)
    && (forall k | k in w.leaving :: k in w.started && k !in w.starting && k in w.excused)
    && (forall s | s in w.t.devices :: w.t.devices[s].sessionId in w.started && w.t.devices[s].sessionId !in w.starting)
    && (forall s | s in w.t.devices :: w.t.devices[s].sessionId !in w.leaving)
  }

  /** A connection that has ended waits for its cleanup as long as it is in a table; only one that slipped
      into the device table may not. */
  ghost predicate EndedAwaitCleanup(w: World) {
    && w.t.dead <= w.born.Keys
    && (forall k | k in w.t.sessions && k in w.t.dead :: k in Queued(w.t))
    && (forall s | s in w.t.devices && w.t.devices[s].sessionId in w.t.dead ::
          w.t.devices[s].sessionId in w.slipped || Pending(w, w.t.devices[s].sessionId, s))
  }

  /** A device table entry is the session started last for that serial number, and that session is
      there unless it ended, was reported or was disconnected. */
  ghost predicate LatestThere(w: World) {
    && (forall s | s in w.latest :: && w.latest[s] in w.born && w.born[w.latest[s]].serial == s
                                    && w.latest[s] in w.started && w.latest[s] !in w.starting)
    && (forall s | s in w.t.devices :: s in w.latest && w.latest[s] == w.t.devices[s].sessionId)
    && (forall s | s in w.latest :: s in w.t.devices || w.latest[s] in w.excused)
  }

  /** Whatever waits to be cleaned up has a reason to be. */
  ghost predicate CleanupsExcused(w: World) {
    && (forall e | e in w.t.queue :: MayBeCleaned(w, e.0))
    && (forall e | e in w.cleaning :: MayBeCleaned(w, e.0))
  }

  ghost predicate Invariant(w: World) {
    Genuine(w) && OnePlace(w) && LatestThere(w) && CleanupsExcused(w) && EndedAwaitCleanup(w)
  }

  lemma StepKeeps(w: World, step: Step)
    requires Invariant(w)
    ensures Invariant(Next(w, step))
  {
    StepKeepsGenuine(w, step);
    StepKeepsPlaces(w, step);
    StepKeepsLatest(w, step);
    StepKeepsReasons(w, step);
    StepKeepsWaiting(w, step);
    var v := Next(w, step);
    forall e | e in v.t.queue
      ensures MayBeCleaned(v, e.0)
    {
      QueueGrows(w, step, e);
    }
  }

  lemma StepKeepsGenuine(w: World, step: Step)
    requires Genuine(w) && OnePlace(w)
    ensures Genuine(Next(w, step))
  {
    hide Ended, WithoutSession, WithDevice, WithoutDevice;
  }

  lemma StepKeepsPlaces(w: World, step: Step)
    requires Genuine(w) && OnePlace(w)
    ensures OnePlace(Next(w, step))
  {
    hide Ended, WithoutSession, WithDevice, WithoutDevice;
  }

  lemma StepKeepsLatest(w: World, step: Step)
    requires Invariant(w)
    ensures LatestThere(Next(w, step))
  {
    hide Invariant, Ended, WithoutSession, WithDevice, WithoutDevice;
    assert Genuine(w) && OnePlace(w) && LatestThere(w) && CleanupsExcused(w) by { Unfold(w); }
    if step.CleanDrop? && step.entry in w.cleaning {
      assert MayBeCleaned(w, step.entry.0);
    }
  }

  lemma Unfold(w: World)
    requires Invariant(w)
    ensures Genuine(w) && OnePlace(w) && LatestThere(w) && CleanupsExcused(w)
  {
  }

  lemma StepKeepsWaiting(w: World, step: Step)
    requires Invariant(w)
    ensures EndedAwaitCleanup(Next(w, step))
  {
    if step.CleanTake? || step.CleanDrop? {
      CleaningKeepsWaiting(w, step);
    } else if step.KickTake? || step.KickDrop? || step.StartTake? || step.StartPut? {
      MovingKeepsWaiting(w, step);
    } else {
      hide LatestThere, CleanupsExcused, MayBeCleaned;
    }
  }

  lemma CleaningKeepsWaiting(w: World, step: Step)
    requires Invariant(w) && (step.CleanTake? || step.CleanDrop?)
    ensures EndedAwaitCleanup(Next(w, step))
  {
    hide LatestThere, CleanupsExcused, MayBeCleaned;
  }

  lemma MovingKeepsWaiting(w: World, step: Step)
    requires Invariant(w) && (step.KickTake? || step.KickDrop? || step.StartTake? || step.StartPut?)
    ensures EndedAwaitCleanup(Next(w, step))
  {
    hide LatestThere, CleanupsExcused, MayBeCleaned;
  }

  /** A reason to be cleaned up does not go away. */
  lemma StepKeepsReasons(w: World, step: Step)
    requires Invariant(w)
    ensures forall k | MayBeCleaned(w, k) :: MayBeCleaned(Next(w, step), k)
  {
  }

  /** An entry that a step adds to the queue has a reason. */
  lemma QueueGrows(w: World, step: Step, e: (u64, u64))
    requires Invariant(w) && e in Next(w, step).t.queue
    ensures e in w.t.queue || MayBeCleaned(Next(w, step), e.0)
  {
  }

  lemma {:induction false} RunKeeps(steps: seq<Step>)
    ensures Invariant(Run(steps))
  {
    if steps != [] {
      RunKeeps(steps[..|steps| - 1]);
      StepKeeps(Run(steps[..|steps| - 1]), steps[|steps| - 1]);
    }
  }

  /** In every reachable state: the latest session started for a serial number is the one in the
      device table, unless it itself ended, was reported stale or was disconnected; nothing else is
      ever there; and no session is in both tables. */
  lemma LatestSessionWins(steps: seq<Step>)
    ensures var w := Run(steps);
      && (forall s | s in w.latest && w.latest[s] !in w.excused ::
          s in w.t.devices && w.t.devices[s].sessionId == w.latest[s])
      && (forall s | s in w.t.devices :: s in w.latest && w.t.devices[s].sessionId == w.latest[s])
      && Filed(w.t)
  {
    RunKeeps(steps);
  }

  /** In every reachable state: a connection that has ended is queued for cleanup while it waits for its
      connect message, and its cleanup is queued or half done while it is in the device table, unless it
      slipped in; and where no cleanup is half done, a full drain removes it. */
  lemma EndedAreCleaned(steps: seq<Step>)
    ensures var w := Run(steps);
      && (forall k | k in w.t.sessions && k in w.t.dead :: exists e | e in w.t.queue :: e.0 == k)
      && (forall s | s in w.t.devices && w.t.devices[s].sessionId in w.t.dead - w.slipped ::
            Pending(w, w.t.devices[s].sessionId, s))
      && (forall k | k in w.t.dead :: k !in SessionsLeft(w.t))
      && (w.cleaning == {} ==>
          forall s | s in DevicesLeft(w.t) :: DevicesLeft(w.t)[s].sessionId !in w.t.dead - w.slipped)
  {
    RunKeeps(steps);
    hide Run;
  }

  /** What makes a connection wait for its cleanup: to end, once, and to be reported. */
  lemma EndsAreQueued(steps: seq<Step>, sessionId: u64)
    requires sessionId in Run(steps).born
    ensures var w := Run(steps);
      var entry := (sessionId, w.born[sessionId].serial);
      && Next(w, End(sessionId)).t.dead == w.t.dead + {sessionId}
      && Next(w, End(sessionId)).t.queue == w.t.queue + (if sessionId in w.t.dead then [] else [entry])
      && Next(w, Report(sessionId)).t.queue == w.t.queue + [entry]
  {
    RunKeeps(steps);
    hide Run;
  }

  /** A connection that is put in place is in the device table without a cleanup to come, although it has
      ended, if and only if it has ended before, and its cleanup has come and gone. */
  lemma StartMaySlip(steps: seq<Step>, sessionId: u64)
    requires sessionId in Run(steps).starting
    ensures var w := Run(steps);
      var serial := w.starting[sessionId].serial;
      var v := Next(w, StartPut(sessionId));
      && serial in v.t.devices && v.t.devices[serial].sessionId == sessionId
      && (sessionId in v.t.dead && !Pending(v, sessionId, serial)
          <==> && sessionId in w.t.dead && (sessionId, serial) !in w.t.queue && (sessionId, serial) !in w.cleaning)
  {
    RunKeeps(steps);
    hide Run;
  }

  /** A world with one connection, which is starting. */
  function Starting(queue: seq<(u64, u64)>, dead: set<u64>, cleaning: set<(u64, u64)>, excused: set<u64>): World {
    var c := Connection(1, 7);
    World(Tables(map[], map[], queue, dead), map[1 := c], cleaning, map[], map[1 := c], {1}, map[], excused, {})
  }

  /** It ends and is cleaned up between the two halves of its start: then it stays, dead, and nothing is
      queued for it. */
  lemma OneSlipsIn()
    ensures var w :=
      Run([Connect(1), Introduce(1, 7), StartTake(1), End(1), CleanTake, CleanDrop((1, 7)), StartPut(1)]);
      && 7 in w.t.devices && w.t.devices[7] == Connection(1, 7) && 1 in w.t.dead
      && w.t.queue == [] && w.cleaning == {}
  {
    var begin, end := [Connect(1), Introduce(1, 7), StartTake(1)], [End(1), CleanTake, CleanDrop((1, 7)), StartPut(1)];
    ThreeSteps(begin[0], begin[1], begin[2]);
    OneStarts();
    FourMore(begin, end[0], end[1], end[2], end[3]);
    assert begin + end
      == [Connect(1), Introduce(1, 7), StartTake(1), End(1), CleanTake, CleanDrop((1, 7)), StartPut(1)];
    hide Run, Next, Starting;
    OneIsCleaned();
  }

  lemma OneStarts()
    ensures Next(Next(Next(START, Connect(1)), Introduce(1, 7)), StartTake(1)) == Starting([], {}, {}, {})
  {
  }

  lemma OneIsCleaned()
    ensures var w :=
      Next(Next(Next(Next(Starting([], {}, {}, {}), End(1)), CleanTake), CleanDrop((1, 7))), StartPut(1));
      && 7 in w.t.devices && w.t.devices[7] == Connection(1, 7) && 1 in w.t.dead
      && w.t.queue == [] && w.cleaning == {}
  {
    assert Next(Starting([], {}, {}, {}), End(1)) == Starting([(1, 7)], {1}, {}, {1});
    assert Next(Starting([(1, 7)], {1}, {}, {1}), CleanTake) == Starting([], {1}, {(1, 7)}, {1});
    assert Next(Starting([], {1}, {(1, 7)}, {1}), CleanDrop((1, 7))) == Starting([], {1}, {}, {1});
  }

  lemma ThreeSteps(a: Step, b: Step, c: Step)
    ensures Run([a, b, c]) == Next(Next(Next(START, a), b), c)
  {
    assert [a, b, c][..2] == [a, b] && [a, b][..1] == [a] && [a][..0] == [];
    hide Next;
    assert Run([a]) == Next(START, a);
    assert Run([a, b]) == Next(Run([a]), b);
  }

  lemma FourMore(steps: seq<Step>, a: Step, b: Step, c: Step, d: Step)
    ensures Run(steps + [a, b, c, d]) == Next(Next(Next(Next(Run(steps), a), b), c), d)
  {
    hide Run, Next;
    OneMore(steps, a);
    OneMore(steps + [a], b);
    OneMore(steps + [a] + [b], c);
    OneMore(steps + [a] + [b] + [c], d);
    assert steps + [a] + [b] + [c] + [d] == steps + [a, b, c, d];
  }

  lemma OneMore(steps: seq<Step>, a: Step)
    ensures Run(steps + [a]) == Next(Run(steps), a)
  {
    assert (steps + [a])[..|steps|] == steps;
  }

  /** However late the cleanup of an earlier session comes, it leaves the newer one alone. */
  lemma LateCleanupIsHarmless(steps: seq<Step>, sessionId: u64, serial: u64)
    requires serial in Run(steps).latest && Run(steps).latest[serial] != sessionId
    ensures WithoutDevice(Run(steps).t, sessionId, serial).devices == Run(steps).t.devices
  {
    RunKeeps(steps);
  }

  /** With nothing in between, the two steps of an operation are the operation. */
  lemma StepsCompose(w: World, sessionId: u64, serial: u64)
    requires Genuine(w)
    ensures sessionId in w.t.sessions && w.t.sessions[sessionId].serial == serial ==>
      Next(Next(w, StartTake(sessionId)), StartPut(sessionId)).t == AfterStartSession(w.t, sessionId, serial)
    ensures w.t.queue != [] ==>
      Next(Next(w, CleanTake), CleanDrop(w.t.queue[0])).t == AfterTurn(w.t)
    ensures serial in w.t.devices ==>
      Next(Next(w, KickTake(serial)), KickDrop(w.t.devices[serial].sessionId)).t == AfterDisconnect(w.t, serial)
  {
  }
}
