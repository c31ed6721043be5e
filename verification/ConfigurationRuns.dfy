/** A device that installs what it is sent, and a gateway that looks for an upgrade at each of its
    reports, with two queues of messages between them that a new connection empties. */
module ConfigurationRuns {
  import opened Common
  import opened ConfigurationSync

  /** A device reports the version it runs, or answers that it installed what it was sent. */
  datatype Message = Report(version: u64) | Installed

  datatype World = World(s: State, running: u64, toDevice: seq<Configure>, toGateway: seq<Message>)

  datatype Step =
    | Say        // the device reports
    | Install    // the device installs what comes next, and answers
    | Receive    // the gateway handles what comes next
    | Ignore     // the gateway drops an answer to a request it no longer has
    | Reconnect  // what is under way is lost; the device reports on the new connection

  /** The configurations that a look for an upgrade sent. */
  function SentBy(s: State, t: State): seq<Configure>
    requires |s.sent| <= |t.sent|
  {
    t.sent[|s.sent|..]
  }

  function Next(w: World, step: Step, sizeOf: Configuration -> nat): World {
    match step
    case Say => w.(toGateway := w.toGateway + [Report(w.running)])
    case Install =>
      if w.toDevice == [] then w
      else w.(running := w.toDevice[0].uuid, toDevice := w.toDevice[1..], toGateway := w.toGateway + [Installed])
    case Receive =>
      if w.toGateway == [] then w
      else
        var rest := w.(toGateway := w.toGateway[1..]);
        (match w.toGateway[0]
         case Installed => rest.(s := AfterComplete(w.s))
         case Report(version) =>
           var t := AfterReport(w.s, version, sizeOf).0;
           rest.(s := t, toDevice := w.toDevice + SentBy(w.s, t)))
    case Ignore =>
      if w.toGateway != [] && w.toGateway[0] == Installed then w.(toGateway := w.toGateway[1..]) else w
    case Reconnect => w.(s := w.s.(pending := 0), toDevice := [], toGateway := [Report(w.running)])
  }

  function Run(w: World, steps: seq<Step>, sizeOf: Configuration -> nat): World {
    if steps == [] then w else Next(Run(w, steps[..|steps| - 1], sizeOf), steps[|steps| - 1], sizeOf)
  }

  /** A known device with a proper configuration that is not exempt, whatever its version, nothing
      pending, and a cache that is empty or up to date. */
  ghost predicate Start(w: World, sizeOf: Configuration -> nat) {
    && w.s.device.Some? && w.running != 0 && w.toDevice == [] && w.toGateway == []
    && w.s.pending == 0 && w.s.sent == []
    && var d := w.s.device.value;
    && d.configuration.Document? && d.pendingUuid == 0 && d.pendingConfiguration == None
    && (w.s.cached == 0 || w.s.cached == d.uuid)
    && (d.isSwitch ==>
        sizeOf(d.configuration) >= SHORTEST && forall v: u64 :: sizeOf(Stamped(d.configuration, v)) >= SHORTEST)
  }

  /** The version that both will run. */
  function Target(w: World): u64
    requires w.s.device.Some?
  {
    if w.running == Effective(w.s.device.value) then w.running else Newer(w.s.device.value, w.running)
  }

  /** The record before anything was sent: as at the start, up to a version that it did not have. */
  ghost predicate Untouched(w0: World, w: World)
    requires w0.s.device.Some?
  {
    var d0 := w0.s.device.value;
    && w.s.sent == [] && w.s.device == Some(d0) && w.s.cached == w0.s.cached && w.s.pending == 0
  }

  /** The record once an upgrade was sent, or once the versions were found to agree. */
  ghost predicate Touched(w0: World, w: World)
    requires w0.s.device.Some?
  {
    var d0 := w0.s.device.value;
    var n := Target(w0);
    && w.s.device.Some?
    && var d := w.s.device.value;
    && d.isSwitch == d0.isSwitch && d.uuid == n && d.pendingUuid in {0, n} && d.pendingConfiguration == None
    && d.configuration == (if w0.running == n then d0.configuration else Stamped(d0.configuration, n))
    && w.s.cached in {w0.s.cached, n} && w.s.pending in {0, n}
    && (w0.running == n ==> w.s.cached == n && w.s.pending == 0)
  }

  /** The configuration that a device gets, if it gets one. */
  function Upgrade(w0: World): Configure
    requires w0.s.device.Some?
  {
    Configure(Target(w0), Stamped(w0.s.device.value.configuration, Target(w0)))
  }

  /** Everything sent is the upgrade, and a device that runs the target is sent nothing. */
  ghost predicate OnlyUpgrade(w0: World, w: World, upgrade: Configure) {
    && (w.s.sent == [] ==> w.running == w0.running && Installed !in w.toGateway)
    && w.running in {w0.running, upgrade.uuid}
    && (forall c | c in w.s.sent :: c == upgrade)
    && (w0.running == upgrade.uuid ==> w.s.sent == [])
    && (forall c | c in w.toDevice :: c == upgrade)
    && (w.toDevice != [] ==> w.s.sent != [])
    && (forall m | m in w.toGateway && m.Report? :: m.version in {w0.running, upgrade.uuid})
  }

  ghost predicate Invariant(w0: World, w: World)
    requires w0.s.device.Some?
  {
    && (Untouched(w0, w) || Touched(w0, w))
    && OnlyUpgrade(w0, w, Upgrade(w0)) && InOrder(w, Target(w0))
  }

  /** After a report of the target there are only such reports. */
  ghost predicate InOrder(w: World, n: u64) {
    && (forall i, j | 0 <= i < j < |w.toGateway| && w.toGateway[i] == Report(n) && w.toGateway[j].Report? ::
        w.toGateway[j].version == n)
    && (Report(n) in w.toGateway ==> w.running == n)
  }

  /** Everyone agrees on the version, nothing is waited for, and nothing else is on its way. */
  ghost predicate Settled(w: World, n: u64) {
    && w.running == n && w.s.cached == n && w.s.pending == 0
    && w.s.device.Some? && w.s.device.value.uuid == n && w.s.device.value.pendingConfiguration == None
    && w.s.device.value.pendingUuid in {0, n}
    && (forall c | c in w.toDevice :: c.uuid == n)
    && forall m | m in w.toGateway && m.Report? :: m.version == n
  }

  /** There is room for a newer version than the one the device runs, if it needs one. */
  predicate Fits(w: World)
    requires w.s.device.Some?
  {
    w.running > Effective(w.s.device.value) ==> w.running as int + 2 < TWO_64
  }

  /** The target is newer than what the device runs, unless it runs it, exactly when it fits. */
  lemma TargetIsNewer(w: World, sizeOf: Configuration -> nat)
    requires Start(w, sizeOf)
    ensures Fits(w) <==> Target(w) >= w.running
    ensures Target(w) == w.running <==> w.running == Effective(w.s.device.value)
  {
  }

  /** The first look for an upgrade. */
  lemma FirstReport(w0: World, w: World, sizeOf: Configuration -> nat)
    requires Start(w0, sizeOf) && Untouched(w0, w) && Fits(w0)
    ensures var n := Target(w0);
      var t := AfterReport(w.s, w0.running, sizeOf).0;
      && t.sent == (if w0.running == n then [] else [Upgrade(w0)])
      && Touched(w0, w.(s := t))
      && (w0.running == n ==> t.device.value.pendingUuid == 0)
  {
  }

  /** Any further look for an upgrade: the version to begin with is answered by the target at most. */
  lemma LaterReport(w0: World, w: World, version: u64, sizeOf: Configuration -> nat)
    requires Start(w0, sizeOf) && Fits(w0) && Touched(w0, w) && version in {w0.running, Target(w0)}
    ensures var n := Target(w0);
      var t := AfterReport(w.s, version, sizeOf).0;
      && Touched(w0, w.(s := t))
      && (t.sent == w.s.sent ||
          (t.sent == w.s.sent + [Upgrade(w0)] && version != n))
      && (version == n ==> t.cached == n && t.pending == 0)
      && (w.s.cached == n && w.s.pending == 0 && version == n ==> t == w.s)
  {
    TargetIsNewer(w0, sizeOf);
  }

  lemma Completed(w0: World, w: World)
    requires w0.s.device.Some? && Touched(w0, w) && Target(w0) != 0
    ensures var t := AfterComplete(w.s);
      && Touched(w0, w.(s := t)) && t.sent == w.s.sent && t.pending == w.s.pending
      && t.cached == Target(w0) && t.device.value.pendingUuid == 0
  {
  }

  lemma TakingKeepsOrder(w: World, v: World, n: u64)
    requires InOrder(w, n) && w.toGateway != [] && v.toGateway == w.toGateway[1..] && v.running == w.running
    ensures InOrder(v, n)
  {
    assert forall i | 0 <= i < |v.toGateway| :: v.toGateway[i] == w.toGateway[i + 1];
  }

  lemma TakingKeepsUpgrade(w0: World, w: World, v: World, upgrade: Configure)
    requires OnlyUpgrade(w0, w, upgrade) && w.toGateway != [] && v.toGateway == w.toGateway[1..]
      && v.running == w.running
    requires (v.s.sent == w.s.sent && v.toDevice == w.toDevice) ||
             (v.s.sent == w.s.sent + [upgrade] && v.toDevice == w.toDevice + [upgrade] && w0.running != upgrade.uuid)
    ensures OnlyUpgrade(w0, v, upgrade)
  {
    assert forall m | m in v.toGateway :: m in w.toGateway;
  }

  lemma ReceiveKeeps(w0: World, w: World, sizeOf: Configuration -> nat)
    requires Start(w0, sizeOf) && Fits(w0) && Invariant(w0, w) && w.toGateway != []
    ensures Invariant(w0, Next(w, Receive, sizeOf))
  {
    TargetIsNewer(w0, sizeOf);
    var n := Target(w0);
    var m := w.toGateway[0];
    assert m in w.toGateway;
    var v := Next(w, Receive, sizeOf);
    TakingKeepsOrder(w, v, n);
    hide InOrder;
    if m == Installed {
      assert !Untouched(w0, w) && n != 0;
      Completed(w0, w);
    } else if Touched(w0, w) {
      LaterReport(w0, w, m.version, sizeOf);
    } else {
      FirstReport(w0, w, sizeOf);
    }
    hide Touched, Untouched, Start, AfterReport, AfterComplete, Target, Stamped, Fits, OnlyUpgrade;
    TakingKeepsUpgrade(w0, w, v, Upgrade(w0));
  }

  lemma StepKeeps(w0: World, w: World, step: Step, sizeOf: Configuration -> nat)
    requires Start(w0, sizeOf) && Fits(w0) && Invariant(w0, w)
    ensures Invariant(w0, Next(w, step, sizeOf))
  {
    if step == Receive {
      if w.toGateway != [] {
        ReceiveKeeps(w0, w, sizeOf);
      }
    } else {
      hide Start, AfterReport, AfterComplete, Target, Stamped;
      var v := Next(w, step, sizeOf);
      assert w.toDevice != [] ==> w.toDevice[0] in w.toDevice;
      assert forall m | m in v.toGateway :: m in w.toGateway || m == Installed || m == Report(w.running);
      assert forall c | c in v.toDevice :: c in w.toDevice;
    }
  }

  lemma {:induction false} RunKeeps(w0: World, steps: seq<Step>, sizeOf: Configuration -> nat)
    requires Start(w0, sizeOf) && Fits(w0)
    ensures Invariant(w0, Run(w0, steps, sizeOf))
  {
    if steps != [] {
      RunKeeps(w0, steps[..|steps| - 1], sizeOf);
      StepKeeps(w0, Run(w0, steps[..|steps| - 1], sizeOf), steps[|steps| - 1], sizeOf);
    }
  }

  /** However messages are delayed or lost and connections come and go: whatever is sent to the device
      is the stored configuration, stamped with one and the same version, newer than the version the
      device began with; and nothing is sent to a device that runs what is stored. */
  lemma OneVersionIsSent(w0: World, steps: seq<Step>, sizeOf: Configuration -> nat)
    requires Start(w0, sizeOf) && Fits(w0)
    ensures var w := Run(w0, steps, sizeOf);
      var d := w0.s.device.value;
      && (forall c | c in w.s.sent ::
          c.uuid > w0.running && c == Configure(Newer(d, w0.running), Stamped(d.configuration, Newer(d, w0.running))))
      && (w0.running == Effective(d) ==> w.s.sent == [])
  {
    RunKeeps(w0, steps, sizeOf);
    TargetIsNewer(w0, sizeOf);
  }

  /** Once the gateway has heard of the target from the device, everyone agrees on it. */
  lemma HearingSettles(w0: World, steps: seq<Step>, sizeOf: Configuration -> nat)
    requires Start(w0, sizeOf) && Fits(w0)
    requires var w := Run(w0, steps, sizeOf); w.toGateway != [] && w.toGateway[0] == Report(Target(w0))
    ensures Settled(Run(w0, steps + [Receive], sizeOf), Target(w0))
    ensures Run(w0, steps + [Receive], sizeOf).s.sent == Run(w0, steps, sizeOf).s.sent
  {
    RunKeeps(w0, steps, sizeOf);
    TargetIsNewer(w0, sizeOf);
    var w := Run(w0, steps, sizeOf);
    assert (steps + [Receive])[..|steps|] == steps;
    var n := Target(w0);
    assert w.toGateway[0] in w.toGateway;
    if Touched(w0, w) {
      LaterReport(w0, w, n, sizeOf);
    } else {
      FirstReport(w0, w, sizeOf);
    }
    hide Run, AfterReport;
  }

  /** And nothing is sent or changes version after that, whatever happens. */
  lemma SettledStays(w0: World, w: World, step: Step, sizeOf: Configuration -> nat)
    requires Start(w0, sizeOf) && Fits(w0) && Invariant(w0, w) && Settled(w, Target(w0))
    ensures Settled(Next(w, step, sizeOf), Target(w0))
    ensures Next(w, step, sizeOf).s.sent == w.s.sent
  {
    TargetIsNewer(w0, sizeOf);
    var n := Target(w0);
    if step == Receive && w.toGateway != [] {
      assert w.toGateway[0] in w.toGateway;
      if w.toGateway[0].Report? {
        assert AfterReport(w.s, n, sizeOf).0 == w.s;
      }
    } else if step == Install && w.toDevice != [] {
      assert w.toDevice[0] in w.toDevice;
    }
    hide AfterReport, Target;
  }

  lemma {:induction false} SettledForGood(w0: World, steps: seq<Step>, more: seq<Step>, sizeOf: Configuration -> nat)
    requires Start(w0, sizeOf) && Fits(w0)
    requires Settled(Run(w0, steps, sizeOf), Target(w0))
    ensures Settled(Run(w0, steps + more, sizeOf), Target(w0))
    ensures Run(w0, steps + more, sizeOf).s.sent == Run(w0, steps, sizeOf).s.sent
    decreases |more|
  {
    if more == [] {
      assert steps + more == steps;
    } else {
      var all := steps + more[..|more| - 1];
      SettledForGood(w0, steps, more[..|more| - 1], sizeOf);
      RunKeeps(w0, all, sizeOf);
      assert (steps + more)[..|steps + more| - 1] == all;
      SettledStays(w0, Run(w0, all, sizeOf), more[|more| - 1], sizeOf);
      hide Settled, Target, Start, Invariant;
    }
  }

  /** A device that installs what it is sent before it reports again. Each round begins with a report,
      on the same connection or a new one, and its answer is handled or dropped. */
  datatype Round = Round(reconnect: bool, answered: bool)

  function StepsOf(r: Round): seq<Step> {
    [if r.reconnect then Reconnect else Say, Receive, Install, if r.answered then Receive else Ignore]
  }

  function Script(rounds: seq<Round>): seq<Step> {
    if rounds == [] then [] else Script(rounds[..|rounds| - 1]) + StepsOf(rounds[|rounds| - 1])
  }

  function AfterRound(w: World, r: Round, sizeOf: Configuration -> nat): World {
    Next(Next(Next(Next(w, if r.reconnect then Reconnect else Say, sizeOf), Receive, sizeOf), Install, sizeOf),
         if r.answered then Receive else Ignore, sizeOf)
  }

  lemma RunRound(w: World, steps: seq<Step>, r: Round, sizeOf: Configuration -> nat)
    ensures Run(w, steps + StepsOf(r), sizeOf) == AfterRound(Run(w, steps, sizeOf), r, sizeOf)
  {
    var s := StepsOf(r);
    assert steps + s == steps + [s[0]] + [s[1]] + [s[2]] + [s[3]];
    RunOne(w, steps, s[0], sizeOf);
    RunOne(w, steps + [s[0]], s[1], sizeOf);
    RunOne(w, steps + [s[0]] + [s[1]], s[2], sizeOf);
    RunOne(w, steps + [s[0]] + [s[1]] + [s[2]], s[3], sizeOf);
  }

  lemma RunOne(w: World, steps: seq<Step>, step: Step, sizeOf: Configuration -> nat)
    ensures Run(w, steps + [step], sizeOf) == Next(Run(w, steps, sizeOf), step, sizeOf)
  {
    assert (steps + [step])[..|steps|] == steps;
  }

  predicate Quiet(w: World) {
    w.toDevice == [] && w.toGateway == []
  }

  /** What a round comes to when nothing is on the way: a look for an upgrade, and if it sends
      something, that is installed and the answer handled or dropped. */
  lemma QuietRound(w: World, r: Round, sizeOf: Configuration -> nat)
    requires Quiet(w)
    requires var t := AfterReport(if r.reconnect then w.s.(pending := 0) else w.s, w.running, sizeOf).0;
      t.sent == w.s.sent || (|t.sent| == |w.s.sent| + 1 && t.sent[..|w.s.sent|] == w.s.sent)
    ensures var t := AfterReport(if r.reconnect then w.s.(pending := 0) else w.s, w.running, sizeOf).0;
      AfterRound(w, r, sizeOf) ==
      if t.sent == w.s.sent then w.(s := t)
      else w.(s := if r.answered then AfterComplete(t) else t, running := t.sent[|w.s.sent|].uuid)
  {
    hide AfterReport, AfterComplete;
    var a := Next(w, if r.reconnect then Reconnect else Say, sizeOf);
    assert a.toGateway == [Report(w.running)];
    var t := AfterReport(a.s, w.running, sizeOf).0;
    var b := Next(a, Receive, sizeOf);
    assert b.toGateway == [] && b.s == t;
    if t.sent == w.s.sent {
      assert b.toDevice == [];
    } else {
      assert b.toDevice == [t.sent[|w.s.sent|]];
      var c := Next(b, Install, sizeOf);
      assert c.toDevice == [] && c.toGateway == [Installed];
    }
  }

  lemma FirstRound(w0: World, r: Round, sizeOf: Configuration -> nat)
    requires Start(w0, sizeOf) && Fits(w0)
    ensures var w := AfterRound(w0, r, sizeOf);
      var n := Target(w0);
      && Quiet(w) && Touched(w0, w) && w.running == n
      && |w.s.sent| == (if w0.running == n then 0 else 1)
      && (w.s.cached == n && w.s.device.value.pendingUuid != 0 <==> w0.s.cached == n && w0.running != n && !r.answered)
  {
    TargetIsNewer(w0, sizeOf);
    var n := Target(w0);
    var t := AfterReport(w0.s, w0.running, sizeOf).0;
    assert w0.s.(pending := 0) == w0.s;
    FirstReport(w0, w0, sizeOf);
    QuietRound(w0, r, sizeOf);
    if w0.running != n {
      Completed(w0, w0.(s := t));
      FirstWaits(w0, sizeOf);
    }
    hide AfterRound, AfterComplete, AfterReport, Start, Target, Fits;
  }

  /** The first look for an upgrade leaves the cache alone and notes the pending version. */
  lemma FirstWaits(w0: World, sizeOf: Configuration -> nat)
    requires Start(w0, sizeOf) && Fits(w0) && w0.running != Target(w0)
    ensures var t := AfterReport(w0.s, w0.running, sizeOf).0;
      t.cached == w0.s.cached && t.device.Some? && t.device.value.pendingUuid == Target(w0) != 0
  {
  }

  lemma LaterRound(w0: World, w: World, r: Round, sizeOf: Configuration -> nat)
    requires Start(w0, sizeOf) && Fits(w0) && Quiet(w) && Touched(w0, w) && w.running == Target(w0)
    ensures var v := AfterRound(w, r, sizeOf);
      var n := Target(w0);
      && Quiet(v) && Touched(w0, v) && Settled(v, n) && v.s.sent == w.s.sent
      && (v.s.device.value.pendingUuid != 0 <==> w.s.cached == n && w.s.device.value.pendingUuid != 0)
  {
    TargetIsNewer(w0, sizeOf);
    var n := Target(w0);
    var a := w.(s := if r.reconnect then w.s.(pending := 0) else w.s);
    LaterReport(w0, a, n, sizeOf);
    TargetClears(w0, a, sizeOf);
    QuietRound(w, r, sizeOf);
    hide AfterRound, AfterComplete, AfterReport, Start, Target, Fits;
  }

  /** Hearing of the target clears the pending version, unless the cache held the target already. */
  lemma TargetClears(w0: World, w: World, sizeOf: Configuration -> nat)
    requires Start(w0, sizeOf) && Fits(w0) && Touched(w0, w)
    ensures var n := Target(w0);
      var t := AfterReport(w.s, n, sizeOf).0;
      t.device.Some? && t.device.value.pendingUuid == if w.s.cached == n then w.s.device.value.pendingUuid else 0
  {
    TargetIsNewer(w0, sizeOf);
  }

  /** From its second report on, such a device, the store and the cache agree, the connection waits
      for nothing, and one configuration was sent, or none if they agreed to begin with. The record
      keeps a pending version exactly when the cache held the target already, the device did not run
      it, and the answer to the one configuration was dropped. */
  lemma {:induction false} PromptDeviceConverges(w0: World, rounds: seq<Round>, sizeOf: Configuration -> nat)
    requires Start(w0, sizeOf) && Fits(w0) && |rounds| >= 2
    ensures var w := Run(w0, Script(rounds), sizeOf);
      var n := Target(w0);
      && Quiet(w) && Touched(w0, w) && Settled(w, n)
      && |w.s.sent| == (if w0.running == Effective(w0.s.device.value) then 0 else 1)
      && (w.s.device.value.pendingUuid != 0 <==>
            w0.s.cached == n && w0.running != n && !rounds[0].answered)
    decreases |rounds|
  {
    TargetIsNewer(w0, sizeOf);
    var some := rounds[..|rounds| - 1];
    var last := rounds[|rounds| - 1];
    RunRound(w0, Script(some), last, sizeOf);
    if |some| == 1 {
      assert Script(some) == [] + StepsOf(some[0]);
      RunRound(w0, [], some[0], sizeOf);
      FirstRound(w0, some[0], sizeOf);
    } else {
      PromptDeviceConverges(w0, some, sizeOf);
    }
    hide Start, Fits, Target, Touched, AfterRound, Run;
    LaterRound(w0, Run(w0, Script(some), sizeOf), last, sizeOf);
  }

  /** Where the versions differ, the configuration sent first is newer than the one the device runs
      if and only if two more than its version fits in 64 bits or the stored one is ahead. */
  lemma FirstConfigureIsNewer(w0: World, sizeOf: Configuration -> nat)
    requires Start(w0, sizeOf) && w0.running != Effective(w0.s.device.value)
    ensures var w := Run(w0, [Say, Receive], sizeOf);
      && |w.s.sent| == 1 && w.toDevice == w.s.sent
      && (w.s.sent[0].uuid > w0.running <==> Fits(w0))
  {
    RunOne(w0, [Say], Receive, sizeOf);
    RunOne(w0, [], Say, sizeOf);
    assert [] + [Say] == [Say] && [Say] + [Receive] == [Say, Receive];
    assert Run(w0, [], sizeOf) == w0;
    assert w0.toGateway + [Report(w0.running)] == [Report(w0.running)];
    TargetIsNewer(w0, sizeOf);
  }

  /** A device that runs one version where the store and the cache have another. */
  function Differing(running: u64, stored: u64): World {
    var d := Device(false, Document(Some(stored), ""), stored, None, "", 0);
    World(State(Some(d), stored, 0, []), running, [], [])
  }

  /** A device at version 3 where version 5 is stored and cached, and the answer to the configuration
      dropped: after its second report all agree on version 5, and the record has it pending still. */
  lemma PendingVersionIsKept(sizeOf: Configuration -> nat)
    ensures var w := Run(Differing(3, 5), Script([Round(false, false), Round(false, true)]), sizeOf);
      Settled(w, 5) && w.s.device.value.pendingUuid != 0
  {
    var w0, rounds := Differing(3, 5), [Round(false, false), Round(false, true)];
    assert Start(w0, sizeOf) && Fits(w0) && Target(w0) == 5;
    hide Run, Script, Start, Settled;
    PromptDeviceConverges(w0, rounds, sizeOf);
  }

  /** A device at version 2^64 - 1 is sent version 1. */
  lemma OlderVersionIsSent(sizeOf: Configuration -> nat)
    ensures var w := Run(Differing(0xFFFF_FFFF_FFFF_FFFF, 5), [Say, Receive], sizeOf);
      |w.s.sent| == 1 && w.s.sent[0].uuid == 1
  {
    var w0 := Differing(0xFFFF_FFFF_FFFF_FFFF, 5);
    assert [] + [Say] == [Say] && [Say] + [Receive] == [Say, Receive];
    RunOne(w0, [Say], Receive, sizeOf);
    RunOne(w0, [], Say, sizeOf);
    assert Run(w0, [], sizeOf) == w0;
    assert w0.toGateway + [Report(w0.running)] == [Report(w0.running)];
  }

  /* ---------- configurations that wait ---------- */

  /** A configuration that waits and is confirmed becomes the stored one, under its version, which it names
      itself; nothing else of the record changes, nothing waits, and the cache agrees. */
  lemma AwaitedIsInstalled(s: State, c: Configuration, version: u64)
    requires s.device.Some? && c.Document? && version != 0
    ensures var d := s.device.value;
      var waiting := s.(device := Some(Awaiting(d, c, version)));
      var installed := Document(Some(version), c.rest);
      && waiting.device.value.pendingConfiguration == Some(installed) && waiting.device.value.pendingUuid == version
      && AfterComplete(waiting).device
         == Some(Device(d.isSwitch, installed, version, None, d.pendingCommand, 0))
      && AfterComplete(waiting).cached == version
  {
  }

  /** One that is given up leaves the record as it was, with nothing waiting, and the cache agrees. */
  lemma AwaitedIsDropped(s: State, c: Configuration, version: u64)
    requires s.device.Some?
    ensures var d := s.device.value;
      var waiting := s.(device := Some(Awaiting(d, c, version)));
      && AfterRollback(waiting).device
         == Some(Device(d.isSwitch, d.configuration, d.uuid, None, d.pendingCommand, 0))
      && AfterRollback(waiting).cached == d.uuid
  {
  }

  /** Either way nothing waits any more, and the cache holds the version of the record; and what is
      settled stays as it is, up to a version for a record that had none. */
  lemma AnswerSettles(s: State)
    requires s.device.Some?
    ensures forall t | t in [AfterComplete(s), AfterRollback(s)] ::
      && t.device.Some? && t.device.value.pendingConfiguration == None && t.device.value.pendingUuid == 0
      && t.cached == t.device.value.uuid && t.pending == s.pending && t.sent == s.sent
    ensures AfterComplete(AfterComplete(s)) == AfterComplete(s) && AfterRollback(AfterComplete(s)) == AfterComplete(s)
    ensures AfterRollback(AfterRollback(s)) == AfterRollback(s)
    ensures s.device.value.uuid != 0 ==> AfterComplete(AfterRollback(s)) == AfterRollback(s)
  {
  }

  /** A device reports another version while a configuration waits: it is sent an upgrade of the stored
      one, and once that is confirmed, the record holds what was sent if and only if what waited was the
      same. */
  lemma UpgradeIsKeptIfNothingWaits(s: State, version: u64, sizeOf: Configuration -> nat)
    requires |AfterReport(s, version, sizeOf).0.sent| == |s.sent| + 1
    ensures var t := AfterReport(s, version, sizeOf).0;
      var upgrade := t.sent[|s.sent|];
      var d, e := s.device.value, AfterComplete(t).device.value;
      && s.device.Some? && AfterComplete(t).device.Some?
      && e.uuid == (if upgrade.uuid != 0 then upgrade.uuid else VersionIn(e.configuration))
      && (e.configuration == upgrade.configuration
          <==> d.pendingConfiguration == None || d.pendingConfiguration == Some(upgrade.configuration))
  {
  }

  /** Version 5 is stored, 9 waits, and the device reports 3: it is sent 5, and then the record has version 5
      with the configuration that says 9. */
  lemma WaitingTakesThePlace(sizeOf: Configuration -> nat)
    ensures var d := Device(false, Document(Some(5), "old"), 5, None, "", 0);
      var s := State(Some(Awaiting(d, Document(Some(1), "new"), 9)), 0, 0, []);
      var t := AfterReport(s, 3, sizeOf).0;
      && t.sent == [Configure(5, Document(Some(5), "old"))]
      && AfterComplete(t).device.value.uuid == 5
      && AfterComplete(t).device.value.configuration == Document(Some(9), "new")
  {
  }

  /* ---------- one look for an upgrade ---------- */

  /** The cache says that nothing is to be done. */
  predicate InCache(s: State, version: u64) {
    s.cached != 0 && (s.cached == version || s.cached == s.pending)
  }

  /** What a look leaves alone: everything at version zero, for an unknown device, and for a switch without
      a real configuration that does not complete an upgrade; the store and the cache, where the cache says
      so. What it is called for otherwise: a completed upgrade, agreement, or a new configuration. */
  lemma LookForUpgradeDecides(s: State, version: u64, sizeOf: Configuration -> nat)
    ensures var (t, outcome, upgraded) := AfterReport(s, version, sizeOf);
      && (version == 0 ==> t == s && outcome == Same && upgraded == None)
      && (version != 0 && InCache(s, version) ==>
            t == State(s.device, s.cached, 0, s.sent) && outcome == Same && upgraded == Some(version))
      && (version != 0 && !InCache(s, version) && s.device == None ==> t == s && outcome == Same && upgraded == None)
      && (version != 0 && !InCache(s, version) && s.device.Some? && s.pending == version ==>
            && t.device.Some? && t.device.value.pendingUuid == 0 && t.device.value.pendingConfiguration == None
            && t.cached == t.device.value.uuid && t.pending == 0 && t.sent == s.sent
            && outcome == Changed && upgraded == Some(version))
    ensures version != 0 && !InCache(s, version) && s.device.Some? && s.pending != version ==>
      var (t, outcome, upgraded) := AfterReport(s, version, sizeOf);
      var d := s.device.value;
      var stored := if d.uuid != 0 then d.uuid else VersionIn(d.configuration);
      if d.isSwitch && sizeOf(d.configuration) < 20 then t == s && outcome == Same && upgraded == None
      else if stored == version then
        && t == State(Some(Device(d.isSwitch, d.configuration, version, None, "", 0)), version, 0, s.sent)
        && outcome == Same && upgraded == Some(version)
      else
        var newer := if version > stored then (version + 2) % 0x1_0000_0000_0000_0000 else stored;
        && t.device == Some(Device(d.isSwitch, t.device.value.configuration, newer, d.pendingConfiguration,
                                   d.pendingCommand, newer))
        && t.pending == newer && t.cached == s.cached && upgraded == Some(newer)
        && match d.configuration {
             case Document(_, rest) =>
               && outcome == Changed && t.device.value.configuration == Document(Some(newer), rest)
               && t.sent == s.sent + [Configure(newer, Document(Some(newer), rest))]
             case Garbled(_) => outcome == Failed && t.device.value.configuration == d.configuration && t.sent == s.sent
           }
  {
  }
}
