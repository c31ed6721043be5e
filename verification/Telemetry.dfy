/** Telemetry of one connection: who asked for it, until when, how often, and what was passed on. */
module Telemetry {
  import opened Common

  datatype Kind = WebSocket | Kafka

  /** Messages to the device, and telemetry passed on to the clients or to the bus. */
  datatype Message = Start(interval: u64) | Stop | ToClients | ToBus

  /** What happened since telemetry was last stopped: a request with its interval and its expiry, or
      a packet that was passed on and counted. */
  datatype Entry = Asked(kind: Kind, interval: u64, expiry: u64) | Passed(kind: Kind)

  /** One kind of telemetry, with the copies of its counters that the state of the connection shows. */
  datatype Side = Side(count: nat, timer: u64, packets: nat, shownCount: nat, shownPackets: nat)

  datatype State = State(reporting: bool, interval: u64, web: Side, kafka: Side, out: seq<Message>, since: seq<Entry>)

  const IDLE: State := State(false, 0, Side(0, 0, 0, 0, 0), Side(0, 0, 0, 0, 0), [], [])

  function SideOf(s: State, kind: Kind): Side {
    if kind == WebSocket then s.web else s.kafka
  }

  function WithSide(s: State, kind: Kind, side: Side): State {
    if kind == WebSocket then s.(web := side) else s.(kafka := side)
  }

  /** The copies of both counts are brought up to date together. */
  function Updated(s: State): State {
    s.(web := s.web.(shownCount := s.web.count), kafka := s.kafka.(shownCount := s.kafka.count))
  }

  function Total(s: State): nat {
    s.web.count + s.kafka.count
  }

  function Expiry(lifetime: u64, now: u64): u64 {
    (lifetime + now) % TWO_64
  }

  function AfterStop(s: State): State {
    s.(interval := 0, web := s.web.(timer := 0, packets := 0), kafka := s.kafka.(timer := 0, packets := 0),
       out := s.out + [Stop], since := [])
  }

  function AfterAsk(s: State, kind: Kind, interval: u64, lifetime: u64, now: u64): State {
    var side := SideOf(s, kind);
    var expiry := Expiry(lifetime, now);
    var counted := Updated(WithSide(s, kind, side.(count := side.count + 1,
                                                   timer := if expiry > side.timer then expiry else side.timer)));
    var asked := counted.(interval := if s.interval != 0 && s.interval <= interval then s.interval else interval,
                          since := s.since + [Asked(kind, interval, expiry)]);
    if s.reporting then asked else asked.(reporting := true, out := s.out + [Start(asked.interval)])
  }

  function AfterRelease(s: State, kind: Kind): State {
    var side := SideOf(s, kind);
    var released := Updated(WithSide(s, kind, side.(count := if side.count == 0 then 0 else side.count - 1)));
    if Total(released) == 0 then AfterStop(released.(reporting := false)) else released
  }

  /** A packet passed on to one kind of receiver, or the end of a request that has run out. */
  function AfterPass(s: State, kind: Kind, inTime: bool): State {
    var side := SideOf(s, kind);
    if side.count == 0 then s
    else if inTime then
      WithSide(s, kind, side.(packets := side.packets + 1, shownPackets := side.packets + 1))
        .(since := s.since + [Passed(kind)], out := s.out + [if kind == WebSocket then ToClients else ToBus])
    else AfterRelease(s, kind)
  }

  /** What telemetry of a device does that has connected. */
  function AfterTelemetry(s: State, adhoc: bool, hasData: bool, now: u64, bus: bool): State {
    if !s.reporting && !adhoc then AfterStop(s)
    else if !hasData then s
    else if adhoc then s.(out := s.out + [ToBus])
    else
      var first := AfterPass(s, WebSocket, now < s.web.timer);
      AfterPass(first, Kafka, bus && now < first.kafka.timer)
  }

  class Connection {
    var reporting: bool
    var interval: u64
    var webSocketRefCount: nat
    var kafkaRefCount: nat
    var webSocketTimer: u64
    var kafkaTimer: u64
    var webSocketPackets: nat
    var kafkaPackets: nat
    var shownWebSocketClients: nat
    var shownKafkaClients: nat
    var shownWebSocketPackets: nat
    var shownKafkaPackets: nat
    var out: seq<Message>
    ghost var since: seq<Entry>

    constructor ()
      ensures View() == IDLE
    {
      reporting, interval, out, since := false, 0, [], [];
      webSocketRefCount, kafkaRefCount, webSocketTimer, kafkaTimer, webSocketPackets, kafkaPackets := 0, 0, 0, 0, 0, 0;
      shownWebSocketClients, shownKafkaClients, shownWebSocketPackets, shownKafkaPackets := 0, 0, 0, 0;
    }

    ghost function View(): State
      reads this
    {
      State(reporting, interval,
            Side(webSocketRefCount, webSocketTimer, webSocketPackets, shownWebSocketClients, shownWebSocketPackets),
            Side(kafkaRefCount, kafkaTimer, kafkaPackets, shownKafkaClients, shownKafkaPackets), out, since)
    }

    method StartTelemetry()
      modifies this`out
      ensures out == old(out) + [Start(interval)]
    {
      out := out + [Start(interval)];
    }

    method StopTelemetry()
      modifies this`kafkaPackets, this`webSocketPackets, this`interval, this`kafkaTimer, this`webSocketTimer
      modifies this`out, this`since
      ensures View() == AfterStop(old(View()))
    {
      kafkaPackets, webSocketPackets, interval, kafkaTimer, webSocketTimer := 0, 0, 0, 0, 0;
      out, since := out + [Stop], [];
    }

    method UpdateCounts()
      modifies this`shownKafkaClients, this`shownWebSocketClients
      ensures View() == Updated(old(View()))
    {
      shownKafkaClients := kafkaRefCount;
      shownWebSocketClients := webSocketRefCount;
    }

    method SetWebSocketTelemetryReporting(newInterval: u64, lifetime: u64, now: u64)
      modifies this`webSocketRefCount, this`interval, this`webSocketTimer, this`since, this`reporting, this`out
      modifies this`shownKafkaClients, this`shownWebSocketClients
      ensures View() == AfterAsk(old(View()), WebSocket, newInterval, lifetime, now)
    {
      webSocketRefCount := webSocketRefCount + 1;
      interval := if interval != 0 && interval <= newInterval then interval else newInterval;
      var timer := Expiry(lifetime, now);
      webSocketTimer := if timer > webSocketTimer then timer else webSocketTimer;
      since := since + [Asked(WebSocket, newInterval, timer)];
      UpdateCounts();
      if !reporting {
        reporting := true;
        StartTelemetry();
      }
    }

    method SetKafkaTelemetryReporting(newInterval: u64, lifetime: u64, now: u64)
      modifies this`kafkaRefCount, this`interval, this`kafkaTimer, this`since, this`reporting, this`out
      modifies this`shownKafkaClients, this`shownWebSocketClients
      ensures View() == AfterAsk(old(View()), Kafka, newInterval, lifetime, now)
    {
      kafkaRefCount := kafkaRefCount + 1;
      interval := if interval != 0 && interval <= newInterval then interval else newInterval;
      var timer := Expiry(lifetime, now);
      kafkaTimer := if timer > kafkaTimer then timer else kafkaTimer;
      since := since + [Asked(Kafka, newInterval, timer)];
      UpdateCounts();
      if !reporting {
        reporting := true;
        StartTelemetry();
      }
    }

    method StopWebSocketTelemetry()
      modifies this
      ensures View() == AfterRelease(old(View()), WebSocket)
    {
      if webSocketRefCount != 0 {
        webSocketRefCount := webSocketRefCount - 1;
      }
      UpdateCounts();
      if webSocketRefCount == 0 && kafkaRefCount == 0 {
        reporting := false;
        StopTelemetry();
      }
    }

    method StopKafkaTelemetry()
      modifies this
      ensures View() == AfterRelease(old(View()), Kafka)
    {
      if kafkaRefCount != 0 {
        kafkaRefCount := kafkaRefCount - 1;
      }
      UpdateCounts();
      if webSocketRefCount == 0 && kafkaRefCount == 0 {
        reporting := false;
        StopTelemetry();
      }
    }

    /** The device has to have connected; otherwise an error is counted. */
    method ProcessTelemetry(connected: bool, adhoc: bool, hasData: bool, now: u64, bus: bool) returns (errors: nat)
      modifies this
      ensures View() == if connected then AfterTelemetry(old(View()), adhoc, hasData, now, bus) else old(View())
      ensures errors == if connected then 0 else 1
    {
      if !connected {
        return 1;
      }
      errors := 0;
      if reporting || adhoc {
        if hasData {
          if adhoc {
            out := out + [ToBus];
            return;
          }
          if webSocketRefCount != 0 {
            if now < webSocketTimer {
              webSocketPackets := webSocketPackets + 1;
              shownWebSocketPackets := webSocketPackets;
              out, since := out + [ToClients], since + [Passed(WebSocket)];
            } else {
              StopWebSocketTelemetry();
            }
          }
          if kafkaRefCount != 0 {
            if bus && now < kafkaTimer {
              kafkaPackets := kafkaPackets + 1;
              shownKafkaPackets := kafkaPackets;
              out, since := out + [ToBus], since + [Passed(Kafka)];
            } else {
              StopKafkaTelemetry();
            }
          }
        }
      } else {
        StopTelemetry();
      }
    }
  }

  datatype Event =
    | Ask(kind: Kind, interval: u64, lifetime: u64, now: u64)
    | Release(kind: Kind)
    | Data(connected: bool, adhoc: bool, hasData: bool, now: u64, bus: bool)

  function Next(s: State, e: Event): State {
    match e
    case Ask(kind, interval, lifetime, now) => AfterAsk(s, kind, interval, lifetime, now)
    case Release(kind) => AfterRelease(s, kind)
    case Data(connected, adhoc, hasData, now, bus) =>
      if connected then AfterTelemetry(s, adhoc, hasData, now, bus) else s
  }

  function Run(events: seq<Event>): State {
    if events == [] then IDLE else Next(Run(events[..|events| - 1]), events[|events| - 1])
  }

  /** The intervals asked for, in order. */
  function Intervals(since: seq<Entry>): (all: seq<u64>)
    ensures |all| <= |since|
  {
    if since == [] then []
    else
      var last := since[|since| - 1];
      Intervals(since[..|since| - 1]) + if last.Asked? then [last.interval] else []
  }

  /** The expiries asked for with one kind. */
  function Expiries(since: seq<Entry>, kind: Kind): seq<u64> {
    if since == [] then []
    else
      var last := since[|since| - 1];
      Expiries(since[..|since| - 1], kind) + if last.Asked? && last.kind == kind then [last.expiry] else []
  }

  /** How many packets were passed on to one kind. */
  function Passes(since: seq<Entry>, kind: Kind): nat {
    if since == [] then 0
    else Passes(since[..|since| - 1], kind) + if since[|since| - 1] == Passed(kind) then 1 else 0
  }

  function AfterLastZero(s: seq<u64>): seq<u64> {
    if s == [] || s[|s| - 1] == 0 then [] else AfterLastZero(s[..|s| - 1]) + [s[|s| - 1]]
  }

  ghost predicate IsLowest(v: u64, s: seq<u64>) {
    if s == [] then v == 0 else v in s && forall x | x in s :: v <= x
  }

  ghost predicate IsHighest(v: u64, s: seq<u64>) {
    if s == [] then v == 0 else v in s && forall x | x in s :: x <= v
  }

  /** What the device was last told. */
  function LastTold(out: seq<Message>): Message {
    if out == [] then Stop
    else if out[|out| - 1].Start? || out[|out| - 1].Stop? then out[|out| - 1]
    else LastTold(out[..|out| - 1])
  }

  function Starts(out: seq<Message>): nat {
    if out == [] then 0 else Starts(out[..|out| - 1]) + if out[|out| - 1].Start? then 1 else 0
  }

  ghost predicate SideHolds(side: Side, since: seq<Entry>, kind: Kind) {
    && IsHighest(side.timer, Expiries(since, kind))
    && side.packets == Passes(since, kind)
    && side.shownCount == side.count
    && (side.packets == 0 || side.shownPackets == side.packets)
  }

  ghost predicate Invariant(s: State) {
    && (s.reporting <==> Total(s) > 0)
    && (s.reporting <==> s.since != [])
    && (s.reporting ==> s.since[0].Asked? && LastTold(s.out) == Start(s.since[0].interval))
    && (!s.reporting ==> LastTold(s.out) == Stop)
    && IsLowest(s.interval, AfterLastZero(Intervals(s.since)))
    && SideHolds(s.web, s.since, WebSocket) && SideHolds(s.kafka, s.since, Kafka)
  }

  lemma EntriesGrow(since: seq<Entry>, e: Entry, kind: Kind)
    ensures Intervals(since + [e]) == Intervals(since) + (if e.Asked? then [e.interval] else [])
    ensures Expiries(since + [e], kind)
         == Expiries(since, kind) + (if e.Asked? && e.kind == kind then [e.expiry] else [])
    ensures Passes(since + [e], kind) == Passes(since, kind) + (if e == Passed(kind) then 1 else 0)
  {
    assert (since + [e])[..|since|] == since;
  }

  lemma {:induction false} NoZeroAfterLast(s: seq<u64>)
    ensures 0 !in AfterLastZero(s)
  {
    if s != [] && s[|s| - 1] != 0 {
      NoZeroAfterLast(s[..|s| - 1]);
    }
  }

  lemma LowestGrows(v: u64, s: seq<u64>, x: u64)
    requires IsLowest(v, AfterLastZero(s))
    ensures IsLowest(if v != 0 && v <= x then v else x, AfterLastZero(s + [x]))
  {
    assert (s + [x])[..|s|] == s;
    NoZeroAfterLast(s);
    var t := AfterLastZero(s);
    if x != 0 {
      assert AfterLastZero(s + [x]) == t + [x];
      assert x in t + [x];
      assert forall y | y in t + [x] :: y in t || y == x;
    }
  }

  lemma HighestGrows(v: u64, s: seq<u64>, x: u64)
    requires IsHighest(v, s)
    ensures IsHighest(if x > v then x else v, s + [x])
  {
    assert forall y | y in s + [x] :: y in s || y == x;
    assert x in s + [x];
  }

  lemma OutGrows(out: seq<Message>, m: Message)
    ensures Starts(out + [m]) == Starts(out) + (if m.Start? then 1 else 0)
    ensures LastTold(out + [m]) == if m.Start? || m.Stop? then m else LastTold(out)
  {
    assert (out + [m])[..|out|] == out;
  }

  /** What a request does to the side of its kind, and to the other. */
  lemma SideAsked(side: Side, since: seq<Entry>, kind: Kind, e: Entry)
    requires SideHolds(side, since, kind) && e.Asked?
    ensures e.kind == kind ==>
      SideHolds(side.(count := side.count + 1, shownCount := side.count + 1,
                      timer := if e.expiry > side.timer then e.expiry else side.timer),
                since + [e], kind)
    ensures e.kind != kind ==> SideHolds(side.(shownCount := side.count), since + [e], kind)
  {
    EntriesGrow(since, e, kind);
    HighestGrows(side.timer, Expiries(since, kind), e.expiry);
    assert Expiries(since, kind) + [] == Expiries(since, kind);
  }

  lemma AskKeeps(s: State, kind: Kind, interval: u64, lifetime: u64, now: u64)
    requires Invariant(s)
    ensures Invariant(AfterAsk(s, kind, interval, lifetime, now))
  {
    var e := Asked(kind, interval, Expiry(lifetime, now));
    EntriesGrow(s.since, e, kind);
    SideAsked(s.web, s.since, WebSocket, e);
    SideAsked(s.kafka, s.since, Kafka, e);
    LowestGrows(s.interval, Intervals(s.since), interval);
    OutGrows(s.out, Start(AfterAsk(s, kind, interval, lifetime, now).interval));
    hide Intervals, AfterLastZero, IsLowest, LastTold, Expiry, SideHolds;
  }

  /** A stop leaves a clean slate, wherever nobody is left who asked. */
  lemma StopKeeps(s: State)
    requires Total(s) == 0 && !s.reporting && s.web.shownCount == 0 && s.kafka.shownCount == 0
    ensures Invariant(AfterStop(s))
  {
  }

  lemma ReleaseKeeps(s: State, kind: Kind)
    requires Invariant(s)
    ensures Invariant(AfterRelease(s, kind))
  {
    var side := SideOf(s, kind);
    var released := Updated(WithSide(s, kind, side.(count := if side.count == 0 then 0 else side.count - 1)));
    if Total(released) == 0 {
      StopKeeps(released.(reporting := false));
    }
  }

  lemma PassKeeps(s: State, kind: Kind, inTime: bool)
    requires Invariant(s)
    ensures Invariant(AfterPass(s, kind, inTime))
  {
    if SideOf(s, kind).count != 0 {
      if inTime {
        EntriesGrow(s.since, Passed(kind), WebSocket);
        EntriesGrow(s.since, Passed(kind), Kafka);
        hide Intervals, Expiries, Passes, AfterLastZero, IsLowest, IsHighest;
        assert Intervals(s.since) + [] == Intervals(s.since);
        assert Expiries(s.since, WebSocket) + [] == Expiries(s.since, WebSocket);
        assert Expiries(s.since, Kafka) + [] == Expiries(s.since, Kafka);
      } else {
        ReleaseKeeps(s, kind);
      }
    }
  }

  lemma StepKeeps(s: State, e: Event)
    requires Invariant(s)
    ensures Invariant(Next(s, e))
  {
    match e
    case Ask(kind, interval, lifetime, now) => AskKeeps(s, kind, interval, lifetime, now);
    case Release(kind) => ReleaseKeeps(s, kind);
    case Data(connected, adhoc, hasData, now, bus) =>
      if !connected {
        hide Invariant;
      } else if !s.reporting && !adhoc {
        StopKeeps(s);
        hide Invariant, AfterStop;
      } else if hasData && !adhoc {
        var first := AfterPass(s, WebSocket, now < s.web.timer);
        PassKeeps(s, WebSocket, now < s.web.timer);
        PassKeeps(first, Kafka, bus && now < first.kafka.timer);
        hide Invariant, AfterPass;
      } else {
        TalkKeeps(s);
        hide Invariant;
      }
  }

  /** Passing on what nobody asked for changes nothing that was told. */
  lemma TalkKeeps(s: State)
    requires Invariant(s)
    ensures Invariant(s.(out := s.out + [ToBus]))
  {
    OutGrows(s.out, ToBus);
  }

  lemma {:induction false} RunKeeps(events: seq<Event>)
    ensures Invariant(Run(events))
  {
    if events != [] {
      RunKeeps(events[..|events| - 1]);
      StepKeeps(Run(events[..|events| - 1]), events[|events| - 1]);
    }
  }

  /** The intervals after the last zero are all of them exactly when there was no zero. */
  lemma {:induction false} AllAfterLastZero(s: seq<u64>)
    ensures AfterLastZero(s) == s <==> 0 !in s
    ensures |AfterLastZero(s)| <= |s|
    ensures forall x | x in AfterLastZero(s) :: x in s
  {
    if s != [] {
      var front := s[..|s| - 1];
      AllAfterLastZero(front);
      assert s == front + [s[|s| - 1]];
      if s[|s| - 1] != 0 {
        assert AfterLastZero(s)[..|AfterLastZero(s)| - 1] == AfterLastZero(front);
      }
    }
  }

  /** Telemetry over any run, since it was last stopped: it is on exactly while somebody counts as
      asking, and then the device was last told to start; each timer is the latest expiry asked for
      with its kind, each packet count the number of packets passed on; and the interval is the
      lowest asked for exactly when no request was for interval zero, or the last one was. */
  lemma ReportingIsCounted(events: seq<Event>)
    ensures var s := Run(events);
      && (s.reporting <==> Total(s) > 0)
      && (s.reporting <==> LastTold(s.out).Start?)
      && IsHighest(s.web.timer, Expiries(s.since, WebSocket)) && IsHighest(s.kafka.timer, Expiries(s.since, Kafka))
      && s.web.packets == Passes(s.since, WebSocket) && s.kafka.packets == Passes(s.since, Kafka)
      && s.web.shownCount == s.web.count && s.kafka.shownCount == s.kafka.count
    ensures var s := Run(events);
      var asked := Intervals(s.since);
      IsLowest(s.interval, asked) <==> 0 !in asked || asked[|asked| - 1] == 0
  {
    RunKeeps(events);
    hide Run, Intervals, Expiries, Passes, AfterLastZero, IsLowest, IsHighest, LastTold;
    var s := Run(events);
    IntervalIsLowest(s.interval, Intervals(s.since));
  }

  lemma {:induction false} PositiveIntervals(since: seq<Entry>)
    requires forall e | e in since && e.Asked? :: e.interval != 0
    ensures 0 !in Intervals(since)
  {
    if since != [] {
      assert since[|since| - 1] in since;
      PositiveIntervals(since[..|since| - 1]);
    }
  }

  ghost predicate AsksPositive(since: seq<Entry>) {
    forall e | e in since && e.Asked? :: e.interval != 0
  }

  lemma {:induction false} PositiveHistory(events: seq<Event>)
    requires forall e | e in events && e.Ask? :: e.interval != 0
    ensures AsksPositive(Run(events).since)
  {
    if events != [] {
      PositiveHistory(events[..|events| - 1]);
      assert events[|events| - 1] in events;
      var s := Run(events[..|events| - 1]);
      match events[|events| - 1]
      case Data(_, adhoc, hasData, now, bus) =>
        PassAsksNothing(s, WebSocket, now < s.web.timer);
        var first := AfterPass(s, WebSocket, now < s.web.timer);
        PassAsksNothing(first, Kafka, bus && now < first.kafka.timer);
        hide AfterPass;
      case _ =>
    }
  }

  lemma PassAsksNothing(s: State, kind: Kind, inTime: bool)
    requires AsksPositive(s.since)
    ensures AsksPositive(AfterPass(s, kind, inTime).since)
  {
  }

  /** Over any run of requests for positive intervals, which are all that the callers let through: the
      interval is the lowest asked for since telemetry was last stopped, or zero if nobody asked. */
  lemma IntervalIsTheLowestAsked(events: seq<Event>)
    requires forall e | e in events && e.Ask? :: e.interval != 0
    ensures IsLowest(Run(events).interval, Intervals(Run(events).since))
  {
    ReportingIsCounted(events);
    PositiveHistory(events);
    PositiveIntervals(Run(events).since);
  }

  lemma {:induction false} FirstInterval(since: seq<Entry>)
    requires since != [] && since[0].Asked?
    ensures Intervals(since) != [] && Intervals(since)[0] == since[0].interval
  {
    if |since| > 1 {
      FirstInterval(since[..|since| - 1]);
    }
  }

  /** Over any run of requests for positive intervals, and while telemetry is on: the device was last
      told the lowest interval asked for if and only if that is the one that was asked for first. */
  lemma LowestIsToldIfFirst(events: seq<Event>)
    requires forall e | e in events && e.Ask? :: e.interval != 0
    requires Run(events).reporting
    ensures var s := Run(events);
      var asked := Intervals(s.since);
      && asked != []
      && (LastTold(s.out) == Start(s.interval) <==> forall x | x in asked :: asked[0] <= x)
  {
    RunKeeps(events);
    IntervalIsTheLowestAsked(events);
    var s := Run(events);
    FirstInterval(s.since);
    hide Run, Intervals, LastTold, SideHolds, AfterLastZero;
    assert Intervals(s.since)[0] in Intervals(s.since);
  }

  /** Asked for 60 and then for 10: the device goes on with 60. */
  lemma LowerIntervalIsNotTold()
    ensures var s := Run([Ask(WebSocket, 60, 100, 0), Ask(WebSocket, 10, 100, 0)]);
      s.interval == 10 && LastTold(s.out) == Start(60)
  {
    var first, second := Ask(WebSocket, 60, 100, 0), Ask(WebSocket, 10, 100, 0);
    assert [first, second][..1] == [first] && [first][..0] == [];
    assert Run([first]) == Next(IDLE, first);
    assert Run([first, second]) == Next(Next(IDLE, first), second);
  }

  /** The requests of a kind that stand, where no data comes: one more for each that is made, and one less
      for each that is released, while there is one. */
  function Standing(events: seq<Event>, kind: Kind): nat {
    if events == [] then 0
    else
      var before := Standing(events[..|events| - 1], kind);
      match events[|events| - 1]
      case Ask(k, _, _, _) => if k == kind then before + 1 else before
      case Release(k) => if k == kind && before > 0 then before - 1 else before
      case Data(_, _, _, _, _) => before
  }

  /** Over every run without data, each side counts the requests that stand. */
  lemma {:induction false} RequestsAreCounted(events: seq<Event>)
    requires forall e | e in events :: !e.Data?
    ensures Run(events).web.count == Standing(events, WebSocket)
    ensures Run(events).kafka.count == Standing(events, Kafka)
  {
    if events != [] {
      var some := events[..|events| - 1];
      RequestsAreCounted(some);
      CountsFollow(some, events[|events| - 1]);
      assert events[|events| - 1] in events;
      hide Next;
    }
  }

  /** What an event does to the counts: a request is one more, and it is noted when it runs out, in 64 bits;
      a release is one less; data of a device that has not connected is nothing. */
  ghost predicate Counts(s: State, e: Event, t: State) {
    match e
    case Ask(kind, interval, lifetime, now) =>
      && t.web.count == s.web.count + (if kind == WebSocket then 1 else 0)
      && t.kafka.count == s.kafka.count + (if kind == Kafka then 1 else 0)
      && t.since == s.since + [Asked(kind, interval, (lifetime + now) % 0x1_0000_0000_0000_0000)]
    case Release(kind) =>
      && t.web.count == (if kind == WebSocket && s.web.count > 0 then s.web.count - 1 else s.web.count)
      && t.kafka.count == (if kind == Kafka && s.kafka.count > 0 then s.kafka.count - 1 else s.kafka.count)
      && (t.since == [] || t.since == s.since) && (t.since == [] <==> t.web.count + t.kafka.count == 0)
    case Data(connected, _, _, _, _) => !connected ==> t == s
  }

  lemma CountsFollow(events: seq<Event>, e: Event)
    ensures Counts(Run(events), e, Next(Run(events), e))
  {
    RunKeeps(events);
    StepKeeps(Run(events), e);
    hide Run;
    StepCounts(Run(events), e);
    hide Next, Counts, Invariant;
  }

  lemma StepCounts(s: State, e: Event)
    requires Invariant(s) && Invariant(Next(s, e))
    ensures Counts(s, e, Next(s, e))
  {
    match e
    case Ask(kind, interval, lifetime, now) => AskCounts(s, kind, interval, lifetime, now);
    case Release(kind) => ReleaseCounts(s, kind);
    case Data(_, _, _, _, _) =>
    hide AfterAsk, AfterRelease, AfterTelemetry, Invariant;
  }

  lemma AskCounts(s: State, kind: Kind, interval: u64, lifetime: u64, now: u64)
    ensures var t := AfterAsk(s, kind, interval, lifetime, now);
      && t.web.count == s.web.count + (if kind == WebSocket then 1 else 0)
      && t.kafka.count == s.kafka.count + (if kind == Kafka then 1 else 0)
      && t.since == s.since + [Asked(kind, interval, (lifetime + now) % 0x1_0000_0000_0000_0000)]
  {
  }

  lemma ReleaseCounts(s: State, kind: Kind)
    requires Invariant(s) && Invariant(AfterRelease(s, kind))
    ensures var t := AfterRelease(s, kind);
      && t.web.count == (if kind == WebSocket && s.web.count > 0 then s.web.count - 1 else s.web.count)
      && t.kafka.count == (if kind == Kafka && s.kafka.count > 0 then s.kafka.count - 1 else s.kafka.count)
      && (t.since == [] || t.since == s.since) && (t.since == [] <==> t.web.count + t.kafka.count == 0)
  {
    hide SideHolds, IsLowest, AfterLastZero, Intervals, LastTold;
  }

  /** What is shown of a side is the number of its packets, if there are any. */
  predicate Shows(side: Side) {
    side.packets != 0 ==> side.shownPackets == side.packets
  }

  /** The number of packets that is shown is that of the last one passed on, also once it is over. */
  lemma {:induction false} PacketsAreShown(events: seq<Event>)
    ensures Shows(Run(events).web) && Shows(Run(events).kafka)
  {
    if events != [] {
      var s := Run(events[..|events| - 1]);
      PacketsAreShown(events[..|events| - 1]);
      match events[|events| - 1]
      case Ask(kind, interval, lifetime, now) => AskShows(s, kind, interval, lifetime, now);
      case Release(kind) => ReleaseShows(s, kind);
      case Data(_, _, _, now, bus) =>
        PassShows(s, WebSocket, now < s.web.timer);
        var first := AfterPass(s, WebSocket, now < s.web.timer);
        PassShows(first, Kafka, bus && now < first.kafka.timer);
        hide AfterPass;
    }
  }

  lemma AskShows(s: State, kind: Kind, interval: u64, lifetime: u64, now: u64)
    requires Shows(s.web) && Shows(s.kafka)
    ensures var t := AfterAsk(s, kind, interval, lifetime, now); Shows(t.web) && Shows(t.kafka)
  {
  }

  lemma ReleaseShows(s: State, kind: Kind)
    requires Shows(s.web) && Shows(s.kafka)
    ensures Shows(AfterRelease(s, kind).web) && Shows(AfterRelease(s, kind).kafka)
  {
  }

  lemma PassShows(s: State, kind: Kind, inTime: bool)
    requires Shows(s.web) && Shows(s.kafka)
    ensures Shows(AfterPass(s, kind, inTime).web) && Shows(AfterPass(s, kind, inTime).kafka)
  {
    ReleaseShows(s, kind);
    hide AfterRelease;
  }

  lemma IntervalIsLowest(v: u64, asked: seq<u64>)
    requires IsLowest(v, AfterLastZero(asked))
    ensures IsLowest(v, asked) <==> 0 !in asked || asked[|asked| - 1] == 0
  {
    AllAfterLastZero(asked);
    NoZeroAfterLast(asked);
    if asked != [] && asked[|asked| - 1] != 0 {
      assert AfterLastZero(asked)[|AfterLastZero(asked)| - 1] == asked[|asked| - 1];
      assert v in AfterLastZero(asked) && v != 0;
    } else if asked != [] {
      assert 0 in asked;
    }
  }

  /** One start more when somebody asks first, none otherwise; what the device was told stands while
      somebody counts as asking. */
  ghost predicate Tells(s: State, t: State) {
    && Starts(t.out) == Starts(s.out) + (if Total(s) == 0 && Total(t) > 0 then 1 else 0)
    && (Total(s) > 0 && Total(t) > 0 ==> LastTold(t.out) == LastTold(s.out))
  }

  lemma AskTells(s: State, kind: Kind, interval: u64, lifetime: u64, now: u64)
    requires s.reporting <==> Total(s) > 0
    ensures var t := AfterAsk(s, kind, interval, lifetime, now);
      Tells(s, t) && (Total(s) == 0 && s.interval == 0 ==> LastTold(t.out) == Start(interval))
  {
    var t := AfterAsk(s, kind, interval, lifetime, now);
    OutGrows(s.out, Start(t.interval));
  }

  lemma ReleaseTells(s: State, kind: Kind)
    requires s.reporting <==> Total(s) > 0
    ensures Tells(s, AfterRelease(s, kind)) && Total(AfterRelease(s, kind)) <= Total(s)
  {
    OutGrows(s.out, Stop);
    hide Starts, LastTold;
  }

  lemma PassTells(s: State, kind: Kind, inTime: bool)
    requires s.reporting <==> Total(s) > 0
    ensures Tells(s, AfterPass(s, kind, inTime)) && Total(AfterPass(s, kind, inTime)) <= Total(s)
  {
    OutGrows(s.out, if kind == WebSocket then ToClients else ToBus);
    ReleaseTells(s, kind);
    hide Starts, LastTold, AfterRelease;
  }

  lemma BothPassesTell(s: State, now: u64, bus: bool)
    requires Invariant(s)
    ensures var first := AfterPass(s, WebSocket, now < s.web.timer);
      var second := AfterPass(first, Kafka, bus && now < first.kafka.timer);
      Tells(s, second) && Total(second) <= Total(s)
  {
    var first := AfterPass(s, WebSocket, now < s.web.timer);
    PassTells(s, WebSocket, now < s.web.timer);
    PassKeeps(s, WebSocket, now < s.web.timer);
    PassTells(first, Kafka, bus && now < first.kafka.timer);
    hide AfterPass, Starts, LastTold, SideHolds, IsLowest, AfterLastZero, Intervals;
  }

  lemma DataTells(s: State, adhoc: bool, hasData: bool, now: u64, bus: bool)
    requires Invariant(s)
    ensures var t := AfterTelemetry(s, adhoc, hasData, now, bus);
      Tells(s, t) && Total(t) <= Total(s)
  {
    assert s.reporting <==> Total(s) > 0;
    BothPassesTell(s, now, bus);
    hide Invariant, AfterPass;
    if Total(s) == 0 {
      StopTells(s);
    }
    TalkTells(s);
    hide AfterStop, Tells;
    SameTells(s);
  }

  lemma StopTells(s: State)
    requires Total(s) == 0
    ensures Tells(s, AfterStop(s)) && Total(AfterStop(s)) == 0
  {
    OutGrows(s.out, Stop);
  }

  lemma TalkTells(s: State)
    ensures Tells(s, s.(out := s.out + [ToBus]))
  {
    OutGrows(s.out, ToBus);
  }

  lemma SameTells(s: State)
    ensures Tells(s, s)
  {
  }

  lemma StepTells(s: State, e: Event)
    requires Invariant(s)
    ensures Tells(s, Next(s, e))
    ensures Total(s) == 0 && Total(Next(s, e)) > 0 ==> e.Ask? && LastTold(Next(s, e).out) == Start(e.interval)
  {
    assert Total(s) == 0 ==> s.interval == 0;
    match e
    case Ask(kind, interval, lifetime, now) => AskTells(s, kind, interval, lifetime, now);
    case Release(kind) => ReleaseTells(s, kind);
    case Data(_, adhoc, hasData, now, bus) =>
      DataTells(s, adhoc, hasData, now, bus);
      hide AfterTelemetry, Starts, LastTold, Invariant;
  }

  /** A start goes out exactly when the first one asks, with the interval of that request; lower
      intervals asked for later are noted here but not told to the device; and once nobody counts as
      asking, the last thing the device was told is to stop. */
  lemma StartsWhenCountLeavesZero(events: seq<Event>, e: Event)
    ensures var s := Run(events);
      var t := Next(s, e);
      && Starts(t.out) == Starts(s.out) + (if Total(s) == 0 && Total(t) > 0 then 1 else 0)
      && (Total(s) == 0 && Total(t) > 0 ==> e.Ask? && LastTold(t.out) == Start(e.interval))
      && (Total(s) > 0 && Total(t) > 0 ==> LastTold(t.out) == LastTold(s.out))
      && (Total(t) == 0 ==> LastTold(t.out) == Stop)
  {
    RunKeeps(events);
    StepKeeps(Run(events), e);
    StepTells(Run(events), e);
    hide Run, Next, Starts, LastTold, SideHolds;
  }

  function Deliveries(out: seq<Message>, m: Message): nat {
    if out == [] then 0 else Deliveries(out[..|out| - 1], m) + if out[|out| - 1] == m then 1 else 0
  }

  lemma OneMoreDelivery(out: seq<Message>, x: Message, m: Message)
    ensures Deliveries(out + [x], m) == Deliveries(out, m) + (if x == m then 1 else 0)
  {
    assert (out + [x])[..|out|] == out;
  }

  lemma PassDelivers(s: State, kind: Kind, inTime: bool, m: Message)
    requires m == ToClients || m == ToBus
    ensures var t := AfterPass(s, kind, inTime);
      && Deliveries(t.out, m) == Deliveries(s.out, m)
           + (if SideOf(s, kind).count > 0 && inTime && (m == ToClients <==> kind == WebSocket) then 1 else 0)
      && SideOf(t, kind).count == SideOf(s, kind).count - (if SideOf(s, kind).count > 0 && !inTime then 1 else 0)
  {
    OneMoreDelivery(s.out, ToClients, m);
    OneMoreDelivery(s.out, ToBus, m);
    OneMoreDelivery(s.out, Stop, m);
  }

  /** In every reachable state, telemetry with data is passed on to the clients exactly while one
      counts and its time has not run out, to the bus likewise while the bus is on, and to the bus
      alone when nobody asked for it; and a side that has run out has one less to count. */
  lemma DataIsPassedOnInTime(events: seq<Event>, adhoc: bool, hasData: bool, now: u64, bus: bool)
    ensures var s := Run(events);
      var t := AfterTelemetry(s, adhoc, hasData, now, bus);
      var toClients := hasData && !adhoc && s.web.count > 0 && now < s.web.timer;
      var toBus := hasData && (adhoc || (s.kafka.count > 0 && bus && now < s.kafka.timer));
      && Deliveries(t.out, ToClients) == Deliveries(s.out, ToClients) + (if toClients then 1 else 0)
      && Deliveries(t.out, ToBus) == Deliveries(s.out, ToBus) + (if toBus then 1 else 0)
      && t.web.count == s.web.count - (if hasData && !adhoc && s.web.count > 0 && !toClients then 1 else 0)
      && t.kafka.count == s.kafka.count - (if hasData && !adhoc && s.kafka.count > 0 && !toBus then 1 else 0)
  {
    RunKeeps(events);
    hide Run;
    var s := Run(events);
    OneMoreDelivery(s.out, Stop, ToClients);
    OneMoreDelivery(s.out, Stop, ToBus);
    OneMoreDelivery(s.out, ToBus, ToClients);
    OneMoreDelivery(s.out, ToBus, ToBus);
    assert s.reporting <==> Total(s) > 0;
    if s.reporting && hasData && !adhoc {
      var first := AfterPass(s, WebSocket, now < s.web.timer);
      PassDelivers(s, WebSocket, now < s.web.timer, ToClients);
      PassDelivers(s, WebSocket, now < s.web.timer, ToBus);
      PassDelivers(first, Kafka, bus && now < first.kafka.timer, ToClients);
      PassDelivers(first, Kafka, bus && now < first.kafka.timer, ToBus);
      OtherSideKept(s, WebSocket, now < s.web.timer);
      OtherSideKept(first, Kafka, bus && now < first.kafka.timer);
      hide AfterPass, Deliveries, Invariant;
    }
  }

  /** A pass on one side leaves the count of the other, and its timer while somebody counts there. */
  lemma OtherSideKept(s: State, kind: Kind, inTime: bool)
    ensures var t := AfterPass(s, kind, inTime);
      var other := if kind == WebSocket then Kafka else WebSocket;
      && SideOf(t, other).count == SideOf(s, other).count
      && (SideOf(s, other).count > 0 ==> SideOf(t, other).timer == SideOf(s, other).timer)
  {
  }
}
